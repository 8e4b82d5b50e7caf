/** The instrument registry: the symbol -> instrument-token table read once
    at start-up from the exchange's instrument list, and the lookup the
    ingestion pipeline uses to resolve a symbol. */
module Registry {
  import opened Wrappers
  import opened Text

  /** The broker's numeric instrument identifier. */
  type Token = int

  /** The `instrument_token` field of an entry: a value `int()` accepts, or one it rejects. */
  datatype TokenValue = Numeric(n: int) | Unparsable

  /** One record of the instrument list; either field may be missing. */
  datatype Entry = Entry(symbol: Option<string>, token: Option<TokenValue>)

  /** Symbol -> token, keyed by normalised symbol. */
  type Mapping = map<string, Token>

  /** The entry carries both fields the loader looks for. */
  predicate Complete(e: Entry) {
    e.symbol.Some? && e.token.Some?
  }

  /** The entry makes `int()` raise, which ends the whole load. */
  predicate Aborts(e: Entry) {
    Complete(e) && e.token.value.Unparsable?
  }

  /** The entry stores a token under key `k`. */
  predicate Writes(e: Entry, k: string) {
    Complete(e) && e.token.value.Numeric? && Normalize(e.symbol.value) == k
  }

  /** The loader's loop over the entries, starting from mapping `m`. */
  function LoadInto(m: Mapping, es: seq<Entry>): (r: Mapping)
    // the loader only ever adds or overwrites keys, and every key it adds is normalised
    ensures m.Keys <= r.Keys
    ensures forall k :: k in r && k !in m ==> Normalize(k) == k
    decreases |es|
  {
    if es == [] then m
    else
      var e := es[0];
      if !Complete(e) then LoadInto(m, es[1..])
      else match e.token.value
        case Unparsable => m
        case Numeric(n) =>
          NormalizeIdempotent(e.symbol.value);
          LoadInto(m[Normalize(e.symbol.value) := n], es[1..])
  }

  /** Start-up load into the initially empty global table: every key is a
      stripped, upper-cased symbol, and an empty list loads nothing. */
  function Load(es: seq<Entry>): (r: Mapping)
    ensures forall k :: k in r ==> Normalize(k) == k
    ensures es == [] ==> r == map[]
  {
    LoadInto(map[], es)
  }

  /** How many entries the load gets through: up to the first one that aborts it. */
  function Stop(es: seq<Entry>): (n: nat)
    ensures n <= |es|
    ensures forall i :: 0 <= i < n ==> !Aborts(es[i])
    ensures n < |es| ==> Aborts(es[n])
  {
    if es == [] then 0
    else if Aborts(es[0]) then 0
    else 1 + Stop(es[1..])
  }

  /** Looking a symbol up: nothing for the empty string, otherwise the entry
      under its normalised form. */
  function Resolve(m: Mapping, symbol: string): (r: Option<Token>)
    ensures symbol == "" ==> r == None
    ensures symbol != "" ==> (r.Some? <==> Normalize(symbol) in m)
    ensures r.Some? ==> r.value == m[Normalize(symbol)]
  {
    if symbol == "" then None
    else
      var k := Normalize(symbol);
      if k in m then Some(m[k]) else None
  }

  /** Some entry before the abort point stores a token under `k`. */
  predicate HasWriter(es: seq<Entry>, k: string) {
    exists i :: 0 <= i < Stop(es) && Writes(es[i], k)
  }

  /** Entry `i` is the last one before the abort point that stores under `k`. */
  predicate LastWriter(es: seq<Entry>, k: string, i: int) {
    && 0 <= i < Stop(es)
    && Writes(es[i], k)
    && forall j :: i < j < Stop(es) ==> !Writes(es[j], k)
  }

  lemma HasWriterStep(es: seq<Entry>, k: string)
    requires es != [] && !Aborts(es[0])
    ensures Stop(es) == 1 + Stop(es[1..])
    ensures HasWriter(es, k) <==> Writes(es[0], k) || HasWriter(es[1..], k)
  {
    var rest := es[1..];
    if HasWriter(es, k) {
      var i :| 0 <= i < Stop(es) && Writes(es[i], k);
      if i > 0 {
        assert es[i] == rest[i - 1];
      }
    }
    if HasWriter(rest, k) {
      var i :| 0 <= i < Stop(rest) && Writes(rest[i], k);
      assert es[i + 1] == rest[i];
    }
  }

  lemma LastWriterStep(es: seq<Entry>, k: string, i: int)
    requires es != [] && !Aborts(es[0]) && LastWriter(es, k, i)
    ensures i == 0 ==> !HasWriter(es[1..], k)
    ensures i > 0 ==> LastWriter(es[1..], k, i - 1)
  {
    var rest := es[1..];
    HasWriterStep(es, k);
    if i > 0 {
      assert es[i] == rest[i - 1];
      forall j | i - 1 < j < Stop(rest)
        ensures !Writes(rest[j], k)
      {
        assert es[j + 1] == rest[j];
      }
    }
  }

  /** A key is in the loaded table iff it was there before or some entry before
      the abort point stores it. */
  lemma {:induction false} LoadIntoHas(m: Mapping, es: seq<Entry>, k: string)
    ensures k in LoadInto(m, es) <==> k in m || HasWriter(es, k)
    decreases |es|
  {
    if es != [] {
      var e := es[0];
      if Aborts(e) {
        assert Stop(es) == 0;
      } else {
        HasWriterStep(es, k);
        if !Complete(e) {
          LoadIntoHas(m, es[1..], k);
        } else {
          LoadIntoHas(m[Normalize(e.symbol.value) := e.token.value.n], es[1..], k);
        }
      }
    }
  }

  /** A key no entry stores keeps its value from `m`. */
  lemma {:induction false} LoadIntoKeeps(m: Mapping, es: seq<Entry>, k: string)
    requires !HasWriter(es, k) && k in m
    ensures k in LoadInto(m, es) && LoadInto(m, es)[k] == m[k]
    decreases |es|
  {
    if es != [] {
      var e := es[0];
      if !Aborts(e) {
        HasWriterStep(es, k);
        if !Complete(e) {
          LoadIntoKeeps(m, es[1..], k);
        } else {
          LoadIntoKeeps(m[Normalize(e.symbol.value) := e.token.value.n], es[1..], k);
        }
      }
    }
  }

  /** Later duplicates overwrite earlier ones: the stored token is the last writer's. */
  lemma {:induction false} LoadIntoLast(m: Mapping, es: seq<Entry>, k: string, i: int)
    requires LastWriter(es, k, i)
    ensures k in LoadInto(m, es) && LoadInto(m, es)[k] == es[i].token.value.n
    decreases |es|
  {
    var e := es[0];
    LastWriterStep(es, k, i);
    if !Complete(e) {
      LoadIntoLast(m, es[1..], k, i - 1);
    } else {
      var m' := m[Normalize(e.symbol.value) := e.token.value.n];
      if i == 0 {
        LoadIntoKeeps(m', es[1..], k);
      } else {
        LoadIntoLast(m', es[1..], k, i - 1);
      }
    }
  }

  /** An entry lacking a symbol or a token changes nothing wherever it stands. */
  lemma {:induction false} LoadSkipsIncomplete(m: Mapping, a: seq<Entry>, e: Entry, b: seq<Entry>)
    requires !Complete(e)
    ensures LoadInto(m, a + [e] + b) == LoadInto(m, a + b)
    decreases |a|
  {
    if a == [] {
      assert a + [e] + b == [e] + b;
      assert ([e] + b)[1..] == b;
      assert a + b == b;
    } else {
      var x := a[0];
      assert (a + [e] + b)[0] == x && (a + [e] + b)[1..] == a[1..] + [e] + b;
      assert (a + b)[0] == x && (a + b)[1..] == a[1..] + b;
      if !Complete(x) {
        LoadSkipsIncomplete(m, a[1..], e, b);
      } else if x.token.value.Numeric? {
        LoadSkipsIncomplete(m[Normalize(x.symbol.value) := x.token.value.n], a[1..], e, b);
      }
    }
  }

  /** Differently padded or cased spellings of a symbol resolve alike. */
  lemma ResolveIgnoresSpelling(m: Mapping, p: string, s: string, q: string)
    requires AllSpace(p) && AllSpace(q) && s != ""
    ensures Resolve(m, p + s + q) == Resolve(m, s)
    ensures Resolve(m, Upper(s)) == Resolve(m, s)
    ensures Resolve(m, Lower(s)) == Resolve(m, s)
  {
    NormalizeIgnoresPadding(p, s, q);
    NormalizeIgnoresCase(s);
  }

  /** Resolving against the loaded table finds the token of the last complete
      entry whose symbol normalises the same way, and nothing when there is none. */
  lemma ResolveAfterLoad(es: seq<Entry>, s: string)
    ensures s == "" ==> Resolve(Load(es), s) == None
    ensures s != "" && !HasWriter(es, Normalize(s)) ==> Resolve(Load(es), s) == None
    ensures forall i :: s != "" && LastWriter(es, Normalize(s), i) ==>
              Resolve(Load(es), s) == Some(es[i].token.value.n)
  {
    LoadIntoHas(map[], es, Normalize(s));
    forall i | s != "" && LastWriter(es, Normalize(s), i)
      ensures Resolve(Load(es), s) == Some(es[i].token.value.n)
    {
      LoadIntoLast(map[], es, Normalize(s), i);
    }
  }
}
