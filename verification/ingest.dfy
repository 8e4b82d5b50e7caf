/** The ingestion pipeline: one spreadsheet row at a time, resolve the
    instrument, build the place-order request, call the broker, record the
    order and, for a BUY with a stop-loss price, start watching it. */
module Ingest {
  import opened Wrappers
  import opened Text
  import opened OrderedMap
  import opened Orders
  import Registry

  /** A numeric cell: column missing, a value the conversion accepts, or a
      present value that `int()` / `float()` rejects (and so raises). */
  datatype Cell<T> = Absent | Given(value: T) | Malformed

  /** One spreadsheet row after column-name normalisation. */
  datatype Row = Row(
    symbol: Option<string>,
    token: Cell<Token>,
    transactionType: Option<string>,
    quantity: Cell<int>,
    price: Cell<Price>,
    orderType: Option<string>,
    product: Option<string>,
    validity: Option<string>,
    tag: Option<string>,
    disclosedQuantity: Cell<int>,
    triggerPrice: Cell<Price>,
    isAmo: Option<bool>,
    stopLoss: Cell<Price>)

  /** The two clock readings taken while a row is recorded: whole epoch
      seconds for the fallback id and an ISO timestamp for the record. */
  datatype Clock = Clock(seconds: nat, iso: string)

  /** What one row does to the store. */
  datatype RowOutcome =
    | Skipped
    | Placed(id: OrderId, record: OrderRecord, watch: Option<Watch>)

  /** Python truthiness of the token cell: a missing cell and zero are false. */
  predicate Truthy(c: Cell<Token>) {
    c.Malformed? || (c.Given? && c.value != 0)
  }

  /** The cell converted, its default when missing, `None` when conversion raises. */
  function Convert<T>(c: Cell<T>, default: T): Option<T> {
    match c
    case Absent => Some(default)
    case Given(v) => Some(v)
    case Malformed => None
  }

  /** The instrument token a row is placed under, before `int()` is applied:
      the explicit one when truthy, otherwise the symbol's registry entry. */
  function ChooseToken(reg: Registry.Mapping, row: Row): (r: Cell<Token>)
    ensures Truthy(row.token) ==> r == row.token
    ensures !Truthy(row.token) && row.symbol.GetOr("") != "" ==>
              r == (if Registry.Resolve(reg, row.symbol.value).Some?
                    then Given(Registry.Resolve(reg, row.symbol.value).value) else Absent)
    ensures !Truthy(row.token) && row.symbol.GetOr("") == "" ==> r == row.token
  {
    var symbol := row.symbol.GetOr("");
    if !Truthy(row.token) && symbol != "" then
      match Registry.Resolve(reg, symbol)
      case Some(n) => Given(n)
      case None => Absent
    else row.token
  }

  /** The place-order request for a row, with the field defaults applied;
      `None` when the row is skipped before the broker is called (no usable
      token, or a conversion that raises). */
  function BuildPayload(reg: Registry.Mapping, row: Row): (r: Option<Payload>)
    // a request is built iff the token is usable and every numeric cell converts
    ensures r.Some? <==> && ChooseToken(reg, row).Given? && ChooseToken(reg, row).value != 0
                         && !row.quantity.Malformed? && !row.price.Malformed?
                         && !row.disclosedQuantity.Malformed? && !row.triggerPrice.Malformed?
    ensures r.Some? ==> r.value.token == ChooseToken(reg, row).value
    // given cells are carried over, missing ones take the documented defaults
    ensures r.Some? ==> r.value.quantity == (if row.quantity.Given? then row.quantity.value else 1)
    ensures r.Some? ==> r.value.price == (if row.price.Given? then row.price.value else 0)
    ensures r.Some? ==> r.value.disclosedQuantity ==
                          (if row.disclosedQuantity.Given? then row.disclosedQuantity.value else 0)
    ensures r.Some? ==> r.value.triggerPrice ==
                          (if row.triggerPrice.Given? then row.triggerPrice.value else 0)
    ensures r.Some? ==> r.value.isAmo == row.isAmo.GetOr(false)
    // the three code columns are upper-cased, the free-text ones pass through
    ensures r.Some? ==> r.value.transactionType == Upper(row.transactionType.GetOr("BUY"))
    ensures r.Some? ==> r.value.orderType == Upper(row.orderType.GetOr("MARKET"))
    ensures r.Some? ==> r.value.product == Upper(row.product.GetOr("I"))
    ensures r.Some? ==> r.value.validity == row.validity.GetOr("DAY")
    ensures r.Some? ==> r.value.tag == row.tag.GetOr("excel-order")
    ensures r.Some? && row.transactionType.None? ==> r.value.transactionType == "BUY"
    ensures r.Some? && row.orderType.None? ==> r.value.orderType == "MARKET"
    ensures r.Some? && row.product.None? ==> r.value.product == "I"
  {
    assert Upper("BUY") == "BUY" && Upper("MARKET") == "MARKET" && Upper("I") == "I";
    var token := ChooseToken(reg, row);
    var quantity := Convert(row.quantity, 1);
    var price := Convert(row.price, 0);
    var disclosed := Convert(row.disclosedQuantity, 0);
    var trigger := Convert(row.triggerPrice, 0);
    if !token.Given? || token.value == 0 || quantity.None? || price.None?
       || disclosed.None? || trigger.None?
    then None
    else Some(Payload(
      quantity := quantity.value,
      product := Upper(row.product.GetOr("I")),
      validity := row.validity.GetOr("DAY"),
      price := price.value,
      tag := row.tag.GetOr("excel-order"),
      token := token.value,
      orderType := Upper(row.orderType.GetOr("MARKET")),
      transactionType := Upper(row.transactionType.GetOr("BUY")),
      disclosedQuantity := disclosed.value,
      triggerPrice := trigger.value,
      isAmo := row.isAmo.GetOr(false)))
  }

  /** The locally made order id `manual-<seconds>-<index>`. */
  function FallbackId(seconds: nat, index: nat): (id: OrderId)
    ensures |id| > 7 && id[..7] == "manual-"
  {
    "manual-" + NatToString(seconds) + "-" + NatToString(index)
  }

  /** The id a placed row is recorded under: the broker's `data.order_id`
      when the response carries one, otherwise the fallback id. */
  function RowId(reply: Reply, clock: Clock, index: nat): OrderId {
    reply.orderId.GetOr(FallbackId(clock.seconds, index))
  }

  /** What row `index` does, given the broker's answer `place(index, payload)`
      (`None`: the call failed or its response was not JSON, which raises). */
  function Outcome(reg: Registry.Mapping, row: Row, index: nat, credential: string,
                   clock: Clock, place: (nat, Payload) -> Option<Reply>): RowOutcome
  {
    match BuildPayload(reg, row)
    case None => Skipped
    case Some(p) =>
      match place(index, p)
      case None => Skipped
      case Some(reply) =>
        var id := RowId(reply, clock, index);
        var symbol := row.symbol.GetOr("");
        var record := OrderRecord(symbol, p.token, p.transactionType, p.quantity, p.price,
                                  p.orderType, p.product, clock.iso, StatusPlaced, reply, credential);
        var watch :=
          if p.transactionType == "BUY" && row.stopLoss.Given?
          then Some(Watch(symbol, p.token, p.quantity, p.product, row.stopLoss.value, p.price, credential))
          else None;
        Placed(id, record, watch)
  }

  /** Writes a row's outcome into the store. */
  function Apply(s: Store, o: RowOutcome): (r: Store)
    requires Valid(s.watches)
    ensures Valid(r.watches)
  {
    match o
    case Skipped => s
    case Placed(id, record, watch) =>
      Store(s.orders[id := record],
            if watch.Some? then Put(s.watches, id, watch.value) else s.watches)
  }

  /** One iteration of the row loop. */
  function IngestRow(s: Store, reg: Registry.Mapping, row: Row, index: nat, credential: string,
                     clock: Clock, place: (nat, Payload) -> Option<Reply>): (r: Store)
    requires Valid(s.watches)
    ensures Valid(r.watches)
    ensures Inv(s) ==> Inv(r)
    // a row that never reaches the broker, or whose call fails, changes nothing
    ensures BuildPayload(reg, row).None? ==> r == s
    ensures BuildPayload(reg, row).Some? && place(index, BuildPayload(reg, row).value).None? ==> r == s
    // otherwise exactly one order record is written, under the broker's id or the fallback id
    ensures BuildPayload(reg, row).Some? && place(index, BuildPayload(reg, row).value).Some? ==>
              var p := BuildPayload(reg, row).value;
              var reply := place(index, p).value;
              var id := RowId(reply, clock, index);
              && r.orders.Keys == s.orders.Keys + {id}
              && (forall k :: k in s.orders && k != id ==> r.orders[k] == s.orders[k])
              && r.orders[id].status == StatusPlaced
              && r.orders[id].token == p.token
              && r.orders[id].quantity == p.quantity
              && r.orders[id].price == p.price
              && r.orders[id].orderType == p.orderType
              && r.orders[id].product == p.product
              && r.orders[id].credential == credential
              // a watch is written iff the order is a BUY with a convertible stop-loss price
              && (if p.transactionType == "BUY" && row.stopLoss.Given?
                  then && r.watches.entries.Keys == s.watches.entries.Keys + {id}
                       && r.watches.entries[id] ==
                            Watch(row.symbol.GetOr(""), p.token, p.quantity, p.product,
                                  row.stopLoss.value, p.price, credential)
                       && (forall k :: k in s.watches.entries && k != id ==>
                             r.watches.entries[k] == s.watches.entries[k])
                  else r.watches == s.watches)
  {
    Apply(s, Outcome(reg, row, index, credential, clock, place))
  }

  /** The loop of `process_excel_file` over rows `0 .. |rows| - 1`; `clocks(i)`
      is the clock read while row `i` is recorded. */
  function IngestBatch(s: Store, reg: Registry.Mapping, rows: seq<Row>, credential: string,
                       clocks: nat -> Clock, place: (nat, Payload) -> Option<Reply>): (r: Store)
    requires Valid(s.watches)
    ensures Valid(r.watches)
    // rows only add or overwrite: no record and no watch is ever removed
    ensures s.orders.Keys <= r.orders.Keys
    ensures s.watches.entries.Keys <= r.watches.entries.Keys
    decreases |rows|
  {
    if rows == [] then s
    else
      var n := |rows| - 1;
      Apply(IngestBatch(s, reg, rows[..n], credential, clocks, place),
            Outcome(reg, rows[n], n, credential, clocks(n), place))
  }

  /** Fallback ids never collide: the id determines both the clock reading
      and the row index. */
  lemma FallbackIdInjective(t1: nat, i1: nat, t2: nat, i2: nat)
    requires FallbackId(t1, i1) == FallbackId(t2, i2)
    ensures t1 == t2 && i1 == i2
  {
    var a, b := NatToString(t1), NatToString(i1);
    var c, d := NatToString(t2), NatToString(i2);
    var prefix := "manual-";
    assert FallbackId(t1, i1) == prefix + (a + "-" + b);
    assert FallbackId(t2, i2) == prefix + (c + "-" + d);
    assert a + "-" + b == c + "-" + d by {
      assert (prefix + (a + "-" + b))[|prefix|..] == a + "-" + b;
      assert (prefix + (c + "-" + d))[|prefix|..] == c + "-" + d;
    }
    SplitAtDash(a, b, c, d);
    NatToStringInjective(t1, t2);
    NatToStringInjective(i1, i2);
  }

  /** `a-b` with a digit-only `a` splits at its first dash. */
  lemma SplitAtDash(a: string, b: string, c: string, d: string)
    requires AllDigits(a) && AllDigits(c)
    requires a + "-" + b == c + "-" + d
    ensures a == c && b == d
  {
    var x := a + "-" + b;
    assert x == c + "-" + d;
    if |a| < |c| {
      CharBeforeDash(c, d, |a|);
      DashAfter(a, b);
      assert false;
    } else if |c| < |a| {
      CharBeforeDash(a, b, |c|);
      DashAfter(c, d);
      assert false;
    }
    assert a == x[..|a|] == c;
    assert b == x[|a| + 1..] == d;
  }

  lemma CharBeforeDash(u: string, v: string, k: nat)
    requires k < |u|
    ensures (u + "-" + v)[k] == u[k]
  {
  }

  lemma DashAfter(u: string, v: string)
    ensures (u + "-" + v)[|u|] == '-'
  {
  }

  /** Rows of one batch that fall back to a local id get distinct ids. */
  lemma FallbackIdsDistinctInBatch(clocks: nat -> Clock, i: nat, j: nat)
    requires i != j
    ensures FallbackId(clocks(i).seconds, i) != FallbackId(clocks(j).seconds, j)
  {
    if FallbackId(clocks(i).seconds, i) == FallbackId(clocks(j).seconds, j) {
      FallbackIdInjective(clocks(i).seconds, i, clocks(j).seconds, j);
    }
  }

  /** A truthy explicit token is used as it is: the registry is never consulted. */
  lemma ExplicitTokenWins(reg1: Registry.Mapping, reg2: Registry.Mapping, row: Row)
    requires Truthy(row.token)
    ensures BuildPayload(reg1, row) == BuildPayload(reg2, row)
    ensures BuildPayload(reg1, row).Some? ==> row.token == Given(BuildPayload(reg1, row).value.token)
  {
  }

  /** Without a usable explicit token, the symbol is resolved against the
      loaded registry: the row is placed under the token of the last instrument
      entry for that symbol, whatever its spelling. */
  lemma SymbolResolvesThroughRegistry(es: seq<Registry.Entry>, row: Row, i: int)
    requires !Truthy(row.token) && row.symbol.Some? && row.symbol.value != ""
    requires Registry.LastWriter(es, Normalize(row.symbol.value), i)
    ensures ChooseToken(Registry.Load(es), row) == Given(es[i].token.value.n)
    ensures BuildPayload(Registry.Load(es), row).Some? ==>
              BuildPayload(Registry.Load(es), row).value.token == es[i].token.value.n
  {
    Registry.ResolveAfterLoad(es, row.symbol.value);
  }

  /** A row with no usable explicit token and a symbol the registry does not
      know is skipped: neither orders nor watches change. */
  lemma UnresolvedRowSkipped(s: Store, es: seq<Registry.Entry>, row: Row, index: nat,
                             credential: string, clock: Clock, place: (nat, Payload) -> Option<Reply>)
    requires Valid(s.watches)
    requires !Truthy(row.token)
    requires row.symbol.GetOr("") == "" || !Registry.HasWriter(es, Normalize(row.symbol.value))
    ensures BuildPayload(Registry.Load(es), row) == None
    ensures IngestRow(s, Registry.Load(es), row, index, credential, clock, place) == s
  {
    if row.symbol.GetOr("") != "" {
      Registry.ResolveAfterLoad(es, row.symbol.value);
    }
  }

  lemma ApplyOrderKeys(s: Store, o: RowOutcome)
    requires Valid(s.watches)
    ensures Apply(s, o).orders.Keys == s.orders.Keys + (if o.Placed? then {o.id} else {})
  {
  }

  /** The ids the rows of a batch are recorded under. */
  ghost function PlacedIds(reg: Registry.Mapping, rows: seq<Row>, credential: string,
                           clocks: nat -> Clock, place: (nat, Payload) -> Option<Reply>): set<OrderId>
  {
    set i | 0 <= i < |rows| && Outcome(reg, rows[i], i, credential, clocks(i), place).Placed?
      :: Outcome(reg, rows[i], i, credential, clocks(i), place).id
  }

  lemma PlacedIdsStep(reg: Registry.Mapping, rows: seq<Row>, credential: string,
                      clocks: nat -> Clock, place: (nat, Payload) -> Option<Reply>)
    requires rows != []
    ensures var n := |rows| - 1;
            var o := Outcome(reg, rows[n], n, credential, clocks(n), place);
            PlacedIds(reg, rows, credential, clocks, place)
            == PlacedIds(reg, rows[..n], credential, clocks, place) + (if o.Placed? then {o.id} else {})
  {
    var n := |rows| - 1;
    assert forall i :: 0 <= i < n ==> rows[..n][i] == rows[i];
  }

  /** Rows are independent: after a batch, there is a record for the id of
      every row that was placed, whatever happened to the other rows, and no
      other new record. */
  lemma {:induction false} BatchRecordsEveryPlacedRow(
    s: Store, reg: Registry.Mapping, rows: seq<Row>, credential: string,
    clocks: nat -> Clock, place: (nat, Payload) -> Option<Reply>)
    requires Valid(s.watches)
    ensures IngestBatch(s, reg, rows, credential, clocks, place).orders.Keys
            == s.orders.Keys + PlacedIds(reg, rows, credential, clocks, place)
    decreases |rows|
  {
    if rows != [] {
      var n := |rows| - 1;
      var init := rows[..n];
      BatchRecordsEveryPlacedRow(s, reg, init, credential, clocks, place);
      var o := Outcome(reg, rows[n], n, credential, clocks(n), place);
      PlacedIdsStep(reg, rows, credential, clocks, place);
      var prev := IngestBatch(s, reg, init, credential, clocks, place);
      ApplyOrderKeys(prev, o);
    }
  }

  /** The record under an id is the one written by the last row placed under
      that id: a later row with another id, or a skipped row, leaves it alone. */
  lemma {:induction false} BatchKeepsLastRecord(
    s: Store, reg: Registry.Mapping, rows: seq<Row>, credential: string,
    clocks: nat -> Clock, place: (nat, Payload) -> Option<Reply>, i: nat)
    requires Valid(s.watches)
    requires i < |rows|
    requires Outcome(reg, rows[i], i, credential, clocks(i), place).Placed?
    requires forall j :: i < j < |rows| ==>
               var o := Outcome(reg, rows[j], j, credential, clocks(j), place);
               !(o.Placed? && o.id == Outcome(reg, rows[i], i, credential, clocks(i), place).id)
    ensures var o := Outcome(reg, rows[i], i, credential, clocks(i), place);
            var r := IngestBatch(s, reg, rows, credential, clocks, place);
            o.id in r.orders && r.orders[o.id] == o.record
    decreases |rows|
  {
    var n := |rows| - 1;
    var init := rows[..n];
    if i < n {
      assert init[i] == rows[i];
      forall j | i < j < |init|
        ensures var o := Outcome(reg, init[j], j, credential, clocks(j), place);
                !(o.Placed? && o.id == Outcome(reg, rows[i], i, credential, clocks(i), place).id)
      {
        assert init[j] == rows[j];
      }
      BatchKeepsLastRecord(s, reg, init, credential, clocks, place, i);
    }
  }

  /** The ids that get a stop-loss watch in a batch. */
  ghost function WatchedIds(reg: Registry.Mapping, rows: seq<Row>, credential: string,
                            clocks: nat -> Clock, place: (nat, Payload) -> Option<Reply>): set<OrderId>
  {
    set i | 0 <= i < |rows| && Outcome(reg, rows[i], i, credential, clocks(i), place).Placed?
                            && Outcome(reg, rows[i], i, credential, clocks(i), place).watch.Some?
      :: Outcome(reg, rows[i], i, credential, clocks(i), place).id
  }

  lemma WatchedIdsStep(reg: Registry.Mapping, rows: seq<Row>, credential: string,
                       clocks: nat -> Clock, place: (nat, Payload) -> Option<Reply>)
    requires rows != []
    ensures var n := |rows| - 1;
            var o := Outcome(reg, rows[n], n, credential, clocks(n), place);
            WatchedIds(reg, rows, credential, clocks, place)
            == WatchedIds(reg, rows[..n], credential, clocks, place)
               + (if o.Placed? && o.watch.Some? then {o.id} else {})
  {
    var n := |rows| - 1;
    assert forall i :: 0 <= i < n ==> rows[..n][i] == rows[i];
  }

  /** After a batch, the new watches are exactly those of the placed BUY rows
      that carried a stop-loss price; existing watches stay. */
  lemma {:induction false} BatchWatchesOnlyPlacedBuys(
    s: Store, reg: Registry.Mapping, rows: seq<Row>, credential: string,
    clocks: nat -> Clock, place: (nat, Payload) -> Option<Reply>)
    requires Valid(s.watches)
    ensures IngestBatch(s, reg, rows, credential, clocks, place).watches.entries.Keys
            == s.watches.entries.Keys + WatchedIds(reg, rows, credential, clocks, place)
    decreases |rows|
  {
    if rows != [] {
      var n := |rows| - 1;
      var init := rows[..n];
      BatchWatchesOnlyPlacedBuys(s, reg, init, credential, clocks, place);
      WatchedIdsStep(reg, rows, credential, clocks, place);
    }
  }

  /** A batch keeps the store invariant. */
  lemma {:induction false} BatchKeepsInv(
    s: Store, reg: Registry.Mapping, rows: seq<Row>, credential: string,
    clocks: nat -> Clock, place: (nat, Payload) -> Option<Reply>)
    requires Inv(s)
    ensures Inv(IngestBatch(s, reg, rows, credential, clocks, place))
    decreases |rows|
  {
    if rows != [] {
      var n := |rows| - 1;
      BatchKeepsInv(s, reg, rows[..n], credential, clocks, place);
      var prev := IngestBatch(s, reg, rows[..n], credential, clocks, place);
      assert IngestBatch(s, reg, rows, credential, clocks, place)
             == IngestRow(prev, reg, rows[n], n, credential, clocks(n), place);
    }
  }
}
