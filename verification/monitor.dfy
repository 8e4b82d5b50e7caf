/** The stop-loss monitor: one pass of the periodic job. It groups the watches
    by instrument, asks the broker for one last price per instrument, and for
    every watch whose stop-loss price has been reached places a MARKET SELL and
    deletes the watch. */
module Monitor {
  import opened Wrappers
  import opened OrderedMap
  import opened Orders

  /** Instrument token -> ids of the watches on it, in first-seen order. */
  type Groups = Dict<Token, seq<OrderId>>

  /** One liquidation attempt: the sell request sent for watch `id` and the
      execution data the job attaches to the watch (the price it saw and the
      parsed response, `None` when the call failed or did not parse). */
  datatype SellCall = SellCall(
    id: OrderId,
    payload: Payload,
    credential: string,
    price: Price,
    response: Option<Reply>)

  /** The watches left after (part of) a pass, the tokens whose price was
      requested, and the sell requests sent, all in order. */
  datatype PassResult = PassResult(
    watches: Dict<OrderId, Watch>,
    lookups: seq<Token>,
    sells: seq<SellCall>)

  /** The trigger test `stop_loss_price and current_price <= stop_loss_price`:
      a zero stop-loss price is false in Python and never fires. */
  predicate Triggered(w: Watch, price: Price): (fires: bool)
    ensures w.stopLoss == 0 ==> !fires
    ensures fires ==> price <= w.stopLoss
  {
    w.stopLoss != 0 && price <= w.stopLoss
  }

  /** A price that fires a watch keeps firing it at every lower price, and a
      watch with a non-zero stop-loss fires at its own stop-loss price. */
  lemma TriggeredMonotone(w: Watch, p: Price, q: Price)
    ensures Triggered(w, p) && q <= p ==> Triggered(w, q)
    ensures w.stopLoss != 0 ==> Triggered(w, w.stopLoss)
  {
  }

  /** An order that sells at market, with no limit or trigger price. */
  predicate IsMarketSell(p: Payload) {
    p.orderType == "MARKET" && p.transactionType == "SELL" && p.price == 0 && p.triggerPrice == 0
  }

  /** The liquidating order for a watch: a day MARKET SELL of the watched
      position, tagged as a stop-loss order. */
  function SellPayload(w: Watch): (p: Payload)
    ensures IsMarketSell(p)
    ensures p.token == w.token && p.quantity == w.quantity && p.product == w.product
    ensures p.validity == "DAY" && p.tag == "stop-loss-order" && !p.isAmo && p.disclosedQuantity == 0
  {
    Payload(
      quantity := w.quantity,
      product := w.product,
      validity := "DAY",
      price := 0,
      tag := "stop-loss-order",
      token := w.token,
      orderType := "MARKET",
      transactionType := "SELL",
      disclosedQuantity := 0,
      triggerPrice := 0,
      isAmo := false)
  }

  /** The ids grouped under `t` so far. */
  function GroupOf(g: map<Token, seq<OrderId>>, t: Token): seq<OrderId> {
    if t in g then g[t] else []
  }

  /** The grouping loop over the watches in dict order: every watch with a
      non-zero token is appended to its token's group. */
  function GroupByToken(keys: seq<OrderId>, w: map<OrderId, Watch>): (g: Groups)
    requires forall k :: k in keys ==> k in w
    ensures Valid(g)
    decreases |keys|
  {
    if keys == [] then Empty()
    else
      var n := |keys| - 1;
      var init, id := keys[..n], keys[n];
      assert forall k :: k in init ==> k in keys;
      var g := GroupByToken(init, w);
      var t := w[id].token;
      if t == 0 then g else Put(g, t, GroupOf(g.entries, t) + [id])
  }

  /** `g` groups the watches `keys` of `w` by token: every grouped id is a
      watch on its group's token, every watch with a non-zero token is in its
      token's group, and each group is non-empty and keyed by a non-zero token. */
  ghost predicate Grouped(keys: seq<OrderId>, w: map<OrderId, Watch>, g: map<Token, seq<OrderId>>)
    requires forall k :: k in keys ==> k in w
  {
    && (forall t, id :: t in g && id in g[t] ==> id in keys && w[id].token == t)
    && (forall id :: id in keys && w[id].token != 0 ==> id in GroupOf(g, w[id].token))
    && (forall t :: t in g ==> t != 0 && g[t] != [])
  }

  /** The grouping loop groups the watches by token. */
  lemma {:induction false} GroupByTokenSpec(keys: seq<OrderId>, w: map<OrderId, Watch>)
    requires forall k :: k in keys ==> k in w
    ensures Grouped(keys, w, GroupByToken(keys, w).entries)
    decreases |keys|
  {
    if keys != [] {
      var n := |keys| - 1;
      var init, id := keys[..n], keys[n];
      assert keys == init + [id];
      assert forall k :: k in init ==> k in keys;
      GroupByTokenSpec(init, w);
      var g := GroupByToken(init, w);
      var t := w[id].token;
      if t == 0 {
        assert GroupByToken(keys, w) == g;
        GroupSkip(init, id, w, g.entries);
      } else {
        var r := Put(g, t, GroupOf(g.entries, t) + [id]);
        assert GroupByToken(keys, w) == r;
        GroupFile(init, id, w, g.entries, r.entries);
      }
    }
  }

  /** Passing over a watch without a token keeps the groups as they are. */
  lemma GroupSkip(init: seq<OrderId>, id: OrderId, w: map<OrderId, Watch>, g: map<Token, seq<OrderId>>)
    requires id in w && w[id].token == 0 && forall k :: k in init ==> k in w
    requires Grouped(init, w, g)
    ensures Grouped(init + [id], w, g)
  {
  }

  /** Filing watch `id` under its token groups the longer list. */
  lemma GroupFile(init: seq<OrderId>, id: OrderId, w: map<OrderId, Watch>,
                  g: map<Token, seq<OrderId>>, r: map<Token, seq<OrderId>>)
    requires id in w && w[id].token != 0 && forall k :: k in init ==> k in w
    requires Grouped(init, w, g)
    requires r == g[w[id].token := GroupOf(g, w[id].token) + [id]]
    ensures Grouped(init + [id], w, r)
  {
  }

  /** Grouping watches listed without repeats lists each group without repeats. */
  lemma {:induction false} GroupsDistinct(keys: seq<OrderId>, w: map<OrderId, Watch>)
    requires forall k :: k in keys ==> k in w
    requires Distinct(keys)
    ensures forall t :: t in GroupByToken(keys, w).entries ==> Distinct(GroupByToken(keys, w).entries[t])
    decreases |keys|
  {
    if keys != [] {
      var n := |keys| - 1;
      var id := keys[n];
      assert forall k :: k in keys[..n] ==> k in keys;
      DistinctInit(keys);
      GroupsDistinct(keys[..n], w);
      GroupByTokenSpec(keys[..n], w);
      var g := GroupByToken(keys[..n], w).entries;
      if w[id].token != 0 {
        var r := g[w[id].token := GroupOf(g, w[id].token) + [id]];
        assert GroupByToken(keys, w).entries == r;
        assert id !in GroupOf(g, w[id].token);
        GroupDistinct(g, id, w[id].token, r);
      } else {
        assert GroupByToken(keys, w) == GroupByToken(keys[..n], w);
      }
    }
  }

  /** Filing a watch its group does not hold yet keeps the groups free of repeats. */
  lemma GroupDistinct(g: map<Token, seq<OrderId>>, id: OrderId, t: Token, r: map<Token, seq<OrderId>>)
    requires id !in GroupOf(g, t)
    requires forall u :: u in g ==> Distinct(g[u])
    requires r == g[t := GroupOf(g, t) + [id]]
    ensures forall u :: u in r ==> Distinct(r[u])
  {
    DistinctConcat(GroupOf(g, t), [id]);
  }

  /** The inner loop over one group at last price `p`. An id no longer in the
      dict makes `stop_loss_orders[order_id]` raise, which ends the group. A
      triggered watch is sold with its own credential and deleted as soon as
      the response parses, whatever the broker answered. */
  function SellGroup(ids: seq<OrderId>, cur: Dict<OrderId, Watch>, p: Price,
                     sell: (OrderId, Payload, string) -> Option<Reply>): (r: PassResult)
    requires Valid(cur)
    ensures Valid(r.watches) && r.lookups == []
    ensures r.watches.entries.Keys <= cur.entries.Keys
    ensures forall id :: id in r.watches.entries ==> r.watches.entries[id] == cur.entries[id]
    decreases |ids|
  {
    if ids == [] || ids[0] !in cur.entries then PassResult(cur, [], [])
    else
      var id := ids[0];
      var w := cur.entries[id];
      if Triggered(w, p) then
        var payload := SellPayload(w);
        var response := sell(id, payload, w.credential);
        var next := if response.Some? then Remove(cur, id) else cur;
        var rest := SellGroup(ids[1..], next, p, sell);
        PassResult(rest.watches, [], [SellCall(id, payload, w.credential, p, response)] + rest.sells)
      else SellGroup(ids[1..], cur, p, sell)
  }

  /** The outer loop over the groups: one price lookup per token, with the
      monitor's single credential; a failed lookup skips the group. */
  function SellGroups(tokens: seq<Token>, g: map<Token, seq<OrderId>>, cur: Dict<OrderId, Watch>,
                      price: (Token, string) -> Option<Price>, credential: string,
                      sell: (OrderId, Payload, string) -> Option<Reply>): (r: PassResult)
    requires Valid(cur)
    ensures Valid(r.watches) && r.lookups == tokens
    ensures r.watches.entries.Keys <= cur.entries.Keys
    ensures forall id :: id in r.watches.entries ==> r.watches.entries[id] == cur.entries[id]
    decreases |tokens|
  {
    if tokens == [] then PassResult(cur, [], [])
    else
      var t := tokens[0];
      match price(t, credential)
      case None =>
        var rest := SellGroups(tokens[1..], g, cur, price, credential, sell);
        PassResult(rest.watches, [t] + rest.lookups, rest.sells)
      case Some(p) =>
        var done := SellGroup(GroupOf(g, t), cur, p, sell);
        var rest := SellGroups(tokens[1..], g, done.watches, price, credential, sell);
        PassResult(rest.watches, [t] + rest.lookups, done.sells + rest.sells)
  }

  /** The credential of the first watch in dict order; the pass uses it for
      every price lookup. */
  function FirstCredential(w: Dict<OrderId, Watch>): string
    requires Valid(w) && w.keys != []
  {
    w.entries[w.keys[0]].credential
  }

  /** Arming a watch under any id but the first one's leaves the credential
      the monitor uses unchanged. */
  lemma FirstCredentialKept(w: Dict<OrderId, Watch>, id: OrderId, x: Watch)
    requires Valid(w) && w.keys != [] && id != w.keys[0]
    ensures FirstCredential(Put(w, id, x)) == FirstCredential(w)
  {
    PutKeepsFirst(w, id, x);
  }

  /** A pass does anything at all: there is a watch and the first one has a
      non-empty credential. */
  predicate Active(w: Dict<OrderId, Watch>)
    requires Valid(w)
  {
    w.keys != [] && FirstCredential(w) != ""
  }

  /** `check_stop_losses` */
  function CheckStopLosses(w: Dict<OrderId, Watch>,
                           price: (Token, string) -> Option<Price>,
                           sell: (OrderId, Payload, string) -> Option<Reply>): (r: PassResult)
    requires Valid(w)
    ensures Valid(r.watches)
    ensures !Active(w) ==> r == PassResult(w, [], [])
    // a pass only deletes watches; it never adds or edits one
    ensures r.watches.entries.Keys <= w.entries.Keys
    ensures forall id :: id in r.watches.entries ==> r.watches.entries[id] == w.entries[id]
  {
    if !Active(w) then PassResult(w, [], [])
    else
      var credential := FirstCredential(w);
      var g := GroupByToken(w.keys, w.entries);
      SellGroups(g.keys, g.entries, w, price, credential, sell)
  }

  /** One run of the scheduled job on the store: only the watches change. */
  function MonitorStep(s: Store, price: (Token, string) -> Option<Price>,
                       sell: (OrderId, Payload, string) -> Option<Reply>): (r: Store)
    requires Valid(s.watches)
    ensures r.orders == s.orders
    ensures r.watches.entries.Keys <= s.watches.entries.Keys
    ensures Inv(s) ==> Inv(r)
  {
    Store(s.orders, CheckStopLosses(s.watches, price, sell).watches)
  }

  // What a pass does, stated watch by watch

  /** The ids of a run of sell calls, in order. */
  function SellIds(calls: seq<SellCall>): (r: seq<OrderId>)
    ensures |r| == |calls|
  {
    if calls == [] then [] else [calls[0].id] + SellIds(calls[1..])
  }

  /** Watch `id` of `w0` is triggered at price `p`. */
  ghost predicate TriggeredAt(w0: map<OrderId, Watch>, id: OrderId, p: Price) {
    id in w0 && Triggered(w0[id], p)
  }

  /** Watch `id` of `w0` is triggered at price `p` and its sell response parses. */
  ghost predicate SoldAt(w0: map<OrderId, Watch>, id: OrderId, p: Price,
                         sell: (OrderId, Payload, string) -> Option<Reply>) {
    TriggeredAt(w0, id, p) && sell(id, SellPayload(w0[id]), w0[id].credential).Some?
  }

  /** The sell call the monitor makes for watch `id` at price `p`. */
  ghost function CallFor(w0: map<OrderId, Watch>, id: OrderId, p: Price,
                         sell: (OrderId, Payload, string) -> Option<Reply>): SellCall
    requires id in w0
  {
    SellCall(id, SellPayload(w0[id]), w0[id].credential, p, sell(id, SellPayload(w0[id]), w0[id].credential))
  }

  /** What remains deleted after the first watch of a group is handled. */
  ghost function After(w0: map<OrderId, Watch>, R: set<OrderId>, id: OrderId, p: Price,
                       sell: (OrderId, Payload, string) -> Option<Reply>): set<OrderId>
  {
    if SoldAt(w0, id, p, sell) then R + {id} else R
  }

  /** The calls the first watch of a group makes. */
  ghost function FirstCalls(w0: map<OrderId, Watch>, id: OrderId, p: Price,
                            sell: (OrderId, Payload, string) -> Option<Reply>): seq<SellCall>
  {
    if TriggeredAt(w0, id, p) then [CallFor(w0, id, p, sell)] else []
  }

  /** One step of the inner loop, with the dict described as `w0` minus `R`. */
  lemma SellGroupStep(ids: seq<OrderId>, w0: Dict<OrderId, Watch>, R: set<OrderId>, p: Price,
                      sell: (OrderId, Payload, string) -> Option<Reply>)
    requires Valid(w0) && ids != [] && ids[0] in w0.entries && ids[0] !in R
    ensures var rest := SellGroup(ids[1..], RemoveAll(w0, After(w0.entries, R, ids[0], p, sell)), p, sell);
            SellGroup(ids, RemoveAll(w0, R), p, sell)
            == PassResult(rest.watches, [], FirstCalls(w0.entries, ids[0], p, sell) + rest.sells)
  {
    var cur := RemoveAll(w0, R);
    var id := ids[0];
    assert id in cur.entries && cur.entries[id] == w0.entries[id];
    if SoldAt(w0.entries, id, p, sell) {
      RemoveAllTwice(w0, R, {id});
    }
    if !TriggeredAt(w0.entries, id, p) {
      assert FirstCalls(w0.entries, id, p, sell) + SellGroup(ids[1..], cur, p, sell).sells
             == SellGroup(ids[1..], cur, p, sell).sells;
    }
  }

  /** One group deletes exactly the triggered watches whose sell response
      parsed. `R` is what earlier groups already deleted. */
  lemma {:induction false} SellGroupDeletes(ids: seq<OrderId>, w0: Dict<OrderId, Watch>, R: set<OrderId>, p: Price,
                                            sell: (OrderId, Payload, string) -> Option<Reply>)
    requires Valid(w0) && Distinct(ids)
    requires forall id :: id in ids ==> id in w0.entries && id !in R
    ensures SellGroup(ids, RemoveAll(w0, R), p, sell).watches == RemoveAll(w0, R + SoldIn(ids, w0.entries, p, sell))
    decreases |ids|
  {
    if ids == [] {
      assert R + SoldIn(ids, w0.entries, p, sell) == R;
    } else {
      var id, tail := ids[0], ids[1..];
      var R' := After(w0.entries, R, id, p, sell);
      SellGroupStep(ids, w0, R, p, sell);
      SellGroupHeadTail(ids, w0.entries, R, p, sell);
      SellGroupDeletes(tail, w0, R', p, sell);
      SoldInStep(ids, w0.entries, p, sell);
      assert R' + SoldIn(tail, w0.entries, p, sell) == R + SoldIn(ids, w0.entries, p, sell);
    }
  }

  /** The rest of a group meets the group lemmas' assumptions after the first
      watch is handled. */
  lemma SellGroupHeadTail(ids: seq<OrderId>, w0: map<OrderId, Watch>, R: set<OrderId>, p: Price,
                          sell: (OrderId, Payload, string) -> Option<Reply>)
    requires Distinct(ids) && ids != []
    requires forall id :: id in ids ==> id in w0 && id !in R
    ensures Distinct(ids[1..]) && ids[0] in w0 && ids[0] !in R
    ensures forall id :: id in ids[1..] ==> id in w0 && id !in After(w0, R, ids[0], p, sell) && id != ids[0]
  {
    assert forall x :: x in ids[1..] ==> x in ids && x != ids[0];
  }

  /** The ids of `ids` whose watch is sold at `p` and then deleted. */
  ghost function SoldIn(ids: seq<OrderId>, w0: map<OrderId, Watch>, p: Price,
                        sell: (OrderId, Payload, string) -> Option<Reply>): set<OrderId>
  {
    set id | id in ids && SoldAt(w0, id, p, sell)
  }

  lemma SoldInStep(ids: seq<OrderId>, w0: map<OrderId, Watch>, p: Price,
                   sell: (OrderId, Payload, string) -> Option<Reply>)
    requires ids != []
    ensures SoldIn(ids, w0, p, sell)
            == (if SoldAt(w0, ids[0], p, sell) then {ids[0]} else {}) + SoldIn(ids[1..], w0, p, sell)
  {
    assert forall x :: x in ids <==> x == ids[0] || x in ids[1..];
  }

  /** Every sell call of one group is for a triggered watch of the group and
      carries that watch's liquidating payload and credential. */
  lemma {:induction false} SellGroupCallsAreTriggered(
    ids: seq<OrderId>, w0: Dict<OrderId, Watch>, R: set<OrderId>, p: Price,
    sell: (OrderId, Payload, string) -> Option<Reply>)
    requires Valid(w0) && Distinct(ids)
    requires forall id :: id in ids ==> id in w0.entries && id !in R
    ensures forall c :: c in SellGroup(ids, RemoveAll(w0, R), p, sell).sells ==>
              c.id in ids && TriggeredAt(w0.entries, c.id, p) && c == CallFor(w0.entries, c.id, p, sell)
    decreases |ids|
  {
    if ids != [] {
      var id, tail := ids[0], ids[1..];
      var R' := After(w0.entries, R, id, p, sell);
      SellGroupStep(ids, w0, R, p, sell);
      SellGroupHeadTail(ids, w0.entries, R, p, sell);
      SellGroupCallsAreTriggered(tail, w0, R', p, sell);
      assert forall x :: x in tail ==> x in ids;
    }
  }

  /** One group sells every one of its triggered watches. */
  lemma {:induction false} SellGroupSellsAll(
    ids: seq<OrderId>, w0: Dict<OrderId, Watch>, R: set<OrderId>, p: Price,
    sell: (OrderId, Payload, string) -> Option<Reply>)
    requires Valid(w0) && Distinct(ids)
    requires forall id :: id in ids ==> id in w0.entries && id !in R
    ensures forall id :: id in ids && TriggeredAt(w0.entries, id, p) ==>
              id in SellIds(SellGroup(ids, RemoveAll(w0, R), p, sell).sells)
    decreases |ids|
  {
    if ids != [] {
      var id, tail := ids[0], ids[1..];
      var R' := After(w0.entries, R, id, p, sell);
      SellGroupStep(ids, w0, R, p, sell);
      SellGroupHeadTail(ids, w0.entries, R, p, sell);
      SellGroupSellsAll(tail, w0, R', p, sell);
      var first := FirstCalls(w0.entries, id, p, sell);
      var rest := SellGroup(tail, RemoveAll(w0, R'), p, sell);
      SellIdsAppend(first, rest.sells);
      assert TriggeredAt(w0.entries, id, p) ==> SellIds(first) == [id];
      assert forall x :: x in ids ==> x == id || x in tail;
    }
  }

  /** One group sells each watch at most once. */
  lemma {:induction false} SellGroupSellsOnce(
    ids: seq<OrderId>, w0: Dict<OrderId, Watch>, R: set<OrderId>, p: Price,
    sell: (OrderId, Payload, string) -> Option<Reply>)
    requires Valid(w0) && Distinct(ids)
    requires forall id :: id in ids ==> id in w0.entries && id !in R
    ensures Distinct(SellIds(SellGroup(ids, RemoveAll(w0, R), p, sell).sells))
    decreases |ids|
  {
    if ids != [] {
      var id, tail := ids[0], ids[1..];
      var R' := After(w0.entries, R, id, p, sell);
      SellGroupStep(ids, w0, R, p, sell);
      SellGroupHeadTail(ids, w0.entries, R, p, sell);
      SellGroupSellsOnce(tail, w0, R', p, sell);
      SellGroupCallsAreTriggered(tail, w0, R', p, sell);
      var first := FirstCalls(w0.entries, id, p, sell);
      var rest := SellGroup(tail, RemoveAll(w0, R'), p, sell);
      SellIdsAppend(first, rest.sells);
      SellIdsMember(rest.sells, id);
      assert SellIds(first) == if TriggeredAt(w0.entries, id, p) then [id] else [];
      DistinctConcat(SellIds(first), SellIds(rest.sells));
    }
  }

  /** The ids of joined runs of calls are the joined ids. */
  lemma {:induction false} SellIdsAppend(a: seq<SellCall>, b: seq<SellCall>)
    ensures SellIds(a + b) == SellIds(a) + SellIds(b)
    decreases |a|
  {
    if a != [] {
      SellIdsAppend(a[1..], b);
      assert (a + b)[0] == a[0];
      assert (a + b)[1..] == a[1..] + b;
      calc {
        SellIds(a + b);
        [a[0].id] + SellIds(a[1..] + b);
        [a[0].id] + (SellIds(a[1..]) + SellIds(b));
        ([a[0].id] + SellIds(a[1..])) + SellIds(b);
      }
    } else {
      assert a + b == b;
    }
  }

  // Across groups

  /** `tokens` are distinct, and each token's group lists distinct watches of
      `w0` on that token, none of them in `R`. */
  ghost predicate GroupsOver(tokens: seq<Token>, g: map<Token, seq<OrderId>>,
                             w0: map<OrderId, Watch>, R: set<OrderId>) {
    && Distinct(tokens)
    && forall t :: t in tokens ==>
         && Distinct(GroupOf(g, t))
         && forall id :: id in GroupOf(g, t) ==> id in w0 && w0[id].token == t && id !in R
  }

  /** Deleting watches of the first group keeps the other groups intact. */
  lemma GroupsOverStep(tokens: seq<Token>, g: map<Token, seq<OrderId>>,
                       w0: map<OrderId, Watch>, R: set<OrderId>, S: set<OrderId>)
    requires GroupsOver(tokens, g, w0, R) && tokens != []
    requires forall x :: x in S ==> x in GroupOf(g, tokens[0])
    ensures GroupsOver(tokens[1..], g, w0, R + S)
  {
    assert forall t :: t in tokens[1..] ==> t in tokens && t != tokens[0];
  }

  /** The watches a run over `tokens` deletes: for each token whose lookup
      answered, the sold watches of its group. */
  ghost function LiquidatedIn(tokens: seq<Token>, g: map<Token, seq<OrderId>>, w0: map<OrderId, Watch>,
                              price: (Token, string) -> Option<Price>, credential: string,
                              sell: (OrderId, Payload, string) -> Option<Reply>): set<OrderId>
    decreases |tokens|
  {
    if tokens == [] then {}
    else
      (match price(tokens[0], credential)
       case None => {}
       case Some(p) => SoldIn(GroupOf(g, tokens[0]), w0, p, sell))
      + LiquidatedIn(tokens[1..], g, w0, price, credential, sell)
  }

  /** A run over the groups deletes exactly the watches it liquidates. */
  lemma {:induction false} SellGroupsDeletes(
    tokens: seq<Token>, g: map<Token, seq<OrderId>>, w0: Dict<OrderId, Watch>, R: set<OrderId>,
    price: (Token, string) -> Option<Price>, credential: string,
    sell: (OrderId, Payload, string) -> Option<Reply>)
    requires Valid(w0) && GroupsOver(tokens, g, w0.entries, R)
    ensures SellGroups(tokens, g, RemoveAll(w0, R), price, credential, sell).watches
            == RemoveAll(w0, R + LiquidatedIn(tokens, g, w0.entries, price, credential, sell))
    decreases |tokens|
  {
    if tokens == [] {
      assert R + {} == R;
    } else {
      var t, tail := tokens[0], tokens[1..];
      var later := LiquidatedIn(tail, g, w0.entries, price, credential, sell);
      match price(t, credential)
      case None =>
        GroupsOverStep(tokens, g, w0.entries, R, {});
        assert R + {} == R;
        SellGroupsDeletes(tail, g, w0, R, price, credential, sell);
        assert LiquidatedIn(tokens, g, w0.entries, price, credential, sell) == later;
      case Some(p) =>
        var S := SoldIn(GroupOf(g, t), w0.entries, p, sell);
        SellGroupDeletes(GroupOf(g, t), w0, R, p, sell);
        GroupsOverStep(tokens, g, w0.entries, R, S);
        SellGroupsDeletes(tail, g, w0, R + S, price, credential, sell);
        assert LiquidatedIn(tokens, g, w0.entries, price, credential, sell) == S + later;
        assert R + S + later == R + (S + later);
    }
  }

  /** Which watches a run over the groups liquidates, watch by watch. */
  lemma {:induction false} LiquidatedInMember(
    tokens: seq<Token>, g: map<Token, seq<OrderId>>, w0: map<OrderId, Watch>,
    price: (Token, string) -> Option<Price>, credential: string,
    sell: (OrderId, Payload, string) -> Option<Reply>, id: OrderId)
    requires GroupsOver(tokens, g, w0, {})
    ensures id in LiquidatedIn(tokens, g, w0, price, credential, sell) <==>
              && id in w0 && w0[id].token in tokens && id in GroupOf(g, w0[id].token)
              && price(w0[id].token, credential).Some?
              && SoldAt(w0, id, price(w0[id].token, credential).value, sell)
    decreases |tokens|
  {
    if tokens != [] {
      var t, tail := tokens[0], tokens[1..];
      var none: set<OrderId> := {};
      GroupsOverStep(tokens, g, w0, none, none);
      assert none + none == none;
      LiquidatedInMember(tail, g, w0, price, credential, sell, id);
      assert t !in tail;
      assert forall x :: x in tokens <==> x == t || x in tail;
    }
  }

  lemma {:induction false} SellIdsMember(calls: seq<SellCall>, x: OrderId)
    ensures x in SellIds(calls) <==> exists c :: c in calls && c.id == x
    decreases |calls|
  {
    if calls != [] {
      SellIdsMember(calls[1..], x);
      assert forall c :: c in calls <==> c == calls[0] || c in calls[1..];
    }
  }

  /** Every sell call of a run over the groups is for a watch of one of its
      groups whose lookup answered with a price that triggers it, and
      carries that watch's liquidating payload and credential. */
  lemma {:induction false} SellGroupsCalls(
    tokens: seq<Token>, g: map<Token, seq<OrderId>>, w0: Dict<OrderId, Watch>, R: set<OrderId>,
    price: (Token, string) -> Option<Price>, credential: string,
    sell: (OrderId, Payload, string) -> Option<Reply>)
    requires Valid(w0) && GroupsOver(tokens, g, w0.entries, R)
    ensures forall c :: c in SellGroups(tokens, g, RemoveAll(w0, R), price, credential, sell).sells ==>
              && c.id in w0.entries && w0.entries[c.id].token in tokens
              && price(w0.entries[c.id].token, credential).Some?
              && TriggeredAt(w0.entries, c.id, price(w0.entries[c.id].token, credential).value)
              && c == CallFor(w0.entries, c.id, price(w0.entries[c.id].token, credential).value, sell)
    decreases |tokens|
  {
    if tokens != [] {
      var t, tail := tokens[0], tokens[1..];
      var cur := RemoveAll(w0, R);
      assert forall x :: x in tail ==> x in tokens;
      match price(t, credential)
      case None =>
        GroupsOverStep(tokens, g, w0.entries, R, {});
        assert R + {} == R;
        SellGroupsCalls(tail, g, w0, R, price, credential, sell);
        assert SellGroups(tokens, g, cur, price, credential, sell).sells
               == SellGroups(tail, g, cur, price, credential, sell).sells;
      case Some(p) =>
        var S := SoldIn(GroupOf(g, t), w0.entries, p, sell);
        var done := SellGroup(GroupOf(g, t), cur, p, sell);
        SellGroupDeletes(GroupOf(g, t), w0, R, p, sell);
        SellGroupCallsAreTriggered(GroupOf(g, t), w0, R, p, sell);
        GroupsOverStep(tokens, g, w0.entries, R, S);
        SellGroupsCalls(tail, g, w0, R + S, price, credential, sell);
        assert SellGroups(tokens, g, cur, price, credential, sell).sells
               == done.sells + SellGroups(tail, g, RemoveAll(w0, R + S), price, credential, sell).sells;
    }
  }

  /** A run over the groups sells every watch of its groups that the price
      looked up for the group triggers. */
  lemma {:induction false} SellGroupsSellsAll(
    tokens: seq<Token>, g: map<Token, seq<OrderId>>, w0: Dict<OrderId, Watch>, R: set<OrderId>,
    price: (Token, string) -> Option<Price>, credential: string,
    sell: (OrderId, Payload, string) -> Option<Reply>)
    requires Valid(w0) && GroupsOver(tokens, g, w0.entries, R)
    ensures forall t, id :: t in tokens && id in GroupOf(g, t) && price(t, credential).Some?
                            && TriggeredAt(w0.entries, id, price(t, credential).value) ==>
              id in SellIds(SellGroups(tokens, g, RemoveAll(w0, R), price, credential, sell).sells)
    decreases |tokens|
  {
    if tokens != [] {
      var t, tail := tokens[0], tokens[1..];
      var cur := RemoveAll(w0, R);
      assert forall x :: x in tokens <==> x == t || x in tail;
      match price(t, credential)
      case None =>
        GroupsOverStep(tokens, g, w0.entries, R, {});
        assert R + {} == R;
        SellGroupsSellsAll(tail, g, w0, R, price, credential, sell);
        assert SellGroups(tokens, g, cur, price, credential, sell).sells
               == SellGroups(tail, g, cur, price, credential, sell).sells;
      case Some(p) =>
        var S := SoldIn(GroupOf(g, t), w0.entries, p, sell);
        var done := SellGroup(GroupOf(g, t), cur, p, sell);
        SellGroupDeletes(GroupOf(g, t), w0, R, p, sell);
        SellGroupSellsAll(GroupOf(g, t), w0, R, p, sell);
        GroupsOverStep(tokens, g, w0.entries, R, S);
        SellGroupsSellsAll(tail, g, w0, R + S, price, credential, sell);
        var rest := SellGroups(tail, g, RemoveAll(w0, R + S), price, credential, sell);
        assert SellGroups(tokens, g, cur, price, credential, sell).sells == done.sells + rest.sells;
        SellIdsAppend(done.sells, rest.sells);
    }
  }

  /** A run over the groups sells each watch at most once. */
  lemma {:induction false} SellGroupsSellsOnce(
    tokens: seq<Token>, g: map<Token, seq<OrderId>>, w0: Dict<OrderId, Watch>, R: set<OrderId>,
    price: (Token, string) -> Option<Price>, credential: string,
    sell: (OrderId, Payload, string) -> Option<Reply>)
    requires Valid(w0) && GroupsOver(tokens, g, w0.entries, R)
    ensures Distinct(SellIds(SellGroups(tokens, g, RemoveAll(w0, R), price, credential, sell).sells))
    decreases |tokens|
  {
    if tokens != [] {
      var t, tail := tokens[0], tokens[1..];
      var cur := RemoveAll(w0, R);
      match price(t, credential)
      case None =>
        GroupsOverStep(tokens, g, w0.entries, R, {});
        assert R + {} == R;
        SellGroupsSellsOnce(tail, g, w0, R, price, credential, sell);
        assert SellGroups(tokens, g, cur, price, credential, sell).sells
               == SellGroups(tail, g, cur, price, credential, sell).sells;
      case Some(p) =>
        var S := SoldIn(GroupOf(g, t), w0.entries, p, sell);
        var done := SellGroup(GroupOf(g, t), cur, p, sell);
        SellGroupDeletes(GroupOf(g, t), w0, R, p, sell);
        SellGroupSellsOnce(GroupOf(g, t), w0, R, p, sell);
        SellGroupCallsAreTriggered(GroupOf(g, t), w0, R, p, sell);
        GroupsOverStep(tokens, g, w0.entries, R, S);
        SellGroupsSellsOnce(tail, g, w0, R + S, price, credential, sell);
        SellGroupsCalls(tail, g, w0, R + S, price, credential, sell);
        var rest := SellGroups(tail, g, RemoveAll(w0, R + S), price, credential, sell);
        assert SellGroups(tokens, g, cur, price, credential, sell).sells == done.sells + rest.sells;
        assert t !in tail;
        forall x | x in SellIds(done.sells)
          ensures x !in SellIds(rest.sells)
        {
          SellIdsMember(done.sells, x);
          SellIdsMember(rest.sells, x);
        }
        SellIdsAppend(done.sells, rest.sells);
        DistinctConcat(SellIds(done.sells), SellIds(rest.sells));
    }
  }

  // A whole pass

  /** In a pass whose lookups use `credential`, watch `id` of `w` fires: it
      has an instrument token, the lookup for that token answered, and the
      price is at or below its stop-loss. */
  ghost predicate Fires(w: map<OrderId, Watch>, id: OrderId,
                        price: (Token, string) -> Option<Price>, credential: string) {
    && id in w && w[id].token != 0
    && price(w[id].token, credential).Some?
    && Triggered(w[id], price(w[id].token, credential).value)
  }

  /** The watch fires and the broker's response to its sell parses. */
  ghost predicate Liquidates(w: map<OrderId, Watch>, id: OrderId,
                             price: (Token, string) -> Option<Price>, credential: string,
                             sell: (OrderId, Payload, string) -> Option<Reply>) {
    Fires(w, id, price, credential) && sell(id, SellPayload(w[id]), w[id].credential).Some?
  }

  /** The grouping of a pass meets what the group lemmas assume. */
  lemma GroupsOverPass(w: Dict<OrderId, Watch>)
    requires Valid(w)
    ensures var g := GroupByToken(w.keys, w.entries);
            GroupsOver(g.keys, g.entries, w.entries, {})
  {
    var g := GroupByToken(w.keys, w.entries);
    GroupByTokenSpec(w.keys, w.entries);
    GroupsDistinct(w.keys, w.entries);
    forall t | t in g.keys
      ensures Distinct(GroupOf(g.entries, t))
      ensures forall id :: id in GroupOf(g.entries, t) ==> id in w.entries && w.entries[id].token == t
    {
      assert GroupOf(g.entries, t) == g.entries[t];
      forall id | id in g.entries[t]
        ensures id in w.entries && w.entries[id].token == t
      {
        assert id in w.keys;
      }
    }
  }

  /** The tokens a pass looks up are the tokens of the watches' groups, so a
      watch fires in the pass exactly when the group run liquidates it. */
  lemma PassLiquidated(w: Dict<OrderId, Watch>,
                       price: (Token, string) -> Option<Price>,
                       sell: (OrderId, Payload, string) -> Option<Reply>)
    requires Valid(w) && Active(w)
    ensures var g := GroupByToken(w.keys, w.entries);
            LiquidatedIn(g.keys, g.entries, w.entries, price, FirstCredential(w), sell)
            == set id | id in w.entries && Liquidates(w.entries, id, price, FirstCredential(w), sell)
  {
    var g := GroupByToken(w.keys, w.entries);
    GroupByTokenSpec(w.keys, w.entries);
    var credential := FirstCredential(w);
    GroupsOverPass(w);
    forall id
      ensures id in LiquidatedIn(g.keys, g.entries, w.entries, price, credential, sell)
              <==> id in w.entries && Liquidates(w.entries, id, price, credential, sell)
    {
      LiquidatedInMember(g.keys, g.entries, w.entries, price, credential, sell, id);
    }
  }

  /** `check_stop_losses` deletes exactly the watches that fire and whose
      sell response parses; a pass that does nothing deletes nothing. */
  lemma PassDeletes(w: Dict<OrderId, Watch>,
                    price: (Token, string) -> Option<Price>,
                    sell: (OrderId, Payload, string) -> Option<Reply>)
    requires Valid(w)
    ensures CheckStopLosses(w, price, sell).watches
            == if Active(w)
               then RemoveAll(w, set id | id in w.entries && Liquidates(w.entries, id, price, FirstCredential(w), sell))
               else w
  {
    if Active(w) {
      var g := GroupByToken(w.keys, w.entries);
      GroupByTokenSpec(w.keys, w.entries);
      var credential := FirstCredential(w);
      GroupsOverPass(w);
      RemoveNothing(w);
      SellGroupsDeletes(g.keys, g.entries, w, {}, price, credential, sell);
      PassLiquidated(w, price, sell);
      assert {} + LiquidatedIn(g.keys, g.entries, w.entries, price, credential, sell)
             == LiquidatedIn(g.keys, g.entries, w.entries, price, credential, sell);
    }
  }

  /** Every sell `check_stop_losses` sends is for a watch that fires, with
      the watch's own credential, its price and the liquidating payload; a
      pass that does nothing sends none. */
  lemma PassSellsSound(w: Dict<OrderId, Watch>,
                       price: (Token, string) -> Option<Price>,
                       sell: (OrderId, Payload, string) -> Option<Reply>)
    requires Valid(w)
    ensures var r := CheckStopLosses(w, price, sell);
            && (!Active(w) ==> r.sells == [])
            && (Active(w) ==>
                  forall c :: c in r.sells ==>
                    && Fires(w.entries, c.id, price, FirstCredential(w))
                    && c == CallFor(w.entries, c.id, price(w.entries[c.id].token, FirstCredential(w)).value, sell))
  {
    if Active(w) {
      var g := GroupByToken(w.keys, w.entries);
      var credential := FirstCredential(w);
      GroupByTokenSpec(w.keys, w.entries);
      GroupsOverPass(w);
      RemoveNothing(w);
      var sells := SellGroups(g.keys, g.entries, w, price, credential, sell).sells;
      SellGroupsCalls(g.keys, g.entries, w, {}, price, credential, sell);
      forall c | c in sells
        ensures Fires(w.entries, c.id, price, credential)
      {
        assert w.entries[c.id].token in g.entries;
      }
    }
  }

  /** Every watch that fires is sold by the pass. */
  lemma PassSellsComplete(w: Dict<OrderId, Watch>,
                          price: (Token, string) -> Option<Price>,
                          sell: (OrderId, Payload, string) -> Option<Reply>)
    requires Valid(w) && Active(w)
    ensures forall id :: Fires(w.entries, id, price, FirstCredential(w)) ==>
              id in SellIds(CheckStopLosses(w, price, sell).sells)
  {
    var g := GroupByToken(w.keys, w.entries);
    GroupByTokenSpec(w.keys, w.entries);
    var credential := FirstCredential(w);
    GroupsOverPass(w);
    RemoveNothing(w);
    var ids := SellIds(SellGroups(g.keys, g.entries, w, price, credential, sell).sells);
    SellGroupsSellsAll(g.keys, g.entries, w, {}, price, credential, sell);
    forall id | Fires(w.entries, id, price, credential)
      ensures id in ids
    {
      var t := w.entries[id].token;
      assert id in GroupOf(g.entries, t);
      assert t in g.keys;
      assert TriggeredAt(w.entries, id, price(t, credential).value);
    }
  }

  /** No watch is sold twice in one pass. */
  lemma PassSellsOnce(w: Dict<OrderId, Watch>,
                      price: (Token, string) -> Option<Price>,
                      sell: (OrderId, Payload, string) -> Option<Reply>)
    requires Valid(w)
    ensures Distinct(SellIds(CheckStopLosses(w, price, sell).sells))
  {
    if Active(w) {
      var g := GroupByToken(w.keys, w.entries);
      GroupsOverPass(w);
      RemoveNothing(w);
      SellGroupsSellsOnce(g.keys, g.entries, w, {}, price, FirstCredential(w), sell);
    }
  }

  /** `check_stop_losses` sends one sell for every watch that fires and none
      for any other, each once, with the watch's own credential and the
      liquidating payload; a pass that does nothing sends none. */
  lemma PassSells(w: Dict<OrderId, Watch>,
                  price: (Token, string) -> Option<Price>,
                  sell: (OrderId, Payload, string) -> Option<Reply>)
    requires Valid(w)
    ensures var r := CheckStopLosses(w, price, sell);
            && (!Active(w) ==> r.sells == [])
            && (Active(w) ==>
                  && (forall c :: c in r.sells ==>
                        && Fires(w.entries, c.id, price, FirstCredential(w))
                        && c == CallFor(w.entries, c.id, price(w.entries[c.id].token, FirstCredential(w)).value, sell))
                  && (forall id :: Fires(w.entries, id, price, FirstCredential(w)) ==> id in SellIds(r.sells))
                  && Distinct(SellIds(r.sells)))
  {
    PassSellsSound(w, price, sell);
    PassSellsOnce(w, price, sell);
    if Active(w) {
      PassSellsComplete(w, price, sell);
    }
  }

  /** The grouping partitions the watches with a token: a watch is in a
      group exactly when the group's key is its own non-zero token. */
  lemma GroupByTokenPartition(w: Dict<OrderId, Watch>)
    requires Valid(w)
    ensures var g := GroupByToken(w.keys, w.entries);
            forall t, id :: t in g.entries && id in g.entries[t] <==>
                              id in w.entries && t != 0 && w.entries[id].token == t
  {
    var g := GroupByToken(w.keys, w.entries);
    GroupByTokenSpec(w.keys, w.entries);
    forall t, id | t in g.entries && id in g.entries[t]
      ensures id in w.entries && t != 0 && w.entries[id].token == t
    {
      assert id in w.keys;
    }
    forall t, id | id in w.entries && t != 0 && w.entries[id].token == t
      ensures t in g.entries && id in g.entries[t]
    {
      assert id in w.keys;
      assert id in GroupOf(g.entries, t);
    }
  }

  /** The distinct instrument tokens of the watches. */
  ghost function WatchedTokens(w: map<OrderId, Watch>): set<Token> {
    set id | id in w && w[id].token != 0 :: w[id].token
  }

  /** `check_stop_losses` looks up the price of every instrument some watch
      is on, once each, and of nothing else. */
  lemma PassLookups(w: Dict<OrderId, Watch>,
                    price: (Token, string) -> Option<Price>,
                    sell: (OrderId, Payload, string) -> Option<Reply>)
    requires Valid(w)
    ensures var r := CheckStopLosses(w, price, sell);
            && (!Active(w) ==> r.lookups == [])
            && (Active(w) ==>
                  && Distinct(r.lookups)
                  && (forall t :: t in r.lookups <==> t in WatchedTokens(w.entries))
                  && |r.lookups| == |WatchedTokens(w.entries)|)
  {
    if Active(w) {
      var g := GroupByToken(w.keys, w.entries);
      GroupByTokenSpec(w.keys, w.entries);
      forall t | t in g.keys
        ensures t in WatchedTokens(w.entries)
      {
        var id := g.entries[t][0];
        assert id in g.entries[t];
        assert id in w.keys && w.entries[id].token == t;
      }
      forall t | t in WatchedTokens(w.entries)
        ensures t in g.keys
      {
        var id :| id in w.entries && w.entries[id].token != 0 && w.entries[id].token == t;
        assert id in GroupOf(g.entries, t);
      }
      assert (set t | t in g.keys) == WatchedTokens(w.entries);
      DistinctCard(g.keys);
    }
  }

  /** A watch whose sell went through is never sold again by a later pass. */
  lemma SoldOnlyOnce(w: Dict<OrderId, Watch>,
                     price1: (Token, string) -> Option<Price>, sell1: (OrderId, Payload, string) -> Option<Reply>,
                     price2: (Token, string) -> Option<Price>, sell2: (OrderId, Payload, string) -> Option<Reply>)
    requires Valid(w)
    ensures var r1 := CheckStopLosses(w, price1, sell1);
            var r2 := CheckStopLosses(r1.watches, price2, sell2);
            forall c :: c in r1.sells && c.response.Some? ==> c.id !in SellIds(r2.sells)
  {
    var r1 := CheckStopLosses(w, price1, sell1);
    var r2 := CheckStopLosses(r1.watches, price2, sell2);
    PassSells(w, price1, sell1);
    PassDeletes(w, price1, sell1);
    PassSells(r1.watches, price2, sell2);
    forall c | c in r1.sells && c.response.Some?
      ensures c.id !in SellIds(r2.sells)
    {
      SellIdsMember(r2.sells, c.id);
    }
  }
}
