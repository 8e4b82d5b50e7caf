/** Properties that span both halves of the application: what ingestion
    arms is what the monitor later liquidates. */
module Lifecycle {
  import opened Wrappers
  import opened OrderedMap
  import opened Orders
  import Registry
  import Ingest
  import Monitor

  /** The sell the monitor sends for a watch armed by a BUY row unwinds that
      BUY: the same instrument, quantity and product, as a MARKET SELL at
      price 0 valid for the day. */
  lemma SellUnwindsBuy(s: Store, reg: Registry.Mapping, row: Ingest.Row, index: nat,
                       credential: string, clock: Ingest.Clock,
                       place: (nat, Payload) -> Option<Reply>)
    requires Valid(s.watches)
    requires Ingest.BuildPayload(reg, row).Some?
    requires place(index, Ingest.BuildPayload(reg, row).value).Some?
    requires Ingest.BuildPayload(reg, row).value.transactionType == "BUY" && row.stopLoss.Given?
    ensures var p := Ingest.BuildPayload(reg, row).value;
            var r := Ingest.IngestRow(s, reg, row, index, credential, clock, place);
            var id := Ingest.RowId(place(index, p).value, clock, index);
            && id in r.watches.entries
            && var sp := Monitor.SellPayload(r.watches.entries[id]);
               && sp.token == p.token && sp.quantity == p.quantity && sp.product == p.product
               && sp.transactionType == "SELL" && sp.orderType == "MARKET"
               && sp.price == 0 && sp.validity == "DAY"
  {
  }

  /** A pass over the store never touches the order records, so an order
      recorded by ingestion survives every later pass unchanged. */
  lemma PassKeepsRecords(s: Store, reg: Registry.Mapping, row: Ingest.Row, index: nat,
                         credential: string, clock: Ingest.Clock,
                         place: (nat, Payload) -> Option<Reply>,
                         price: (Token, string) -> Option<Price>,
                         sell: (OrderId, Payload, string) -> Option<Reply>)
    requires Inv(s)
    requires Ingest.BuildPayload(reg, row).Some?
    requires place(index, Ingest.BuildPayload(reg, row).value).Some?
    ensures var r := Ingest.IngestRow(s, reg, row, index, credential, clock, place);
            var id := Ingest.RowId(place(index, Ingest.BuildPayload(reg, row).value).value, clock, index);
            var t := Monitor.MonitorStep(r, price, sell);
            && Inv(t)
            && id in t.orders && t.orders[id] == r.orders[id]
            && t.orders[id].status == StatusPlaced
  {
  }
}
