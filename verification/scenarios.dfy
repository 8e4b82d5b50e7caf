/** Worked examples: the end-to-end life of one protected BUY order, the
    trigger boundary, and the upload filter on typical file names. */
module Scenarios {
  import opened Wrappers
  import opened OrderedMap
  import opened Orders
  import Registry
  import Text
  import Upload
  import Ingest
  import Monitor

  /** A row for `ABC`: BUY 10 at 100 with a stop-loss at 95, every other
      column missing. */
  function AbcRow(): Ingest.Row {
    Ingest.Row(Some("ABC"), Ingest.Absent, Some("BUY"), Ingest.Given(10), Ingest.Given(100),
               None, None, None, None, Ingest.Absent, Ingest.Absent, None, Ingest.Given(95))
  }

  /** A registry loaded from the one entry `ABC -> 1001` resolves `ABC`,
      in any spelling, to 1001. */
  lemma AbcRegistry(spelling: string)
    requires Text.Normalize(spelling) == "ABC"
    ensures Registry.Resolve(Registry.Load([Registry.Entry(Some("ABC"), Some(Registry.Numeric(1001)))]), spelling)
            == Some(1001)
  {
    var es := [Registry.Entry(Some("ABC"), Some(Registry.Numeric(1001)))];
    Text.NormalizeIdempotent("ABC");
    assert Text.Normalize("ABC") == "ABC";
    assert Registry.LastWriter(es, "ABC", 0);
    Registry.ResolveAfterLoad(es, spelling);
  }

  /** Ingesting that row into the empty store, against a registry that maps
      `ABC` to 1001 and a broker that answers with order id `A1`, records
      one placed order on instrument 1001 and arms one watch for it. */
  lemma EndToEndUpload(reg: Registry.Mapping, clock: Ingest.Clock,
                       place: (nat, Payload) -> Option<Reply>)
    requires Registry.Resolve(reg, "ABC") == Some(1001)
    requires forall p :: place(0, p) == Some(Reply(Some("A1")))
    ensures var s := Ingest.IngestRow(EmptyStore(), reg, AbcRow(), 0, "tok", clock, place);
            && Inv(s)
            && s.orders.Keys == {"A1"}
            && s.orders["A1"].status == StatusPlaced && s.orders["A1"].token == 1001
            && s.watches.keys == ["A1"] && s.watches.entries["A1"] == AbcWatch()
  {
    assert Text.Upper("I") == "I";
    assert Text.Upper("MARKET") == "MARKET";
    assert Text.Upper("BUY") == "BUY";
  }

  /** The protected position the upload leaves behind. */
  function AbcWatch(): Watch {
    Watch("ABC", 1001, 10, "I", 95, 100, "tok")
  }

  /** A pass over the watches the upload leaves whose lookup sees 94 for instrument 1001 and
      whose sell goes through looks the price up once, sells 10 at market
      with the watch's credential, and deletes the watch. */
  lemma EndToEndSells(w: Dict<OrderId, Watch>, price: (Token, string) -> Option<Price>,
                      sell: (OrderId, Payload, string) -> Option<Reply>)
    requires Valid(w) && w.keys == ["A1"] && w.entries["A1"] == AbcWatch()
    requires price(1001, "tok") == Some(94)
    requires sell("A1", Monitor.SellPayload(AbcWatch()), "tok").Some?
    ensures var r := Monitor.CheckStopLosses(w, price, sell);
            && r.lookups == [1001]
            && r.sells == [Monitor.SellCall("A1", Monitor.SellPayload(AbcWatch()), "tok", 94,
                                            sell("A1", Monitor.SellPayload(AbcWatch()), "tok"))]
            && r.watches.entries == map[]
  {
    var r := Monitor.CheckStopLosses(w, price, sell);
    assert Monitor.Active(w);
    Monitor.PassDeletes(w, price, sell);
    Monitor.PassSells(w, price, sell);
    Monitor.PassLookups(w, price, sell);
    assert Monitor.Liquidates(w.entries, "A1", price, "tok", sell);
    assert r.watches.entries.Keys == {};
    assert Monitor.WatchedTokens(w.entries) == {1001};
    DistinctSingleton(r.lookups, 1001);
    var ids := Monitor.SellIds(r.sells);
    forall x | x in ids
      ensures x == "A1"
    {
      Monitor.SellIdsMember(r.sells, x);
    }
    Monitor.SellIdsMember(r.sells, "A1");
    DistinctSingleton(ids, "A1");
    assert r.sells[0] in r.sells;
    assert r.sells == [r.sells[0]];
  }

  /** A pass over the watches the upload leaves whose lookup sees 96 leaves the watch armed
      and sells nothing. */
  lemma EndToEndHolds(w: Dict<OrderId, Watch>, price: (Token, string) -> Option<Price>,
                      sell: (OrderId, Payload, string) -> Option<Reply>)
    requires Valid(w) && w.keys == ["A1"] && w.entries["A1"] == AbcWatch()
    requires price(1001, "tok") == Some(96)
    ensures var r := Monitor.CheckStopLosses(w, price, sell);
            r.sells == [] && r.watches == w
  {
    var r := Monitor.CheckStopLosses(w, price, sell);
    Monitor.PassDeletes(w, price, sell);
    Monitor.PassSells(w, price, sell);
    Monitor.SellIdsMember(r.sells, "A1");
    assert (set id | id in w.entries && Monitor.Liquidates(w.entries, id, price, "tok", sell)) == {};
    RemoveNothing(w);
  }

  /** The trigger boundary for a stop-loss at 95: 94 and 95 fire, 96 does
      not, and a zero stop-loss fires at no price. */
  lemma TriggerBoundary(p: Price)
    ensures var w := Watch("ABC", 1001, 10, "I", 95, 100, "tok");
            Monitor.Triggered(w, 94) && Monitor.Triggered(w, 95) && !Monitor.Triggered(w, 96)
    ensures !Monitor.Triggered(Watch("ABC", 1001, 10, "I", 0, 100, "tok"), p)
  {
  }

  /** Spreadsheet names are accepted whatever their case. */
  lemma UploadAcceptsSpreadsheets()
    ensures Upload.AllowedFile("orders.xlsx") && Upload.AllowedFile("ORDERS.XLS")
  {
    Upload.ExtensionAt("orders.xlsx", 6);
    assert "orders.xlsx"[7..] == "xlsx";
    assert Text.Lower("xlsx") == "xlsx";
    Upload.ExtensionAt("ORDERS.XLS", 6);
    assert "ORDERS.XLS"[7..] == "XLS";
    assert Text.Lower("XLS") == "xls";
  }

  /** Other extensions, a spreadsheet extension followed by another one, and
      a name without a dot are refused. */
  lemma UploadRejectsOthers()
    ensures !Upload.AllowedFile("orders.csv") && !Upload.AllowedFile("orders.xlsx.bak")
    ensures !Upload.AllowedFile("xlsx")
  {
    Upload.ExtensionAt("orders.csv", 6);
    assert "orders.csv"[7..] == "csv";
    assert Text.Lower("csv")[0] == 'c';
    Upload.ExtensionAt("orders.xlsx.bak", 11);
    assert "orders.xlsx.bak"[12..] == "bak";
    assert Text.Lower("bak")[0] == 'b';
  }
}
