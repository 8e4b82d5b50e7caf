# Excel order placement with stop-loss monitoring: a Dafny model

The application takes a spreadsheet of orders and places each row with the
broker. Every BUY row that carries a stop-loss price is then protected: a
periodic job looks up the last traded price of each watched instrument. It
liquidates, with a MARKET SELL, every position whose stop-loss price has been
reached.

This project models the bookkeeping core of that application as pure
functions over immutable maps. The core has five parts:

- **The instrument registry** (module `Registry`). The symbol -> instrument
  token table is loaded at start-up from the exchange's instrument list. It is
  keyed by the trimmed, upper-cased symbol.
- **The upload filter** (module `Upload`). Only `.xlsx` and `.xls` files are
  accepted, and the extension is matched regardless of case.
- **Row ingestion** (module `Ingest`). One spreadsheet row:
  - resolves its instrument token, from the explicit token or else from the
    registry;
  - applies the field defaults and builds the place-order request;
  - calls the broker;
  - records the order under the broker's order id or a local
    `manual-<seconds>-<row>` id;
  - arms a stop-loss watch for a BUY that has a stop-loss price.
- **The stop-loss monitor** (module `Monitor`). One pass:
  - groups the watches by instrument;
  - looks up one price per instrument, using the credential of the first
    watch;
  - sends a liquidating sell for every watch whose price is at or below its
    non-zero stop-loss;
  - deletes the watch once the response parses.
- **The store** (module `Orders`). It holds the order records
  (`active_orders`) and the watches (`stop_loss_orders`). The watch
  dictionary keeps insertion order (module `OrderedMap`), because the monitor
  depends on that order. It takes the first watch's credential, and it visits
  instruments in first-seen order.

Supporting modules:

- `Wrappers` (`Option`).
- `Text`: Python's `strip`, `upper` and `lower` on strings, and decimal
  rendering of naturals.
- `Lifecycle`: properties spanning ingestion and the monitor.
- `Scenarios`: worked examples.

The broker is a set of parameters:

- `place(row, payload)`: the place-order call.
- `price(token, credential)`: the last-price lookup.
- `sell(id, payload, credential)`: the stop-loss sell.

`None` stands for the code's exception paths:

- `place` is `None` when the call fails, or its response is not JSON, or the
  response is not an object, or its `data` member is present but not an
  object (then `.get` raises at app.py:259). Otherwise it parses to an
  optional string order id.
- `price` is `None` whenever `get_current_price` gives nothing.
- `sell` is `None` when the call fails or its response is not JSON.

The clock is also a parameter (`Ingest.Clock`). The code reads it twice for
every row that gets a parsed response: `time.time()` for the fallback id,
read even when the broker supplies an id, and `datetime.now()` for the
record.

## Model

| member | source | states |
|---|---|---|
| Upload.AllowedFile | app.py:33-34 | a name is accepted iff it has a dot and the text after its last dot, lower-cased, is `xlsx` or `xls` |
| Upload.AllowedFileIgnoresCase | app.py:33-34 | upper-casing a file name does not change whether it is accepted (ASCII case mapping) |
| Upload.ExtensionAt | app.py:34 | the extension is the text after the one dot that no other dot follows |
| Text.NormalizeIgnoresPadding | app.py:57 | surrounding whitespace does not change a normalised symbol |
| Text.NormalizeIgnoresCase | app.py:57 | upper- or lower-casing a symbol does not change its normalised form (ASCII case mapping) |
| Text.NormalizeIdempotent | app.py:44 | a normalised key normalises to itself |
| Text.StripIdempotent | app.py:44 | stripping twice is stripping once |
| Text.StripIgnoresPadding | app.py:44 | whitespace added on either side is stripped away |
| Text.LowerOfUpper | app.py:34 | lower-casing after upper-casing is plain lower-casing |
| Text.NatToString | app.py:259 | the decimal rendering of a number is a non-empty digit string |
| Text.NatToStringRoundTrip | app.py:259 | reading the decimal rendering back gives the number |
| Text.NatToStringInjective | app.py:259 | different numbers render differently |
| Registry.Stop | app.py:38-47 | the load gets through every entry before the first complete entry whose token `int()` rejects, and stops there |
| Registry.LoadInto | app.py:42-44 | the loader only adds or overwrites keys: every key of the table it starts from is still there, and every key it adds is stripped and upper-cased |
| Registry.Resolve | app.py:52-58 | the empty symbol gives nothing; any other symbol gives the entry under its stripped, upper-cased form, and nothing iff there is none |
| Registry.LoadIntoHas | app.py:42-44 | a key is in the loaded table iff some entry before the abort point has both fields, a numeric token and that normalised symbol |
| Registry.LoadIntoLast | app.py:42-44 | for duplicate normalised symbols the last such entry's token is the one stored |
| Registry.LoadIntoKeeps | app.py:42-44 | a key no loaded entry writes keeps its earlier value |
| Registry.Load | app.py:36-50 | the start-up table, loaded into the empty mapping, has only stripped, upper-cased keys, and an empty list loads nothing |
| Registry.LoadSkipsIncomplete | app.py:43 | an entry lacking the symbol or the token has no effect on the load |
| Registry.ResolveAfterLoad | app.py:52-58 | lookup gives nothing for the empty symbol or an unwritten key, and the last writer's token otherwise |
| Registry.ResolveIgnoresSpelling | app.py:52-58 | padded, upper-cased and lower-cased spellings of a non-empty symbol resolve identically (ASCII case mapping) |
| Ingest.ChooseToken | app.py:218-227 | a truthy token cell is kept; a falsy one with a non-empty symbol is replaced by the symbol's registry token, or by nothing when the registry has none; a falsy one without a symbol is kept |
| Ingest.BuildPayload | app.py:229-252 | a request is built iff the row has a usable token and every numeric cell converts; it carries that token; quantity, price, disclosed quantity and trigger price are the given values or 1, 0, 0, 0; transaction type, order type and product are the given value or BUY, MARKET, I, upper-cased; validity, tag and AMO are the given value or DAY, `excel-order`, false, unchanged |
| Ingest.FallbackId | app.py:259 | a locally made id always starts with `manual-` |
| Ingest.IngestRow | app.py:216-292 | a row that is skipped or whose call fails changes nothing; otherwise exactly one record with status `placed` and the row's token, quantity, price, order type, product and credential is written under the broker's id or the fallback id, no other record changes, and a watch with the same token, quantity, product, stop-loss and buy price is added under the same id iff the order is a BUY with a convertible stop-loss price; the store invariant is kept |
| Ingest.IngestBatch | app.py:216-292 | a file only adds or overwrites: no order record and no watch is removed by any row |
| Ingest.ExplicitTokenWins | app.py:218-223 | a truthy explicit token is used as it is, whatever the registry holds |
| Ingest.SymbolResolvesThroughRegistry | app.py:221-223 | without a usable explicit token the symbol's last-loaded registry token is used |
| Ingest.UnresolvedRowSkipped | app.py:225-227 | with no usable explicit token and a symbol that is empty or unknown, the row is skipped and the store is unchanged |
| Ingest.FallbackIdInjective | app.py:259 | a fallback id determines both the clock reading and the row index |
| Ingest.FallbackIdsDistinctInBatch | app.py:259 | two rows of one file never get the same fallback id |
| Ingest.ApplyOrderKeys | app.py:262-274 | recording a row adds exactly its id to the order keys |
| Ingest.BatchRecordsEveryPlacedRow | app.py:216-292 | after a file, the order ids are the earlier ones plus the id of every placed row |
| Ingest.BatchKeepsLastRecord | app.py:262-274 | the record under an id is the one written by the last row placed under that id |
| Ingest.BatchWatchesOnlyPlacedBuys | app.py:276-286 | after a file, the watch ids are the earlier ones plus the ids of the placed BUY rows with a stop-loss price |
| Ingest.BatchKeepsInv | app.py:216-292 | a whole file keeps the store invariant: every watch belongs to a recorded order and has a non-zero token |
| Orders.EmptyStore | app.py:29-30 | the initial empty store satisfies the store invariant |
| OrderedMap.Put | app.py:278 | assigning a key stores the value; a new key goes last and an existing key keeps its place |
| OrderedMap.RemoveAll | app.py:160-161 | deleting keys drops exactly those keys and leaves the other keys, in their order, and their values |
| OrderedMap.DropConcat | app.py:160-161 | deletion works piece by piece, so the surviving keys keep their relative order |
| OrderedMap.PutKeepsFirst | app.py:68 | assigning any key but the first keeps the first key and its value |
| Monitor.FirstCredentialKept | app.py:67-69 | arming a watch under any id but the first one's leaves the credential the monitor uses unchanged |
| Monitor.GroupByToken | app.py:76-82 | the grouping is a well-formed insertion-ordered table of token groups; its contents are stated by `Monitor.GroupByTokenSpec` |
| Monitor.Triggered | app.py:98 | a zero stop-loss never fires, and a watch only fires at or below its stop-loss |
| Monitor.TriggeredMonotone | app.py:98 | a price that fires a watch keeps firing it at every lower price, and a non-zero stop-loss fires at its own price |
| Monitor.SellPayload | app.py:135-147 | the liquidating order is a day MARKET SELL at price 0, tagged `stop-loss-order`, for the watch's token, quantity and product |
| Monitor.GroupByTokenSpec | app.py:76-82 | every grouped id is a watch on its group's token, every watch with a non-zero token is in its token's group, and groups are non-empty and keyed by non-zero tokens |
| Monitor.GroupsDistinct | app.py:76-82 | no group lists a watch twice |
| Monitor.GroupByTokenPartition | app.py:76-82 | a watch is in a group iff the group's key is its own non-zero token, so each such watch is in exactly one group |
| Monitor.SellGroup | app.py:93-101 | running one group only deletes watches and never adds or edits one |
| Monitor.SellGroups | app.py:85-103 | the tokens looked up are exactly the group keys, in order, and watches are only deleted |
| Monitor.CheckStopLosses | app.py:60-103 | a pass with no watches or with no credential on the first watch does nothing; otherwise it only deletes watches |
| Monitor.MonitorStep | app.py:60-103 | a pass never touches the order records, only removes watches, and keeps the store invariant |
| Monitor.PassLookups | app.py:76-88 | a pass looks up each distinct watched instrument exactly once and nothing else, so the number of lookups is the number of distinct tokens |
| Monitor.PassDeletes | app.py:94-101 | a pass deletes exactly the watches whose lookup answered, whose stop-loss is non-zero and reached, and whose sell response parses; the rest stay |
| Monitor.PassSellsSound | app.py:94-101 | every sell is for a watch that fires, with that watch's own credential, the price seen and the MARKET SELL payload for its token, quantity and product |
| Monitor.PassSellsComplete | app.py:85-101 | every watch that fires is sold |
| Monitor.PassSellsOnce | app.py:94-101 | no watch is sold twice in one pass |
| Monitor.PassSells | app.py:60-103 | a pass sends one sell for each firing watch and none for any other, and sends nothing when it does nothing |
| Monitor.PassLiquidated | app.py:85-101 | the watches the group runs liquidate are exactly those that fire and whose sell response parses |
| Monitor.SoldOnlyOnce | app.py:159-161 | a watch whose sell response parsed is never sold again by the next pass |
| Monitor.SellGroupsDeletes | app.py:85-101 | a run over the groups deletes exactly the watches it liquidates |
| Monitor.SellIdsMember | app.py:94-101 | an id is among the sold ids iff some sell call is for it |
| Lifecycle.SellUnwindsBuy | app.py:135-147 | the sell sent for a watch armed by a BUY row has that BUY's token, quantity and product, and is a MARKET SELL at price 0 valid for the day |
| Lifecycle.PassKeepsRecords | app.py:262-274 | an order recorded by ingestion survives a later pass unchanged, with status `placed` |
| Scenarios.AbcRegistry | app.py:52-58 | a registry loaded from `ABC -> 1001` resolves every spelling of `ABC` to 1001 |
| Scenarios.EndToEndUpload | app.py:216-286 | a BUY of 10 `ABC` at 100 with stop-loss 95 is recorded as placed on instrument 1001 and arms one watch |
| Scenarios.EndToEndSells | app.py:60-161 | at price 94 the pass looks 1001 up once, sells that watch once at market with its credential, and deletes it |
| Scenarios.EndToEndHolds | app.py:94-98 | at price 96 nothing is sold and the watch stays |
| Scenarios.TriggerBoundary | app.py:98 | a stop-loss of 95 fires at 94 and 95 but not at 96, and a zero stop-loss never fires |
| Scenarios.UploadAcceptsSpreadsheets | app.py:33-34 | `orders.xlsx` and `ORDERS.XLS` are accepted |
| Scenarios.UploadRejectsOthers | app.py:33-34 | `orders.csv`, `orders.xlsx.bak` and a name without a dot are refused |

## Left out

- Flask routes, templates, flash messages, saving the upload and
  `secure_filename` are left out. They are user interface and file I/O.
- Reading the spreadsheet with pandas and normalising column names are left
  out. A row is a record with optional fields (`Ingest.Row`), and a numeric
  cell is missing, convertible, or rejected by `int()`/`float()`.
- Pandas' NaN for an empty cell in an existing column is not modelled. NaN
  is truthy and "not None", which has three effects in the code:
  - A NaN stop-loss arms a watch that can never fire.
  - A NaN cell in an existing `instrument_token` column is truthy, so the
    symbol is never looked up. Then `int(nan)` raises (app.py:222, 246), and
    the row is skipped. In a sheet with that column, every row that relies
    on its symbol is skipped this way. In the model such a cell is written
    `Malformed`.
  - A NaN `is_amo` gives `bool(nan) == True` (app.py:251), so the order goes
    out as an after-market order.
- Non-string symbols are not modelled. The symbol is a string or missing.
- The HTTP calls and JSON decoding in the ingestion loop, in
  `get_current_price` and in `execute_stop_loss` are not modelled. They are
  the `place`, `price` and `sell` parameters. How `get_current_price` digs
  the price out of the response is not modelled.
- The worker thread and the interval scheduler are left out. A file is one
  sequential batch and the job is one sequential pass. Interleavings of the
  two are not modelled.
- `time.time()` and `datetime.now()` are the `Ingest.Clock` parameter.
  Logging is left out.
- Prices are integers in the smallest currency unit. Float conversion and
  rounding are not modelled; only `<=` on prices matters.
- Ingest.ChooseToken: an instrument token is kept as its `int()` value
  everywhere. The code keeps the raw cell: it tests the cell's truthiness,
  stores the cell in the order record and the watch, and groups and looks up
  prices by it; only the two request payloads apply `int()`. So the model
  differs from the code in two ways. A text cell such as `"0"` is truthy in
  the code, and its row is placed on instrument 0; in the model it is zero,
  so the row falls back to the symbol or is skipped. A text token `"1001"`
  and an integer 1001 from the registry are two groups and two price
  lookups in the code, but one group and one lookup in the model.
- `Text.Upper` and `Text.Lower` map ASCII letters only. Python's full Unicode
  case mapping is not modelled.
- Registry.Stop: loading the instrument list follows the code. The whole loop
  sits in one `try`, so a complete entry whose token `int()` rejects ends the
  load, and the entries before it stay loaded. A
  missing or unreadable instrument file leaves the table empty; reading the
  file is not modelled.
- Ingest.IngestRow records an order with status `placed` whenever the
  broker's response parses as an object whose `data`, if present, is an
  object, whatever the HTTP status. This follows the code.
- Ingest.RowId: an order id that is not a string is not modelled. A
  `data.order_id` that is null or a number becomes the dict key as it is in
  the code. The model's reply carries only an optional string id.
- Ingest.IngestRow: a stop-loss cell that `float()` rejects raises after the
  order record is written. The model writes the record and arms no watch,
  as the code does.
- Monitor.PassDeletes: a triggered watch is deleted as soon as the sell
  response parses, whether or not the broker accepted the sell. This follows
  the code.
- Monitor.SellGroup: the execution data (`stop_loss_executed`, the price
  seen, time, response) is written onto the watch that is deleted at once, so
  it is not kept in the store. It appears only in the `Monitor.SellCall`
  returned by the pass. The order record is not marked as executed, because
  the code does not mark it.
- Monitor.CheckStopLosses uses one credential, the first watch's, for every
  price lookup. Each sell uses its watch's own credential, as in the code.
- Monitor.PassLookups states that the lookups are distinct and cover exactly
  the watched instruments. It does not state their order (first-seen order
  in the watch dictionary), although the function computes it.
