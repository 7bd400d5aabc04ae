# bdata — order book and trade capture, modelled in Dafny

bdata captures market data from cryptocurrency exchanges into a relational
database. It has four parts:

- **The capture service** (bdata.py). It registers each exchange, token and
  market on first sight (`ensure_exchange_market`). On every tick of a fixed
  interval it stores one order book snapshot per market with its bid and ask
  lines (`snap_market_book`). It also pulls the trades published since the
  last stored one (`snap_trades`): it pages through the exchange's trade
  list, collapses adjacent duplicates, trims what was already stored, and
  inserts the rest.
- **The depth-statistics batch** (bdata_stat.py). It takes up to ten
  unprocessed snapshots, highest id first. For each one it replaces the
  stat rows with one row per depth, then marks it processed. Finally it
  deletes the book lines of the last snapshot it took.
- **The schema** (bdata_model.py): exchanges, tokens, markets, snapshots,
  stat rows, bid and ask lines, and trades, with their keys, unique
  indexes and cascading foreign keys.
- **`agg_ohlcv`** (bdata_agg.py): the open, high, low, close and volume of
  one group of trades.

The project is organised as follows:

- `schema.dfy` (module `Schema`) holds the tables as a `Tables` value of
  row sequences in insertion order, which is primary-key order.
  `TablesValid` gathers the schema's constraints: increasing keys, the
  unique indexes, and every foreign key resolving.
- A session is the class `Database`, whose single field `tables` each row
  operation replaces.
- Each statement the code issues is one method. Its `ensures` gives the
  new tables as a pure function of the old ones.
- Each composite operation is a specification function on `Tables`:
  - `Register` models `ensure_exchange_market`;
  - `SnapBook` models `snap_market_book`;
  - `IngestTrades` models `snap_trades`;
  - `StatBatch` models the stat block.
- For each composite operation, a method on `Database` is proved equal to
  the function, and lemmas state what the function does.
- Exchange calls are oracle parameters that return `None` when they raise:
  - `fetch(market, limit)` for the order book;
  - `fetch(market, since)` for trades.
- The clock is a parameter: `now` in milliseconds, `yday`, and `Clock`
  readings of local time.
- `dec` is the exact-value conversion `Decimal(str(x))`.
- The server-side `bookSnapStat(bsid, n)` is a parameter `f`.

Behaviour of the code that is easy to misread; the model follows the code:

- **Bootstrap `since`.** For a market with no stored trade, `since` is
  `now - now % 86400000 - yday * 86400000`. That is `yday` days before the
  current UTC midnight, not the start of the current day
  (`Trades.BootstrapSince`).
- **New snapshots are never picked by the batch.** `snap_market_book`
  leaves the nullable `stat` flag NULL, and the batch selects only rows
  with `stat = false`. So a freshly captured snapshot is never picked: only
  `Some(false)` is pending (`DepthStat.Pending`).
- **No unique key on (market, ts).** Nothing in the schema makes
  (market, ts) unique. The "already taken" check is the code's own query,
  which takes the first match (`Schema.SnapIndex`).
- **The batch has no claim mechanism.** It claims nothing (no skip-locked
  rows, no partitioning). It deletes the lines of the last snapshot it took
  only, and only when all ten rounds ran (`DepthStat.StatBatchLines`).
- **A negative interval rounds up.** `last_ts` uses Python's floor modulo.
  With a negative interval the tick rounds up instead of down. An interval
  of 0 raises, which is modelled as `None` (`Schedule.LastTs`).
- **The order book is fetched before the header is written.**
  `SnapBook` fetches the book before it writes the snapshot header. The
  code adds the header first, but does not commit it before the fetch, and
  a fetch that raises discards it. The two orders therefore leave the same
  tables.
- **The stale token list.** `ensure_exchange_market` looks both tokens up
  in the token list it read before inserting the base token. So when base
  and quote are the same new symbol, the quote insert violates the unique
  index on `token.symbol`. The model keeps this as a `Failure`
  (`Capture.TokensStage`).

## Model

| member | source | states |
|---|---|---|
| Schema.FirstIndex | bdata.py:57 | the index found holds the first row satisfying the filter; None exactly when no row does (`query(...).first()`) |
| Schema.ExchangeIndex | bdata.py:57 | the first exchange row with the symbol; None iff there is none |
| Schema.TokenIndex | bdata.py:64 | the first token with the symbol in the list read (`next(..., None)`); None iff absent |
| Schema.MarketIndex | bdata.py:76-78 | the first market with the (exchange, base, quote) triple; None iff absent |
| Schema.SnapIndex | bdata.py:94-95 | the first snapshot of the market at `ts`; None iff there is none |
| Schema.Drop | bdata_model.py:56 | a delete by foreign key never adds rows |
| Schema.DropMembers | bdata_model.py:56 | a row survives a delete by foreign key iff it was there and does not reference the deleted id |
| Schema.WithStatDone | bdata_stat.py:38 | the update sets `stat = true` on the chosen snapshot only; ids, markets, timestamps and every other flag are kept |
| Schema.DropKeepsKeys | bdata_model.py:15 | deleting rows keeps keys increasing and a unique column unique |
| Schema.DropKeySet | bdata_model.py:43 | deleting by primary key removes exactly that key |
| Schema.LinesOfDrop | bdata_model.py:66 | deleting one snapshot's lines empties its lines and leaves every other snapshot's lines as they were |
| Schema.StatsOfDrop | bdata_model.py:56 | deleting one snapshot's stat rows empties its rows and leaves every other snapshot's rows as they were |
| Schema.LinesOfAbsent | bdata_model.py:66 | with the foreign key in force, an id that is no snapshot has no lines |
| Schema.StatsOfAbsent | bdata_model.py:56 | with the foreign key in force, an id that is no snapshot has no stat rows |
| Schema.CascadeStats | bdata_model.py:56 | after a snapshot and its stat rows are deleted, stat rows still have unique (book_snap_id, code) and resolve to snapshots |
| Schema.CascadeLines | bdata_model.py:66 | after a snapshot and its lines are deleted, every line still resolves to a snapshot |
| Schema.CascadeSnaps | bdata_model.py:46 | deleting a snapshot keeps the snapshot table's keys and market references |
| Schema.TablesValid | bdata_model.py:12-94 | the schema's constraints over all tables: the shared key counter is positive and each group of tables below holds (a definition, stated row by row in `Schema.ValidRows`) |
| Schema.RegistryValid | bdata_model.py:12-35 | exchange, token and market keys increase below the counter; `exchange.symbol` and `token.symbol` are unique (lines 15, 22); the (exchange, base, quote) triple is unique (lines 34-35); a market's exchange and tokens are stored rows |
| Schema.SnapsValid | bdata_model.py:41-50 | snapshot keys increase below the counter, and every snapshot's market is a stored market |
| Schema.StatsValid | bdata_model.py:53-60 | stat-row keys increase, (book_snap_id, code) is unique (line 60), and every stat row's snapshot is stored |
| Schema.LinesValid | bdata_model.py:63-78 | bid or ask line keys increase, and every line's snapshot is stored |
| Schema.TradesValid | bdata_model.py:81-90 | trade keys increase, every trade's market is stored, and `side` fits `String(1)` (line 86) |
| Schema.ValidRows | bdata_model.py:12-94 | under the constraints, no two exchanges or tokens share a symbol, no two markets a triple, no two stat rows a (snapshot, code) slot; every market's exchange and tokens, every snapshot's market, every stat row's and line's snapshot and every trade's market exists; a trade's side has at most one character |
| Schema.EmptyValid | bdata_model.py:12-94 | the empty database meets every constraint |
| Schema.ExchangeAdded | bdata_model.py:15 | inserting an exchange whose symbol is absent keeps all constraints, the unique symbol included |
| Schema.TokenAdded | bdata_model.py:22 | the token insert, which rejects an already stored symbol, keeps all constraints |
| Schema.MarketAdded | bdata_model.py:28-35 | inserting a market whose triple is absent and whose exchange and tokens exist keeps all constraints |
| Schema.SnapAdded | bdata_model.py:46 | a snapshot of an existing market keeps all constraints and adds exactly its new key |
| Schema.LineAdded | bdata_model.py:63-78 | a line of an existing snapshot keeps all constraints |
| Schema.TradeAdded | bdata_model.py:84-90 | a trade of an existing market with a side of at most one character keeps all constraints |
| Schema.StatAdded | bdata_model.py:56-60 | a stat row of an existing snapshot with an unused (snapshot, code) slot keeps all constraints |
| Schema.StatsDeleted | bdata_stat.py:31 | deleting a snapshot's stat rows keeps all constraints |
| Schema.StatMarked | bdata_stat.py:38 | marking a snapshot processed keeps all constraints and the set of snapshot ids |
| Schema.LinesDeleted | bdata_stat.py:40-41 | deleting a snapshot's bid and ask lines keeps all constraints |
| Schema.SnapDeleted | bdata_model.py:53-78 | deleting a snapshot with its cascades keeps all constraints |
| Schema.InsertExchange | bdata.py:59-61 | the insert appends one exchange under the next key, after which the symbol is found, at the new row when it was absent; no other table changes |
| Schema.TryInsertToken | bdata.py:66-68 | the token insert succeeds iff the symbol is absent, appending one token under the next key that the symbol then finds; a present symbol fails with a unique violation and changes nothing |
| Schema.InsertMarket | bdata.py:80-83 | the insert appends one market with no trade timestamp under the next key, after which the triple is found, at the new row when it was absent; no other table changes |
| Schema.InsertSnap | bdata.py:99-100 | the insert appends exactly the header (next key, the market, ts, NULL flag), after which (market, ts) is found; no other table changes |
| Schema.InsertLine | bdata.py:103-106 | the insert appends exactly the row (next key, snapshot, price, amount) to the chosen side only; no other table changes |
| Schema.InsertTrade | bdata.py:166-172 | the insert appends exactly the trade (next key, market, ts, side, price, amount, fee, eid); no other table changes |
| Schema.InsertStat | bdata_stat.py:35 | the insert appends exactly the stat row (next key, snapshot, code, data); no other table changes |
| Schema.DeleteStatsOf | bdata_stat.py:31 | afterwards the snapshot has no stat row and every other snapshot keeps its rows; no other table changes |
| Schema.DeleteLinesOf | bdata_stat.py:40-41 | afterwards the snapshot has no bid and no ask line and every other snapshot keeps its lines; no other table changes |
| Schema.MarkStatDoneOf | bdata_stat.py:38 | the snapshot's flag becomes true and every other row's flag, NULL included, is exactly as before; every other column of every row is kept |
| Schema.DeleteSnapCascade | bdata_model.py:53-78 | the declared `ondelete='cascade'`: the snapshot's key goes, with its stat rows, bids and asks; every other snapshot keeps its rows and the registry and trades are untouched |
| Schema.StatsOfDropAll | bdata_model.py:56 | deleting by snapshot id empties that snapshot's stat rows and keeps every other snapshot's |
| Schema.LinesOfDropAll | bdata_model.py:66 | deleting by snapshot id empties that snapshot's lines and keeps every other snapshot's |
| Schema.LinesOfAppend | bdata_model.py:66 | an appended line becomes the last line of its own snapshot and of no other |
| Schema.StatsOfAppend | bdata_model.py:56 | an appended stat row becomes the last row of its own snapshot and of no other |
| Schema.LinesOfConcat | bdata_model.py:66 | a snapshot's lines in two runs of rows are its lines in the first followed by those in the second |
| Schema.Database.constructor | bdata_model.py:12-94 | a new database is empty and valid |
| Schema.Database.AddExchange | bdata.py:59-61 | appends one exchange row under the next key and returns that key |
| Schema.Database.AddToken | bdata.py:66-68 | appends one token row, or fails with a unique violation when the symbol is stored |
| Schema.Database.AddMarket | bdata.py:80-83 | appends one market row under the next key and returns that key |
| Schema.Database.AddBookSnap | bdata.py:99-100 | appends one snapshot header with a NULL stat flag |
| Schema.Database.AddBookLine | bdata.py:103-106 | appends one bid or ask line of the snapshot |
| Schema.Database.AddTrade | bdata.py:166-172 | appends one trade row |
| Schema.Database.DeleteStats | bdata_stat.py:31 | removes exactly the snapshot's stat rows |
| Schema.Database.AddStat | bdata_stat.py:35 | appends one stat row for the snapshot |
| Schema.Database.MarkStatDone | bdata_stat.py:38 | sets the snapshot's flag to true |
| Schema.Database.DeleteLines | bdata_stat.py:40-41 | removes exactly the snapshot's bid and ask lines |
| Capture.BookLimit | bdata.py:47-53 | the depth is 100 for kucoin, 150 for fcoin and fcoinjp, 50 otherwise |
| Capture.DecimalizeLines | bdata.py:41-44 | one converted pair per line, same length and order |
| Capture.Decimalize | bdata.py:41-44 | bids and asks keep their lengths, and each pair is converted in place, so both sides keep the exchange's order |
| Capture.DecimalizeRecovers | bdata.py:41-44 | when converting back undoes the conversion on every value (`str` of a float reads back as that float), the decimalized book converts back to the fetched book: no price, amount or order is lost |
| Capture.DecimalizeLinesRecovers | bdata.py:42-43 | the same for one side's list of pairs |
| Capture.Lookup | bdata.py:56-85 | a market found for (exchange, base, quote) is made of rows carrying those symbols and its triple |
| Capture.LookupFound | bdata.py:57-78 | when all four queries succeed, the lookup returns their rows |
| Capture.ExchangeIndexAppend | bdata.py:57-61 | after an insert, the exchange query finds the earlier row if there was one, else the new row iff it matches |
| Capture.TokenIndexAppend | bdata.py:63-74 | the same for the token query |
| Capture.MarketIndexAppend | bdata.py:76-83 | the same for the market query |
| Capture.TokenIndexPrefix | bdata.py:63-70 | a token found in the list read earlier is found at the same place in the current table |
| Capture.ExchangeStep | bdata.py:57-61 | the exchange step adds at most one row, changes nothing else, and afterwards the symbol is stored under the id returned; nothing changes when it was stored |
| Capture.TokenStepEffect | bdata.py:63-74 | a token step adds at most one token; it fails iff the symbol is missing from the list read but present in the table; on success the symbol is stored under the id returned |
| Capture.TokensStage | bdata.py:63-74 | the two token steps add at most two tokens, fail iff base == quote and that symbol is new, and otherwise store both under the ids returned |
| Capture.MarketStep | bdata.py:76-83 | the market step adds at most one market; afterwards the triple is stored under the id returned; nothing changes when it was stored |
| Capture.RegisterExchange | bdata.py:57-61 | the exchange step only appends to the registry tables and changes no other table |
| Capture.TokenStep | bdata.py:63-68 | a token step only appends to the registry tables |
| Capture.RegisterTokens | bdata.py:63-74 | the two token steps only append to the registry tables |
| Capture.RegisterMarket | bdata.py:76-83 | the market step only appends to the registry tables |
| Capture.Register | bdata.py:56-85 | `ensure_exchange_market` only appends to the exchange, token and market tables and changes no other table |
| Capture.RegisterCorrect | bdata.py:56-85 | `ensure_exchange_market` keeps all constraints, only grows the three registry tables, fails exactly in the stale-list case, and on success the lookup returns its result |
| Capture.RegisterIdempotent | bdata.py:56-85 | with everything already registered the call changes nothing and returns the stored rows |
| Capture.RegisterTwice | bdata.py:56-85 | a second call with the same arguments creates nothing and returns the same rows |
| Capture.GetOrAddExchange | bdata.py:57-61 | the exchange step on the session |
| Capture.GetOrAddTokens | bdata.py:63-74 | the two token steps on the session, looking up the stale list |
| Capture.GetOrAddMarket | bdata.py:76-83 | the market step on the session |
| Capture.EnsureExchangeMarket | bdata.py:56-85 | the session ends as `Register` says and stays valid |
| Capture.MarketSymbol | bdata.py:101 | the symbol is base, '/', quote |
| Capture.AddLinesEffect | bdata.py:103-106 | appending a side's lines gives that snapshot exactly those pairs after its earlier ones, leaves every other snapshot's lines on that side as they were, and leaves the other side alone |
| Capture.AddLines | bdata.py:103-106 | appending a side's lines adds exactly one row per pair, in order, under consecutive keys, to that side's table only |
| Capture.NewLines | bdata.py:103-106 | one new line row per pair |
| Capture.NewLinesLast | bdata.py:103-106 | the rows for the pairs are the rows for all but the last pair followed by one row for the last |
| Capture.LinesOfNew | bdata.py:103-106 | the new rows hold exactly the pairs as the snapshot's lines and no line of any other snapshot |
| Capture.AddLinesValid | bdata.py:103-106 | lines appended to an existing snapshot keep all constraints |
| Capture.WriteSnapEffect | bdata.py:99-107 | writing a snapshot keeps all constraints and adds exactly one header, with a fresh id and a NULL flag |
| Capture.WriteSnap | bdata.py:99-107 | writing a snapshot appends one header under the next key and as many bid and ask rows as the book has pairs, and changes no other table |
| Capture.WriteSnapLines | bdata.py:99-107 | the new snapshot's bids and asks are exactly the book's pairs in order; every other snapshot's lines are unchanged |
| Capture.RegisteredMarket | bdata.py:92 | a successful registration yields a stored market id |
| Capture.SnapBookValid | bdata.py:88-110 | the capture keeps all constraints; it writes a snapshot iff registration succeeds, none exists for (market, ts) and the fetch succeeds; otherwise only the registration's rows remain |
| Capture.SnapBook | bdata.py:88-110 | the capture never changes stats or trades; it adds one header with the id it reports when it takes a snapshot, and no header or line otherwise |
| Capture.SnapBookWrites | bdata.py:92-107 | a snapshot is taken exactly when registration succeeds, no snapshot exists for (market, ts) and the fetch succeeds, and it is the decimalized book written after registration |
| Capture.SnapBookTaken | bdata.py:94-107 | a written snapshot is one new header under a fresh key with a NULL flag; the bid and ask tables grow by exactly as many rows as the fetched book has pairs on each side; stats, trades and registry are untouched |
| Capture.SnapBookLines | bdata.py:99-107 | the new snapshot's lines are the decimalized book's pairs in order on each side; no other snapshot gains or loses a line |
| Capture.SnapBookExisting | bdata.py:94-97 | with a snapshot stored for (market, ts), the call changes nothing |
| Capture.SnapBookTwice | bdata.py:94-97 | a second capture of the same tick changes nothing, whatever the exchange returns |
| Capture.AddLinesStep | bdata.py:103-106 | one more pair of the side is one more line insert after those of the earlier pairs |
| Capture.AppendLines | bdata.py:103-106 | the loop appending one side's lines |
| Capture.SnapMarketBook | bdata.py:88-110 | the session ends as `SnapBook` says and stays valid |
| Trades.LastTradeIndex | bdata.py:120-122 | the market's trade with the highest trade_id; None iff the market has no trade |
| Trades.LastRowIsLast | bdata.py:120-125 | with keys increasing, the market's last stored row is its highest trade_id |
| Trades.AppendedLast | bdata.py:120-125 | after rows are appended under increasing keys, the last of them is its market's highest trade_id, hence the next resume point |
| Trades.BootstrapSince | bdata.py:129 | a multiple of a day, and exactly `yday` days before the current day's midnight |
| Trades.LastTrade | bdata.py:120-125 | `last` is the market's row with the highest trade_id, stored in the table; None exactly when the market has no trade |
| Trades.ResumeEid | bdata.py:132-135 | the resume id is the stored eid exactly when there is a last trade with a non-empty eid |
| Trades.PaginateOvershoot | bdata.py:136 | since the cap is checked before each fetch, the list can pass TRADES_LIMIT by less than one page |
| Trades.Paginate | bdata.py:136-145 | the fetch loop only appends pages, and returns the list unchanged when the cap or the clock already stops it |
| Trades.PaginateCaughtUp | bdata.py:138-140 | a page ending with the id seen last stops the loop without appending it |
| Trades.PaginateEmptyPage | bdata.py:144-145 | an empty page stops the loop with the list unchanged |
| Trades.PaginateStep | bdata.py:141-143 | any other page is appended whole, and the loop continues from its last trade's timestamp and id |
| Trades.FetchPages | bdata.py:130-145 | the while loop computes the pagination function |
| Trades.DedupFirst | bdata.py:148-155 | the collapse keeps the first run's id at the front |
| Trades.DedupLast | bdata.py:148-155 | the collapse keeps the last trade |
| Trades.DedupNoAdjacent | bdata.py:148-155 | no two adjacent trades of the result share an id |
| Trades.DedupKeeps | bdata.py:148-155 | a list without adjacent duplicates is unchanged |
| Trades.DedupIdempotent | bdata.py:148-155 | collapsing twice is collapsing once |
| Trades.DedupRunEnds | bdata.py:152-153 | the result is a subsequence of the input and every trade kept is the last of its run |
| Trades.RunEndsKept | bdata.py:152-153 | every run's last trade is kept, so non-adjacent repeats survive |
| Trades.DedupDelete | bdata.py:152-153 | deleting `at[i-1]` when it repeats `at[i]` does not change the collapse |
| Trades.Dedup | bdata.py:148-155 | the collapse is no longer than its input, empty iff the input is, and holds only trades of the input |
| Trades.CollapseDuplicates | bdata.py:148-155 | the restart-after-delete loop computes the collapse |
| Trades.IdIndex | bdata.py:157-159 | the first position with the id; None iff absent |
| Trades.Resume | bdata.py:156-161 | the trim keeps a suffix, and keeps everything when there is no resume id |
| Trades.ResumeAfterFirst | bdata.py:156-161 | when the id occurs, exactly the trades after its first occurrence are kept |
| Trades.ResumeAbsent | bdata.py:156-161 | when the id does not occur, all trades are kept |
| Trades.TrimCursor | bdata.py:156-161 | the index walk computes the trim |
| Trades.NoAdjacentSuffix | bdata.py:156-161 | trimming a list without adjacent duplicates leaves none |
| Trades.Kept | bdata.py:130-161 | the trades kept after paging, collapsing and trimming have no two adjacent with the same id |
| Trades.Numeric | bdata.py:170-171 | a falsy price or amount is stored as 0, any other as its exact value |
| Trades.ToRow | bdata.py:167-172 | side is "B" iff the trade's side is "buy", else "S"; timestamp and id are kept |
| Trades.StartId | bdata.py:132-135 | `last_id` is the truthy stored eid when there is one, else the empty string |
| Trades.StoredTrade | bdata.py:165-172 | the stored `Trade(...)`: the given key and market, the trade's timestamp and id, side "B" iff "buy" (one character), converted price and amount, and `fee` NULL |
| Trades.StoredRows | bdata.py:165-172 | one row per kept trade, in order, under consecutive keys |
| Trades.StoredRowsLast | bdata.py:165-172 | the rows for the trades are the rows for all but the last followed by one row for the last |
| Trades.InsertTrades | bdata.py:165-172 | the insert loop appends exactly the rows of the kept trades in order, under consecutive keys from the next key, and changes no other table |
| Trades.InsertTradesStep | bdata.py:165-172 | one more trade of the list is one more insert after the inserts of the earlier ones |
| Trades.InsertTradesValid | bdata.py:165-172 | trades inserted for an existing market keep all constraints |
| Trades.StoreKeptEffect | bdata.py:163-178 | a failed fetch stores nothing; otherwise the kept trades are appended in order and counted |
| Trades.StoreKept | bdata.py:163-178 | trades are stored iff the fetch succeeded; a failed fetch changes nothing; otherwise as many rows are appended as trades were kept, and only the trades table and the key sequence change |
| Trades.IngestTradesValid | bdata.py:113-180 | `snap_trades` keeps all constraints; on success the trades table gains exactly the rows of the kept trades, otherwise only the registration's rows remain |
| Trades.IngestTrades | bdata.py:113-180 | `snap_trades` never changes snapshots, stats or lines, only appends trades, and appends none unless it stores |
| Trades.IngestTradesResumes | bdata.py:120-172 | after storing trades, the market's resume point is the last kept trade: same timestamp, same id |
| Trades.AppendTrades | bdata.py:165-172 | the insert loop on the session |
| Trades.SnapTrades | bdata.py:113-180 | the session ends as `IngestTrades` says and stays valid |
| Schedule.PyMod | bdata.py:208 | Python's `%`: the remainder has the divisor's sign and is smaller in magnitude |
| Schedule.PyDiv | bdata.py:208 | Python's `//` floors: for a positive divisor the quotient times the divisor is at most the dividend and within one divisor of it, and symmetrically for a negative one |
| Schedule.LastTs | bdata.py:204-209 | `last_ts` is undefined exactly for a zero interval |
| Schedule.LastTsAligned | bdata.py:204-209 | the tick is at or before now, less than one interval before it, and a whole number of intervals past midnight |
| Schedule.Ticks | bdata.py:253-266 | at most one tick per poll, and the first tick is the initial `last_ts()` when the first poll is already past it |
| Schedule.TicksAbove | bdata.py:253-266 | no tick dispatched is earlier than the first |
| Schedule.TicksIncrease | bdata.py:255-266 | the ticks dispatched strictly increase |
| Schedule.RunTicks | bdata.py:253-266 | the main loop's tick bookkeeping computes the tick sequence |
| Schedule.Split | bdata.py:229-231 | splitting on ',' gives at least one part, none containing ',' |
| Schedule.JoinSplit | bdata.py:229-231 | joining the parts with ',' gives back the argument |
| Schedule.SplitJoin | bdata.py:229-231 | splitting the join of comma-free parts gives back the parts |
| Schedule.SplitNoComma | bdata.py:229-231 | an argument without ',' is a one-element list |
| Schedule.MarketFilterWildcard | bdata.py:192-197 | with both lists '*', a market passes iff base and quote are non-empty and the symbol holds '/' |
| Schedule.MarketFilterNamed | bdata.py:192-197 | when neither list starts with '*', a market passes iff additionally base and quote are in their lists |
| Schedule.MarketFilter | bdata.py:192-197 | a market passes only with non-empty base and quote, a '/' in its symbol, and base and quote listed or the list a wildcard; conversely every market meeting all of these passes, whichever list is a wildcard |
| Schedule.ExchangeFilter | bdata.py:200-201 | an exchange passes only if each of the three capabilities is supported or emulated, and always passes when all three are supported |
| Schedule.ExchangeFilterEmulated | bdata.py:200-201 | for all capabilities: the filter does not distinguish emulated from supported, an unsupported capability in any position rejects, and it passes iff all three are supported once emulated counts as supported |
| Schedule.RemoveFirst | bdata.py:227 | `list.remove` yields one element fewer (what it removes and keeps is stated by `RemoveFirstSpec` and `RemoveFirstAt`) |
| Schedule.IndexOf | bdata.py:227 | the position `list.remove` works at holds the element and no earlier position does |
| Schedule.RemoveFirstSpec | bdata.py:227 | some position holds the first occurrence and the result is the list around it; as multisets exactly one copy of the element is gone |
| Schedule.RemoveFirstAt | bdata.py:227 | after the removal, positions before the first occurrence keep their element and later ones hold the next element |
| Schedule.RemoveFirstKeeps | bdata.py:227 | every element other than the one removed is still in the list |
| Schedule.RemoveEach | bdata.py:225-227 | removing the disabled names one after the other removes at most one element per disabled name |
| Schedule.RemoveEachSub | bdata.py:225-227 | the removals only take elements away: the result is a sub-multiset of the list |
| Schedule.RemoveEachStep | bdata.py:225-227 | one more disabled name removes its first occurrence when present, else nothing |
| Schedule.RemoveAll | bdata.py:225-227 | the `for e in DISABLED_EXCHANGES` loop computes the removals |
| Schedule.RemoveFirstDistinct | bdata.py:225-227 | on a list without repeats, removing drops exactly that name |
| Schedule.RemoveEachDistinct | bdata.py:225-227 | the exchange list is all exchanges except the disabled ones |
| Schedule.ExchangeList | bdata.py:223-229 | '*' gives all exchanges minus the disabled ones, anything else its comma-separated names |
| DepthStat.DigitChar | bdata_stat.py:34 | the character of one decimal digit |
| DepthStat.Decimal | bdata_stat.py:34 | `n::text` is non-empty, one character iff n < 10, ends with n's last digit, and has no leading zero |
| DepthStat.DecimalValue | bdata_stat.py:34 | `n::text` is made of digits that read back as n, so the codes are r1..r20, r30..r100 |
| DepthStat.DecimalInjective | bdata_stat.py:34 | different numbers have different texts |
| DepthStat.StatCode | bdata_stat.py:34 | the code is 'r' followed by the number's text |
| DepthStat.StatCodeInjective | bdata_stat.py:34 | different depths have different codes |
| DepthStat.IncreasingApart | bdata_stat.py:17 | in an increasing array, a later depth is larger |
| DepthStat.ANIncreasing | bdata_stat.py:17 | the array 1..20, 30..100 increases |
| DepthStat.StatCodesDistinct | bdata_stat.py:17-34 | increasing depths give pairwise different codes, so the unique (book_snap_id, code) index holds |
| DepthStat.StatRows | bdata_stat.py:32-37 | one row per depth |
| DepthStat.StatPairs | bdata_stat.py:32-37 | one (code, data) pair per depth |
| DepthStat.InsertStatsLast | bdata_stat.py:32-37 | the `foreach` over the array is the loop over all but its last depth followed by one insert |
| DepthStat.StatRowsLast | bdata_stat.py:32-37 | the rows for the array are the rows for its prefix and one row for its last depth |
| DepthStat.StatPairsLast | bdata_stat.py:32-37 | the same for the (code, data) pairs |
| DepthStat.StatsOfRows | bdata_stat.py:32-37 | after the inserts, that snapshot's stat rows gain exactly one ('r'‖n, bookSnapStat(bsid, n)) per depth in order, and no other snapshot's change |
| DepthStat.RowsAvoidLast | bdata_stat.py:17-35 | with increasing depths, no row for an earlier depth takes the (snapshot, code) slot of the last depth |
| DepthStat.InsertStatsValid | bdata_stat.py:32-37 | inserting the rows for a snapshot without stat rows keeps all constraints |
| DepthStat.InsertStats | bdata_stat.py:32-37 | the `foreach` adds exactly one stat row per depth and changes nothing else but the key sequence |
| DepthStat.ProcessSnap | bdata_stat.py:31-38 | one round sets the chosen snapshot's flag to true and no other, keeps the snapshot count, and changes only stat rows, flags and one key per depth |
| DepthStat.ProcessSnapValid | bdata_stat.py:31-38 | one round keeps all constraints and the set of snapshots |
| DepthStat.ProcessSnapStats | bdata_stat.py:31-37 | after a round, the snapshot's stat rows are exactly one per depth, earlier rows replaced; other snapshots' rows unchanged |
| DepthStat.Pending | bdata_stat.py:24-25 | the selector is NULL iff no snapshot has `stat = false`; otherwise it is the highest such id |
| DepthStat.PendingIsKey | bdata_stat.py:24 | a pending id is a snapshot |
| DepthStat.PendingIdsMarked | bdata_stat.py:24-38 | marking a snapshot removes exactly it from the pending ids |
| DepthStat.Taken | bdata_stat.py:22-29 | the rounds take at most as many snapshots as rounds |
| DepthStat.ConsDecreasing | bdata_stat.py:24 | a larger id before a decreasing sequence keeps it decreasing |
| DepthStat.MembersCons | bdata_stat.py:22 | the ids of a sequence with one more in front are that id and the rest |
| DepthStat.PicksCons | bdata_stat.py:22-38 | the highest pending id in front of picks from the others keeps the picks decreasing and pending |
| DepthStat.TakenCons | bdata_stat.py:22-38 | a round that finds a pending snapshot takes it first and the remaining rounds run on the flags after it was marked |
| DepthStat.RestCons | bdata_stat.py:22-29 | one more round in front keeps every id left pending below the last one taken, and none pending after an early return |
| DepthStat.TakenPicks | bdata_stat.py:22-38 | the ids taken strictly decrease, so none is taken twice, and each was pending |
| DepthStat.TakenLeaves | bdata_stat.py:24-38 | after the rounds, the pending ids are the earlier ones minus those taken |
| DepthStat.TakenRest | bdata_stat.py:22-29 | every id still pending is below the last one taken, and none is left when the block returned early |
| DepthStat.MembersIn | bdata_stat.py:22 | membership in the taken sequence |
| DepthStat.MarkAllEffect | bdata_stat.py:38 | exactly the taken snapshots get `stat = true`; no other flag changes |
| DepthStat.MarkAll | bdata_stat.py:38 | marking keeps every snapshot row and its id in place |
| DepthStat.ProcessAllFrame | bdata_stat.py:22-39 | the rounds change only stat rows, flags and the key sequence |
| DepthStat.ProcessAllStats | bdata_stat.py:31-37 | after the rounds, every taken snapshot has exactly one row per depth; all others keep theirs |
| DepthStat.ProcessAllValid | bdata_stat.py:22-39 | the rounds keep all constraints |
| DepthStat.ProcessAll | bdata_stat.py:22-39 | the rounds keep the snapshot count, use one key per stat row inserted, and change only stat rows and flags |
| DepthStat.StatBatchValid | bdata_stat.py:14-42 | one run of the block keeps all constraints |
| DepthStat.StatBatchPending | bdata_stat.py:22-38 | a run takes at most 10 snapshots, in strictly decreasing order, all pending; exactly they get `stat = true`; whatever is still pending is below them; and nothing is pending after an early return |
| DepthStat.StatBatchStats | bdata_stat.py:31-37 | after a run, each taken snapshot has exactly one stat row per depth and every other snapshot's rows are unchanged |
| DepthStat.StatBatchLines | bdata_stat.py:28-41 | lines are deleted only for the last snapshot taken and only when all 10 rounds ran; no other snapshot's lines and no registry or trade row change |
| DepthStat.StatBatch | bdata_stat.py:14-42 | one run keeps the snapshot count and never changes trades or the registry |
| DepthStat.ReplaceStats | bdata_stat.py:31-37 | the delete and the `foreach` insert loop on the session |
| DepthStat.ProcessAllSnoc | bdata_stat.py:22-39 | one more round extends the rounds by one snapshot |
| DepthStat.RunStep | bdata_stat.py:24-38 | the for loop's invariant is kept by a round |
| DepthStat.RunStopped | bdata_stat.py:25-29 | the early return ends the run with no line deletion |
| DepthStat.RunFinished | bdata_stat.py:39-41 | after ten rounds the line deletes complete the run |
| DepthStat.Round | bdata_stat.py:31-38 | one round on the session: delete stats, insert one per depth, mark processed |
| DepthStat.StatRun | bdata_stat.py:22-41 | the for loop with its early return computes one run of the block |
| DepthStat.MakeStat | bdata_stat.py:13-43 | the block with the depth array 1..20, 30..100 keeps the database valid and ends as one run says |
| Ohlcv.Min | bdata_agg.py:15 | the minimum is one of the prices and no price is below it |
| Ohlcv.Max | bdata_agg.py:16 | the maximum is one of the prices and no price is above it |
| Ohlcv.SumConcat | bdata_agg.py:19 | the sum of two arrays laid end to end is the sum of their sums |
| Ohlcv.Sum | bdata_agg.py:19 | 0 for no amounts, the amount itself for one, and non-negative for non-negative amounts; with SumConcat this fixes the total |
| Ohlcv.SumBounds | bdata_agg.py:19 | with non-negative amounts the volume is at least each amount |
| Ohlcv.AggOhlcv | bdata_agg.py:12-21 | low, high, open and close are NaN exactly for no prices; open is the first price and close the last; low and high are the minimum and maximum; volume is the sum of the amounts |
| Ohlcv.BarOrdered | bdata_agg.py:15-18 | low ≤ open ≤ high and low ≤ close ≤ high |
| Ohlcv.VolumeAdds | bdata_agg.py:19 | the volume is additive over consecutive groups, with 0 for an empty one |
| Ohlcv.BarMerge | bdata_agg.py:15-18 | the bar of two consecutive groups takes open from the first, close from the second, and the extremes of both |

## Left out

- Exchange calls (`fetch_order_book`, `fetch_trades`, `load_markets`, the `has` flags) are oracle parameters; the ccxt library is not part of this model.
- `exchange.milliseconds()` is a fixed `now` for the whole `snap_trades` call, so the loop condition `since < now` does not see the clock advance during paging; `datetime.now()` readings are `Clock` parameters.
- `Decimal(str(float))` is an opaque exact-value function `dec`; float formatting is not modelled.
- The server-side SQL function `bookSnapStat` is the parameter `f`; its body is not part of this model, nor is the rollback of the block when it raises.
- StatBatch / MakeStat: the block runs through `engine.connect()` and `con.execute(text("do $$ ... $$"))` (bdata_stat.py:12-13), and nothing in bdata_stat.py commits. The model takes one run's deletes, inserts and updates as stored. Whether they are depends on the engine and driver configuration (autocommit), which `bdata_db` sets and which is not part of this model. Without autocommit, the run is rolled back when the connection returns to the pool, and the tables stay as they were.
- Session plumbing: commits are not modelled separately. A raising fetch in `snap_market_book` or `snap_trades` leaves only the registry rows, which `ensure_exchange_market` committed. This matches the rollback of the uncommitted rows. Closing sessions is left out.
- Database constraints are enforced only where the code relies on them: the unique `token.symbol` fails a commit (`Schema.Database.AddToken`). `TablesValid` covers keys, the unique indexes and the foreign keys; the lemmas prove that the code's own checks keep those. NOT NULL columns are not part of `TablesValid`.
- A single key counter `nextId` stands in for the per-table autoincrement sequences. Keys are still fresh and increasing per table, but their actual values differ from the database's.
- `book_snap.mts` is not modelled. It is declared NOT NULL with no default (bdata_model.py:45), and `snap_market_book` never sets it (bdata.py:99). On a schema created from bdata_model.py alone, the commit at bdata.py:107 therefore fails with a NOT NULL violation: no snapshot is stored, the exception propagates, and `snap` (bdata.py:183-189) logs it and skips `snap_trades` for that market. The model assumes the deployed database supplies `mts` itself (bdata_db.py and the migrations are not part of this model), so in the model the header insert succeeds.
- String column lengths (`String(50)`, `String(32)`, `String(10)`) are not modelled.
- `Trade.fee` is always NULL, because the code never sets it.
- The thread pool, `deepcopy`, `concurrent.futures.wait`, `time.sleep` and the infinite `while True` loops of bdata.py and bdata_stat.py are concurrency and polling. The main loop is modelled as a sequence of polls (`Schedule.RunTicks`), and the stat loop as one run of its block.
- `snap` (exception logging), `logging`, `argparse`, `config.json`, proxies and timeouts are I/O and configuration.
- The pandas code of bdata_agg.py (`mydf`, `ohlcv`'s resampling, `agg`) is not modelled, only `agg_ohlcv`. Prices and amounts are reals, and NaN is `None`.
- bdata_db.py (engine setup) and the alembic migrations are not part of this model.
