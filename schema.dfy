/**
 * The tables of bdata_model.py as row datatypes, and the database that holds
 * them: one `seq` per table with the rows in insertion order, which is also
 * primary-key order because keys come from an increasing sequence.
 *
 * `TablesValid` states the schema's constraints over a `Tables` value:
 * primary keys, the unique keys (exchange.symbol, token.symbol, the
 * exchange_market triple, the book_snap_stat (book_snap_id, code) index),
 * foreign keys, and the one-character trade side. Its methods are the row
 * operations the capture and statistics code performs.
 */
module Schema {
  import opened Wrappers

  /** The JSONB text stored in book_snap_stat.data. */
  type Json = string

  datatype Exchange = Exchange(exchangeId: int, symbol: string)

  datatype Token = Token(tokenId: int, symbol: string)

  /** base/quote token ids are nullable columns; every writer sets them, so they are plain ints here. */
  datatype ExchangeMarket = ExchangeMarket(
    exchangeMarketId: int, exchangeId: int, baseTokenId: int, quoteTokenId: int, tradeTs: Option<int>)

  /** `stat` is a nullable boolean: None is SQL NULL. */
  datatype BookSnap = BookSnap(bookSnapId: int, exchangeMarketId: int, ts: int, stat: Option<bool>)

  datatype BookSnapStat = BookSnapStat(bookSnapStatId: int, bookSnapId: int, code: string, data: Json)

  /** book_snap_bid and book_snap_ask have the same columns. */
  datatype BookSide = Bid | Ask

  datatype BookLine = BookLine(lineId: int, bookSnapId: int, price: real, amount: real)

  datatype Trade = Trade(
    tradeId: int, exchangeMarketId: int, ts: int, side: string,
    price: real, amount: real, fee: Option<real>, eid: Option<string>)

  /** The constraint violation a commit can raise. */
  datatype DbError = UniqueViolation

  // Primary keys.
  function ExchangeKey(e: Exchange): int { e.exchangeId }
  function TokenKey(t: Token): int { t.tokenId }
  function MarketKey(m: ExchangeMarket): int { m.exchangeMarketId }
  function SnapKey(s: BookSnap): int { s.bookSnapId }
  function StatKey(s: BookSnapStat): int { s.bookSnapStatId }
  function LineKey(l: BookLine): int { l.lineId }
  function TradeKey(t: Trade): int { t.tradeId }

  // Unique keys.
  function ExchangeSymbol(e: Exchange): string { e.symbol }
  function TokenSymbol(t: Token): string { t.symbol }
  function MarketTriple(m: ExchangeMarket): (int, int, int) { (m.exchangeId, m.baseTokenId, m.quoteTokenId) }
  function StatSlot(s: BookSnapStat): (int, string) { (s.bookSnapId, s.code) }

  // Foreign keys.
  function MarketExchange(m: ExchangeMarket): int { m.exchangeId }
  function MarketBase(m: ExchangeMarket): int { m.baseTokenId }
  function MarketQuote(m: ExchangeMarket): int { m.quoteTokenId }
  function SnapMarket(s: BookSnap): int { s.exchangeMarketId }
  function StatSnap(s: BookSnapStat): int { s.bookSnapId }
  function LineSnap(l: BookLine): int { l.bookSnapId }
  function TradeMarket(t: Trade): int { t.exchangeMarketId }

  /** Keys are positive, below the next value of the sequence, and increase along the table. */
  ghost predicate KeysIncreasing<R>(rows: seq<R>, key: R -> int, next: int) {
    && (forall i :: 0 <= i < |rows| ==> 1 <= key(rows[i]) < next)
    && (forall i, j :: 0 <= i < j < |rows| ==> key(rows[i]) < key(rows[j]))
  }

  ghost predicate Unique<R, K>(rows: seq<R>, key: R -> K) {
    forall i, j :: 0 <= i < j < |rows| ==> key(rows[i]) != key(rows[j])
  }

  ghost function KeySet<R>(rows: seq<R>, key: R -> int): set<int> {
    set i | 0 <= i < |rows| :: key(rows[i])
  }

  ghost predicate References<R, S>(rows: seq<R>, fk: R -> int, parents: seq<S>, pk: S -> int) {
    KeySet(rows, fk) <= KeySet(parents, pk)
  }

  ghost predicate RegistryValid(exchanges: seq<Exchange>, tokens: seq<Token>, markets: seq<ExchangeMarket>, next: int) {
    && KeysIncreasing(exchanges, ExchangeKey, next) && Unique(exchanges, ExchangeSymbol)
    && KeysIncreasing(tokens, TokenKey, next) && Unique(tokens, TokenSymbol)
    && KeysIncreasing(markets, MarketKey, next) && Unique(markets, MarketTriple)
    && References(markets, MarketExchange, exchanges, ExchangeKey)
    && References(markets, MarketBase, tokens, TokenKey)
    && References(markets, MarketQuote, tokens, TokenKey)
  }

  ghost predicate SnapsValid(snaps: seq<BookSnap>, markets: seq<ExchangeMarket>, next: int) {
    KeysIncreasing(snaps, SnapKey, next) && References(snaps, SnapMarket, markets, MarketKey)
  }

  ghost predicate StatsValid(stats: seq<BookSnapStat>, snaps: seq<BookSnap>, next: int) {
    && KeysIncreasing(stats, StatKey, next) && Unique(stats, StatSlot)
    && References(stats, StatSnap, snaps, SnapKey)
  }

  ghost predicate LinesValid(lines: seq<BookLine>, snaps: seq<BookSnap>, next: int) {
    KeysIncreasing(lines, LineKey, next) && References(lines, LineSnap, snaps, SnapKey)
  }

  ghost predicate TradesValid(trades: seq<Trade>, markets: seq<ExchangeMarket>, next: int) {
    && KeysIncreasing(trades, TradeKey, next) && References(trades, TradeMarket, markets, MarketKey)
    && (forall i :: 0 <= i < |trades| ==> |trades[i].side| <= 1)
  }

  /** Index of the first row satisfying `p`: `query(...).first()` and `next(gen, None)`. */
  function FirstIndex<R>(rows: seq<R>, p: R -> bool): (r: Option<nat>)
    ensures r.Some? ==> r.value < |rows| && p(rows[r.value])
    ensures r.Some? ==> forall j :: 0 <= j < r.value ==> !p(rows[j])
    ensures r.None? ==> forall j :: 0 <= j < |rows| ==> !p(rows[j])
  {
    if |rows| == 0 then None
    else if p(rows[0]) then Some(0)
    else match FirstIndex(rows[1..], p)
      case None => None
      case Some(k) => Some(k + 1)
  }

  function ExchangeIndex(rows: seq<Exchange>, symbol: string): (r: Option<nat>)
    ensures r.Some? ==> r.value < |rows| && rows[r.value].symbol == symbol
    ensures r.Some? ==> forall j :: 0 <= j < r.value ==> rows[j].symbol != symbol
    ensures r.None? <==> forall j :: 0 <= j < |rows| ==> rows[j].symbol != symbol
  {
    FirstIndex(rows, (e: Exchange) => e.symbol == symbol)
  }

  function TokenIndex(rows: seq<Token>, symbol: string): (r: Option<nat>)
    ensures r.Some? ==> r.value < |rows| && rows[r.value].symbol == symbol
    ensures r.Some? ==> forall j :: 0 <= j < r.value ==> rows[j].symbol != symbol
    ensures r.None? <==> forall j :: 0 <= j < |rows| ==> rows[j].symbol != symbol
  {
    FirstIndex(rows, (t: Token) => t.symbol == symbol)
  }

  function MarketIndex(rows: seq<ExchangeMarket>, e: int, b: int, q: int): (r: Option<nat>)
    ensures r.Some? ==> r.value < |rows| && MarketTriple(rows[r.value]) == (e, b, q)
    ensures r.Some? ==> forall j :: 0 <= j < r.value ==> MarketTriple(rows[j]) != (e, b, q)
    ensures r.None? <==> forall j :: 0 <= j < |rows| ==> MarketTriple(rows[j]) != (e, b, q)
  {
    FirstIndex(rows, (m: ExchangeMarket) => MarketTriple(m) == (e, b, q))
  }

  function SnapIndex(rows: seq<BookSnap>, market: int, ts: int): (r: Option<nat>)
    ensures r.Some? ==> r.value < |rows| && rows[r.value].exchangeMarketId == market && rows[r.value].ts == ts
    ensures r.Some? ==> forall j :: 0 <= j < r.value ==> !(rows[j].exchangeMarketId == market && rows[j].ts == ts)
    ensures r.None? <==> forall j :: 0 <= j < |rows| ==> !(rows[j].exchangeMarketId == market && rows[j].ts == ts)
  {
    FirstIndex(rows, (s: BookSnap) => s.exchangeMarketId == market && s.ts == ts)
  }

  /** The rows whose foreign key `fk` is not `id`: `delete from ... where fk = id`. */
  function Drop<R>(rows: seq<R>, fk: R -> int, id: int): (r: seq<R>)
    ensures |r| <= |rows|
  {
    if |rows| == 0 then []
    else
      var rest := Drop(rows[..|rows| - 1], fk, id);
      if fk(rows[|rows| - 1]) == id then rest else rest + [rows[|rows| - 1]]
  }

  /** Exactly the rows whose foreign key is not `id` survive a delete. */
  lemma {:induction false} DropMembers<R>(rows: seq<R>, fk: R -> int, id: int, x: R)
    ensures x in Drop(rows, fk, id) <==> x in rows && fk(x) != id
    decreases |rows|
  {
    if |rows| > 0 {
      var init := rows[..|rows| - 1];
      DropMembers(init, fk, id, x);
      assert rows == init + [rows[|rows| - 1]];
    }
  }

  /** `update book_snap set stat = true where book_snap_id = id`. */
  function WithStatDone(snaps: seq<BookSnap>, id: int): (r: seq<BookSnap>)
    ensures |r| == |snaps|
    ensures forall i :: 0 <= i < |snaps| ==> r[i].bookSnapId == snaps[i].bookSnapId
    ensures forall i :: 0 <= i < |snaps| ==> r[i].stat == (if snaps[i].bookSnapId == id then Some(true) else snaps[i].stat)
    ensures forall i :: 0 <= i < |snaps| ==> r[i].exchangeMarketId == snaps[i].exchangeMarketId && r[i].ts == snaps[i].ts
  {
    seq(|snaps|, i requires 0 <= i < |snaps| =>
      if snaps[i].bookSnapId == id then snaps[i].(stat := Some(true)) else snaps[i])
  }

  /** The (price, amount) pairs of one snapshot's bid or ask lines, in table order. */
  ghost function LinesOf(lines: seq<BookLine>, sid: int): seq<(real, real)> {
    if |lines| == 0 then []
    else
      var l := lines[|lines| - 1];
      LinesOf(lines[..|lines| - 1], sid) + (if l.bookSnapId == sid then [(l.price, l.amount)] else [])
  }

  /** The (code, data) pairs of one snapshot's stat rows, in table order. */
  ghost function StatsOf(stats: seq<BookSnapStat>, sid: int): seq<(string, Json)> {
    if |stats| == 0 then []
    else
      var s := stats[|stats| - 1];
      StatsOf(stats[..|stats| - 1], sid) + (if s.bookSnapId == sid then [(s.code, s.data)] else [])
  }

  lemma KeySetAppend<R>(rows: seq<R>, key: R -> int, r: R)
    ensures KeySet(rows + [r], key) == KeySet(rows, key) + {key(r)}
  {
    var rs := rows + [r];
    forall k | k in KeySet(rows, key) ensures k in KeySet(rs, key) {
      var i :| 0 <= i < |rows| && key(rows[i]) == k;
      assert rs[i] == rows[i];
    }
    assert rs[|rows|] == r;
  }

  /** The next value of the key sequence is not yet a key of the table. */
  lemma NextKeyFresh<R>(rows: seq<R>, key: R -> int, next: int)
    requires KeysIncreasing(rows, key, next)
    ensures next !in KeySet(rows, key)
  {
  }

  lemma AppendKey<R>(rows: seq<R>, key: R -> int, next: int, r: R)
    requires KeysIncreasing(rows, key, next) && key(r) == next && next >= 1
    ensures KeysIncreasing(rows + [r], key, next + 1)
    ensures KeySet(rows + [r], key) == KeySet(rows, key) + {next}
  {
    var rs := rows + [r];
    forall k | k in KeySet(rows, key) ensures k in KeySet(rs, key) {
      var i :| 0 <= i < |rows| && key(rows[i]) == k;
      assert rs[i] == rows[i];
    }
    assert rs[|rows|] == r;
  }

  lemma RaiseBound<R>(rows: seq<R>, key: R -> int, next: int, next': int)
    requires KeysIncreasing(rows, key, next) && next <= next'
    ensures KeysIncreasing(rows, key, next')
  {
  }

  lemma ReferencesGrow<R, S>(rows: seq<R>, fk: R -> int, parents: seq<S>, parents': seq<S>, pk: S -> int)
    requires References(rows, fk, parents, pk) && KeySet(parents, pk) <= KeySet(parents', pk)
    ensures References(rows, fk, parents', pk)
  {
  }

  lemma ReferencesAppend<R, S>(rows: seq<R>, r: R, fk: R -> int, parents: seq<S>, pk: S -> int)
    requires References(rows, fk, parents, pk) && fk(r) in KeySet(parents, pk)
    ensures References(rows + [r], fk, parents, pk)
  {
    var rs := rows + [r];
    forall i | 0 <= i < |rs| ensures fk(rs[i]) in KeySet(parents, pk) {
      if i < |rows| { assert rs[i] == rows[i]; }
    }
  }

  /** Deleting rows keeps the primary keys increasing and a unique key unique. */
  lemma {:induction false} DropKeepsKeys<R(!new), K>(rows: seq<R>, fk: R -> int, id: int, pk: R -> int, uk: R -> K, next: int)
    requires KeysIncreasing(rows, pk, next) && Unique(rows, uk)
    ensures KeysIncreasing(Drop(rows, fk, id), pk, next) && Unique(Drop(rows, fk, id), uk)
    decreases |rows|
  {
    if |rows| > 0 {
      var init := rows[..|rows| - 1];
      var last := rows[|rows| - 1];
      assert KeysIncreasing(init, pk, next) && Unique(init, uk);
      DropKeepsKeys(init, fk, id, pk, uk, next);
      var rest := Drop(init, fk, id);
      if fk(last) != id {
        var r := rest + [last];
        forall i | 0 <= i < |rest| ensures pk(rest[i]) < pk(last) && uk(rest[i]) != uk(last) {
          DropMembers(init, fk, id, rest[i]);
          var k :| 0 <= k < |init| && init[k] == rest[i];
          assert rows[k] == init[k];
        }
        forall i, j | 0 <= i < j < |r| ensures pk(r[i]) < pk(r[j]) && uk(r[i]) != uk(r[j]) {
          if j < |rest| { assert r[i] == rest[i] && r[j] == rest[j]; }
          else { assert r[i] == rest[i] && r[j] == last; }
        }
        forall i | 0 <= i < |r| ensures 1 <= pk(r[i]) < next {
          if i < |rest| {
            DropMembers(init, fk, id, rest[i]);
            var k :| 0 <= k < |init| && init[k] == rest[i];
            assert rows[k] == init[k];
          } else {
            assert r[i] == rows[|rows| - 1];
          }
        }
      }
    }
  }

  lemma DropReferences<R(!new), S>(rows: seq<R>, fk: R -> int, id: int, ref: R -> int, parents: seq<S>, pk: S -> int)
    requires References(rows, ref, parents, pk)
    ensures References(Drop(rows, fk, id), ref, parents, pk)
  {
    var r := Drop(rows, fk, id);
    forall i | 0 <= i < |r| ensures ref(r[i]) in KeySet(parents, pk) {
      DropMembers(rows, fk, id, r[i]);
      var k :| 0 <= k < |rows| && rows[k] == r[i];
    }
  }

  lemma AppendUnique<R, K>(rows: seq<R>, uk: R -> K, r: R)
    requires Unique(rows, uk) && forall i :: 0 <= i < |rows| ==> uk(rows[i]) != uk(r)
    ensures Unique(rows + [r], uk)
  {
    var rs := rows + [r];
    forall i, j | 0 <= i < j < |rs| ensures uk(rs[i]) != uk(rs[j]) {
      assert rs[i] == rows[i];
      if j < |rows| { assert rs[j] == rows[j]; }
    }
  }

  lemma WithStatDoneKeys(snaps: seq<BookSnap>, id: int, next: int)
    requires KeysIncreasing(snaps, SnapKey, next)
    ensures KeysIncreasing(WithStatDone(snaps, id), SnapKey, next)
    ensures KeySet(WithStatDone(snaps, id), SnapKey) == KeySet(snaps, SnapKey)
  {
    var r := WithStatDone(snaps, id);
    forall k | k in KeySet(snaps, SnapKey) ensures k in KeySet(r, SnapKey) {
      var i :| 0 <= i < |snaps| && SnapKey(snaps[i]) == k;
      assert SnapKey(r[i]) == k;
    }
  }

  lemma IncreasingUnique<R>(rows: seq<R>, key: R -> int, next: int)
    requires KeysIncreasing(rows, key, next)
    ensures Unique(rows, key)
  {
  }

  lemma DropKeySet<R(!new)>(rows: seq<R>, key: R -> int, id: int)
    ensures KeySet(Drop(rows, key, id), key) == KeySet(rows, key) - {id}
  {
    var r := Drop(rows, key, id);
    forall k | k in KeySet(rows, key) - {id} ensures k in KeySet(r, key) {
      var i :| 0 <= i < |rows| && key(rows[i]) == k;
      DropMembers(rows, key, id, rows[i]);
      var j :| 0 <= j < |r| && r[j] == rows[i];
    }
    forall k | k in KeySet(r, key) ensures k in KeySet(rows, key) - {id} {
      var j :| 0 <= j < |r| && key(r[j]) == k;
      DropMembers(rows, key, id, r[j]);
      var i :| 0 <= i < |rows| && rows[i] == r[j];
    }
  }

  /** Rows none of which points at `id` still reference the parents once `id` is deleted from them. */
  lemma ReferencesDropParent<R(!new), S(!new)>(rows: seq<R>, fk: R -> int, parents: seq<S>, pk: S -> int, id: int)
    requires References(rows, fk, parents, pk)
    requires forall i :: 0 <= i < |rows| ==> fk(rows[i]) != id
    ensures References(rows, fk, Drop(parents, pk, id), pk)
  {
    DropKeySet(parents, pk, id);
  }

  lemma LinesOfAppend(lines: seq<BookLine>, l: BookLine, sid: int)
    ensures LinesOf(lines + [l], sid) == LinesOf(lines, sid) + (if l.bookSnapId == sid then [(l.price, l.amount)] else [])
  {
    assert (lines + [l])[..|lines|] == lines;
  }

  lemma StatsOfAppend(stats: seq<BookSnapStat>, st: BookSnapStat, sid: int)
    ensures StatsOf(stats + [st], sid) == StatsOf(stats, sid) + (if st.bookSnapId == sid then [(st.code, st.data)] else [])
  {
    assert (stats + [st])[..|stats|] == stats;
  }

  /** The lines of two tables laid end to end are the first table's, then the second's. */
  lemma {:induction false} LinesOfConcat(a: seq<BookLine>, b: seq<BookLine>, sid: int)
    ensures LinesOf(a + b, sid) == LinesOf(a, sid) + LinesOf(b, sid)
    decreases |b|
  {
    if |b| > 0 {
      var b0, l := b[..|b| - 1], b[|b| - 1];
      LinesOfConcat(a, b0, sid);
      assert a + b == (a + b0) + [l];
      LinesOfAppend(a + b0, l, sid);
    } else {
      assert a + b == a;
    }
  }

  /** A snapshot that is not in the table has no lines. */
  lemma {:induction false} LinesOfAbsent(lines: seq<BookLine>, snaps: seq<BookSnap>, sid: int)
    requires References(lines, LineSnap, snaps, SnapKey) && sid !in KeySet(snaps, SnapKey)
    ensures LinesOf(lines, sid) == []
    decreases |lines|
  {
    if |lines| > 0 {
      var init := lines[..|lines| - 1];
      assert LineSnap(lines[|lines| - 1]) in KeySet(snaps, SnapKey);
      assert References(init, LineSnap, snaps, SnapKey) by {
        forall i | 0 <= i < |init| ensures LineSnap(init[i]) in KeySet(snaps, SnapKey) {
          assert init[i] == lines[i];
        }
      }
      LinesOfAbsent(init, snaps, sid);
    }
  }

  /** A snapshot that is not in the table has no stat rows. */
  lemma {:induction false} StatsOfAbsent(stats: seq<BookSnapStat>, snaps: seq<BookSnap>, sid: int)
    requires References(stats, StatSnap, snaps, SnapKey) && sid !in KeySet(snaps, SnapKey)
    ensures StatsOf(stats, sid) == []
    decreases |stats|
  {
    if |stats| > 0 {
      var init := stats[..|stats| - 1];
      assert StatSnap(stats[|stats| - 1]) in KeySet(snaps, SnapKey);
      assert References(init, StatSnap, snaps, SnapKey) by {
        forall i | 0 <= i < |init| ensures StatSnap(init[i]) in KeySet(snaps, SnapKey) {
          assert init[i] == stats[i];
        }
      }
      StatsOfAbsent(init, snaps, sid);
    }
  }

  /** Deleting one snapshot's lines leaves every other snapshot's lines as they were. */
  lemma {:induction false} LinesOfDrop(lines: seq<BookLine>, id: int, sid: int)
    ensures LinesOf(Drop(lines, LineSnap, id), sid) == if sid == id then [] else LinesOf(lines, sid)
    decreases |lines|
  {
    if |lines| > 0 {
      var init := lines[..|lines| - 1];
      var l := lines[|lines| - 1];
      LinesOfDrop(init, id, sid);
      if LineSnap(l) != id {
        LinesOfAppend(Drop(init, LineSnap, id), l, sid);
      }
    }
  }

  /** Deleting one snapshot's stat rows leaves every other snapshot's rows as they were. */
  lemma {:induction false} StatsOfDrop(stats: seq<BookSnapStat>, id: int, sid: int)
    ensures StatsOf(Drop(stats, StatSnap, id), sid) == if sid == id then [] else StatsOf(stats, sid)
    decreases |stats|
  {
    if |stats| > 0 {
      var init := stats[..|stats| - 1];
      var st := stats[|stats| - 1];
      StatsOfDrop(init, id, sid);
      if StatSnap(st) != id {
        StatsOfAppend(Drop(init, StatSnap, id), st, sid);
      }
    }
  }

  // Each table's constraints survive a larger key sequence and larger parent tables.

  lemma RegistryGrows(exchanges: seq<Exchange>, tokens: seq<Token>, markets: seq<ExchangeMarket>, next: int, next': int)
    requires RegistryValid(exchanges, tokens, markets, next) && next <= next'
    ensures RegistryValid(exchanges, tokens, markets, next')
  {
  }

  lemma SnapsGrow(snaps: seq<BookSnap>, markets: seq<ExchangeMarket>, markets': seq<ExchangeMarket>, next: int, next': int)
    requires SnapsValid(snaps, markets, next) && next <= next'
    requires KeySet(markets, MarketKey) <= KeySet(markets', MarketKey)
    ensures SnapsValid(snaps, markets', next')
  {
  }

  lemma StatsGrow(stats: seq<BookSnapStat>, snaps: seq<BookSnap>, snaps': seq<BookSnap>, next: int, next': int)
    requires StatsValid(stats, snaps, next) && next <= next'
    requires KeySet(snaps, SnapKey) <= KeySet(snaps', SnapKey)
    ensures StatsValid(stats, snaps', next')
  {
  }

  lemma LinesGrow(lines: seq<BookLine>, snaps: seq<BookSnap>, snaps': seq<BookSnap>, next: int, next': int)
    requires LinesValid(lines, snaps, next) && next <= next'
    requires KeySet(snaps, SnapKey) <= KeySet(snaps', SnapKey)
    ensures LinesValid(lines, snaps', next')
  {
  }

  lemma TradesGrow(trades: seq<Trade>, markets: seq<ExchangeMarket>, markets': seq<ExchangeMarket>, next: int, next': int)
    requires TradesValid(trades, markets, next) && next <= next'
    requires KeySet(markets, MarketKey) <= KeySet(markets', MarketKey)
    ensures TradesValid(trades, markets', next')
  {
  }

  lemma LinesAppendOne(lines: seq<BookLine>, snaps: seq<BookSnap>, next: int, l: BookLine)
    requires LinesValid(lines, snaps, next) && next >= 1
    requires l.lineId == next && l.bookSnapId in KeySet(snaps, SnapKey)
    ensures LinesValid(lines + [l], snaps, next + 1)
  {
    AppendKey(lines, LineKey, next, l);
    ReferencesAppend(lines, l, LineSnap, snaps, SnapKey);
  }

  lemma CascadeSnaps(snaps: seq<BookSnap>, markets: seq<ExchangeMarket>, next: int, sid: int)
    requires SnapsValid(snaps, markets, next)
    ensures SnapsValid(Drop(snaps, SnapKey, sid), markets, next)
  {
    IncreasingUnique(snaps, SnapKey, next);
    DropKeepsKeys(snaps, SnapKey, sid, SnapKey, SnapKey, next);
    DropReferences(snaps, SnapKey, sid, SnapMarket, markets, MarketKey);
  }

  lemma CascadeStats(stats: seq<BookSnapStat>, snaps: seq<BookSnap>, next: int, sid: int)
    requires StatsValid(stats, snaps, next)
    ensures StatsValid(Drop(stats, StatSnap, sid), Drop(snaps, SnapKey, sid), next)
  {
    var stats' := Drop(stats, StatSnap, sid);
    DropKeepsKeys(stats, StatSnap, sid, StatKey, StatSlot, next);
    DropReferences(stats, StatSnap, sid, StatSnap, snaps, SnapKey);
    forall i | 0 <= i < |stats'| ensures StatSnap(stats'[i]) != sid { DropMembers(stats, StatSnap, sid, stats'[i]); }
    ReferencesDropParent(stats', StatSnap, snaps, SnapKey, sid);
  }

  lemma CascadeLines(lines: seq<BookLine>, snaps: seq<BookSnap>, next: int, sid: int)
    requires LinesValid(lines, snaps, next)
    ensures LinesValid(Drop(lines, LineSnap, sid), Drop(snaps, SnapKey, sid), next)
  {
    var lines' := Drop(lines, LineSnap, sid);
    IncreasingUnique(lines, LineKey, next);
    DropKeepsKeys(lines, LineSnap, sid, LineKey, LineKey, next);
    DropReferences(lines, LineSnap, sid, LineSnap, snaps, SnapKey);
    forall i | 0 <= i < |lines'| ensures LineSnap(lines'[i]) != sid { DropMembers(lines, LineSnap, sid, lines'[i]); }
    ReferencesDropParent(lines', LineSnap, snaps, SnapKey, sid);
  }

  /** The contents of every table, and the next value of the key sequence shared by all tables. */
  datatype Tables = Tables(
    exchanges: seq<Exchange>, tokens: seq<Token>, markets: seq<ExchangeMarket>, snaps: seq<BookSnap>,
    stats: seq<BookSnapStat>, bids: seq<BookLine>, asks: seq<BookLine>, trades: seq<Trade>, nextId: int)

  const EmptyTables := Tables([], [], [], [], [], [], [], [], 1)

  /** The schema's constraints over all tables. */
  ghost predicate TablesValid(t: Tables) {
    && t.nextId >= 1
    && RegistryValid(t.exchanges, t.tokens, t.markets, t.nextId)
    && SnapsValid(t.snaps, t.markets, t.nextId)
    && StatsValid(t.stats, t.snaps, t.nextId)
    && LinesValid(t.bids, t.snaps, t.nextId)
    && LinesValid(t.asks, t.snaps, t.nextId)
    && TradesValid(t.trades, t.markets, t.nextId)
  }

  /** A foreign key resolves: the parent row the child refers to is stored. */
  lemma RefersTo<R, S>(rows: seq<R>, fk: R -> int, parents: seq<S>, pk: S -> int, i: int) returns (j: int)
    requires References(rows, fk, parents, pk) && 0 <= i < |rows|
    ensures 0 <= j < |parents| && pk(parents[j]) == fk(rows[i])
  {
    assert fk(rows[i]) in KeySet(rows, fk);
    j :| 0 <= j < |parents| && pk(parents[j]) == fk(rows[i]);
  }

  /** Some stored exchange, token, market or snapshot has key `id`. */
  ghost predicate HasExchange(exchanges: seq<Exchange>, id: int) {
    exists j :: 0 <= j < |exchanges| && exchanges[j].exchangeId == id
  }

  ghost predicate HasToken(tokens: seq<Token>, id: int) {
    exists j :: 0 <= j < |tokens| && tokens[j].tokenId == id
  }

  ghost predicate HasMarket(markets: seq<ExchangeMarket>, id: int) {
    exists j :: 0 <= j < |markets| && markets[j].exchangeMarketId == id
  }

  ghost predicate HasSnap(snaps: seq<BookSnap>, id: int) {
    exists j :: 0 <= j < |snaps| && snaps[j].bookSnapId == id
  }

  /**
   * The constraints row by row: no two exchanges or tokens share a symbol,
   * no two markets a triple, no two stat rows a (snapshot, code) slot; every
   * market's exchange and tokens, every snapshot's market, every stat row's
   * and line's snapshot and every trade's market is a stored row; and a
   * trade's side has at most one character.
   */
  lemma ValidRows(t: Tables)
    requires TablesValid(t)
    ensures forall i, j :: 0 <= i < j < |t.exchanges| ==> t.exchanges[i].symbol != t.exchanges[j].symbol
    ensures forall i, j :: 0 <= i < j < |t.tokens| ==> t.tokens[i].symbol != t.tokens[j].symbol
    ensures forall i, j :: 0 <= i < j < |t.markets| ==> MarketTriple(t.markets[i]) != MarketTriple(t.markets[j])
    ensures forall i, j :: 0 <= i < j < |t.stats| ==> StatSlot(t.stats[i]) != StatSlot(t.stats[j])
    ensures forall i :: 0 <= i < |t.markets| ==>
              && HasExchange(t.exchanges, t.markets[i].exchangeId)
              && HasToken(t.tokens, t.markets[i].baseTokenId) && HasToken(t.tokens, t.markets[i].quoteTokenId)
    ensures forall i :: 0 <= i < |t.snaps| ==> HasMarket(t.markets, t.snaps[i].exchangeMarketId)
    ensures forall i :: 0 <= i < |t.stats| ==> HasSnap(t.snaps, t.stats[i].bookSnapId)
    ensures forall i :: 0 <= i < |t.bids| ==> HasSnap(t.snaps, t.bids[i].bookSnapId)
    ensures forall i :: 0 <= i < |t.asks| ==> HasSnap(t.snaps, t.asks[i].bookSnapId)
    ensures forall i :: 0 <= i < |t.trades| ==> |t.trades[i].side| <= 1 && HasMarket(t.markets, t.trades[i].exchangeMarketId)
  {
    forall i | 0 <= i < |t.markets|
      ensures HasExchange(t.exchanges, t.markets[i].exchangeId)
      ensures HasToken(t.tokens, t.markets[i].baseTokenId) && HasToken(t.tokens, t.markets[i].quoteTokenId)
    {
      var e := RefersTo(t.markets, MarketExchange, t.exchanges, ExchangeKey, i);
      var b := RefersTo(t.markets, MarketBase, t.tokens, TokenKey, i);
      var q := RefersTo(t.markets, MarketQuote, t.tokens, TokenKey, i);
      assert t.exchanges[e].exchangeId == t.markets[i].exchangeId;
      assert t.tokens[b].tokenId == t.markets[i].baseTokenId && t.tokens[q].tokenId == t.markets[i].quoteTokenId;
    }
    forall i | 0 <= i < |t.snaps|
      ensures HasMarket(t.markets, t.snaps[i].exchangeMarketId)
    {
      var j := RefersTo(t.snaps, SnapMarket, t.markets, MarketKey, i);
      assert t.markets[j].exchangeMarketId == t.snaps[i].exchangeMarketId;
    }
    forall i | 0 <= i < |t.stats|
      ensures HasSnap(t.snaps, t.stats[i].bookSnapId)
    {
      var j := RefersTo(t.stats, StatSnap, t.snaps, SnapKey, i);
      assert t.snaps[j].bookSnapId == t.stats[i].bookSnapId;
    }
    forall i | 0 <= i < |t.bids|
      ensures HasSnap(t.snaps, t.bids[i].bookSnapId)
    {
      var j := RefersTo(t.bids, LineSnap, t.snaps, SnapKey, i);
      assert t.snaps[j].bookSnapId == t.bids[i].bookSnapId;
    }
    forall i | 0 <= i < |t.asks|
      ensures HasSnap(t.snaps, t.asks[i].bookSnapId)
    {
      var j := RefersTo(t.asks, LineSnap, t.snaps, SnapKey, i);
      assert t.snaps[j].bookSnapId == t.asks[i].bookSnapId;
    }
    forall i | 0 <= i < |t.trades|
      ensures HasMarket(t.markets, t.trades[i].exchangeMarketId)
    {
      var j := RefersTo(t.trades, TradeMarket, t.markets, MarketKey, i);
      assert t.markets[j].exchangeMarketId == t.trades[i].exchangeMarketId;
    }
  }

  lemma EmptyValid()
    ensures TablesValid(EmptyTables)
  {
  }

  // The row operations the code performs, as functions of the tables: each
  // new row takes the next value of the key sequence.

  /** The new exchange is found by its symbol under a fresh key; no other table changes. */
  function InsertExchange(t: Tables, symbol: string): (r: Tables)
    ensures ExchangeIndex(r.exchanges, symbol).Some?
    ensures ExchangeIndex(t.exchanges, symbol).None? ==> ExchangeIndex(r.exchanges, symbol) == Some(|t.exchanges|)
    ensures KeySet(r.exchanges, ExchangeKey) == KeySet(t.exchanges, ExchangeKey) + {t.nextId}
    ensures t.exchanges <= r.exchanges && r == t.(exchanges := r.exchanges, nextId := t.nextId + 1)
  {
    var e := Exchange(t.nextId, symbol);
    KeySetAppend(t.exchanges, ExchangeKey, e);
    assert (t.exchanges + [e])[|t.exchanges|].symbol == symbol;
    t.(exchanges := t.exchanges + [e], nextId := t.nextId + 1)
  }

  /**
   * The unique index on token.symbol rejects a second row with the same
   * symbol: afterwards the symbol is stored either way, and the insert
   * succeeds, with a fresh key, exactly when it was not stored before.
   */
  function TryInsertToken(t: Tables, symbol: string): (r: (Tables, Result<int, DbError>))
    ensures TokenIndex(r.0.tokens, symbol).Some?
    ensures r.1.Success? <==> TokenIndex(t.tokens, symbol).None?
    ensures r.1.Success? ==> r.0.tokens[TokenIndex(r.0.tokens, symbol).value].tokenId == r.1.value
                             && KeySet(r.0.tokens, TokenKey) == KeySet(t.tokens, TokenKey) + {r.1.value}
                             && t.tokens <= r.0.tokens && r.0 == t.(tokens := r.0.tokens, nextId := t.nextId + 1)
    ensures r.1.Failure? ==> r.1.error == UniqueViolation && r.0 == t
  {
    if TokenIndex(t.tokens, symbol).Some? then (t, Failure(UniqueViolation))
    else
      var tk := Token(t.nextId, symbol);
      KeySetAppend(t.tokens, TokenKey, tk);
      assert (t.tokens + [tk])[|t.tokens|].symbol == symbol;
      (t.(tokens := t.tokens + [tk], nextId := t.nextId + 1), Success(t.nextId))
  }

  /** The new market is found by its triple under a fresh key; trade_ts is left NULL. */
  function InsertMarket(t: Tables, e: int, b: int, q: int): (r: Tables)
    ensures MarketIndex(r.markets, e, b, q).Some?
    ensures MarketIndex(t.markets, e, b, q).None? ==> MarketIndex(r.markets, e, b, q) == Some(|t.markets|)
    ensures KeySet(r.markets, MarketKey) == KeySet(t.markets, MarketKey) + {t.nextId}
    ensures t.markets <= r.markets && |r.markets| == |t.markets| + 1 && r.markets[|t.markets|].tradeTs.None?
    ensures r == t.(markets := r.markets, nextId := t.nextId + 1)
  {
    var m := ExchangeMarket(t.nextId, e, b, q, None);
    KeySetAppend(t.markets, MarketKey, m);
    assert MarketTriple((t.markets + [m])[|t.markets|]) == (e, b, q);
    t.(markets := t.markets + [m], nextId := t.nextId + 1)
  }

  /** The new snapshot is found by (market, ts) under a fresh key, with `stat` left NULL. */
  function InsertSnap(t: Tables, market: int, ts: int): (r: Tables)
    ensures SnapIndex(r.snaps, market, ts).Some?
    ensures KeySet(r.snaps, SnapKey) == KeySet(t.snaps, SnapKey) + {t.nextId}
    ensures t.snaps <= r.snaps && |r.snaps| == |t.snaps| + 1 && r.snaps[|t.snaps|].stat.None?
    ensures r.snaps[|t.snaps|] == BookSnap(t.nextId, market, ts, None)
    ensures r == t.(snaps := r.snaps, nextId := t.nextId + 1)
  {
    var s := BookSnap(t.nextId, market, ts, None);
    KeySetAppend(t.snaps, SnapKey, s);
    assert (t.snaps + [s])[|t.snaps|] == s;
    t.(snaps := t.snaps + [s], nextId := t.nextId + 1)
  }

  /**
   * One row is appended to one side of the book, under a fresh key; the
   * other side and the other tables are untouched (LinesOfAppend gives the
   * snapshot's lines afterwards).
   */
  function InsertLine(t: Tables, side: BookSide, sid: int, price: real, amount: real): (r: Tables)
    ensures side == Bid ==> KeySet(r.bids, LineKey) == KeySet(t.bids, LineKey) + {t.nextId} && r.asks == t.asks
    ensures side == Ask ==> KeySet(r.asks, LineKey) == KeySet(t.asks, LineKey) + {t.nextId} && r.bids == t.bids
    ensures t.bids <= r.bids && t.asks <= r.asks && |r.bids| + |r.asks| == |t.bids| + |t.asks| + 1
    ensures side == Bid ==> r.bids[|t.bids|] == BookLine(t.nextId, sid, price, amount)
    ensures side == Ask ==> r.asks[|t.asks|] == BookLine(t.nextId, sid, price, amount)
    ensures r == t.(bids := r.bids, asks := r.asks, nextId := t.nextId + 1)
  {
    var l := BookLine(t.nextId, sid, price, amount);
    KeySetAppend(t.bids, LineKey, l);
    KeySetAppend(t.asks, LineKey, l);
    if side == Bid then t.(bids := t.bids + [l], nextId := t.nextId + 1)
    else t.(asks := t.asks + [l], nextId := t.nextId + 1)
  }

  /** One trade row of that market under a fresh key, after every earlier row. */
  function InsertTrade(t: Tables, market: int, ts: int, side: string, price: real, amount: real,
                       fee: Option<real>, eid: Option<string>): (r: Tables)
    ensures KeySet(r.trades, TradeKey) == KeySet(t.trades, TradeKey) + {t.nextId}
    ensures t.trades <= r.trades && |r.trades| == |t.trades| + 1
    ensures r.trades[|t.trades|] == Trade(t.nextId, market, ts, side, price, amount, fee, eid)
    ensures r == t.(trades := r.trades, nextId := t.nextId + 1)
  {
    var tr := Trade(t.nextId, market, ts, side, price, amount, fee, eid);
    KeySetAppend(t.trades, TradeKey, tr);
    t.(trades := t.trades + [tr], nextId := t.nextId + 1)
  }

  /**
   * One stat row of snapshot `sid` under a fresh key, after every earlier
   * row (StatsOfAppend gives the snapshot's stat rows afterwards).
   */
  function InsertStat(t: Tables, sid: int, code: string, data: Json): (r: Tables)
    ensures KeySet(r.stats, StatKey) == KeySet(t.stats, StatKey) + {t.nextId}
    ensures |r.stats| == |t.stats| + 1 && r.stats[|t.stats|] == BookSnapStat(t.nextId, sid, code, data)
    ensures t.stats <= r.stats && r == t.(stats := r.stats, nextId := t.nextId + 1)
  {
    var st := BookSnapStat(t.nextId, sid, code, data);
    KeySetAppend(t.stats, StatKey, st);
    t.(stats := t.stats + [st], nextId := t.nextId + 1)
  }

  /** Every snapshot's stat rows after deleting those of `id`. */
  lemma StatsOfDropAll(stats: seq<BookSnapStat>, id: int)
    ensures forall s :: StatsOf(Drop(stats, StatSnap, id), s) == if s == id then [] else StatsOf(stats, s)
  {
    forall s { StatsOfDrop(stats, id, s); }
  }

  /** Every snapshot's lines after deleting those of `id`. */
  lemma LinesOfDropAll(lines: seq<BookLine>, id: int)
    ensures forall s :: LinesOf(Drop(lines, LineSnap, id), s) == if s == id then [] else LinesOf(lines, s)
  {
    forall s { LinesOfDrop(lines, id, s); }
  }

  /** `delete from book_snap_stat where book_snap_id = sid`: that snapshot has no stat rows left, every other keeps its own. */
  function DeleteStatsOf(t: Tables, sid: int): (r: Tables)
    ensures forall s :: StatsOf(r.stats, s) == if s == sid then [] else StatsOf(t.stats, s)
    ensures r == t.(stats := r.stats)
  {
    StatsOfDropAll(t.stats, sid);
    t.(stats := Drop(t.stats, StatSnap, sid))
  }

  /** `delete from book_snap_bid/book_snap_ask where book_snap_id = sid`: that snapshot has no lines left, every other keeps its own. */
  function DeleteLinesOf(t: Tables, sid: int): (r: Tables)
    ensures forall s :: LinesOf(r.bids, s) == if s == sid then [] else LinesOf(t.bids, s)
    ensures forall s :: LinesOf(r.asks, s) == if s == sid then [] else LinesOf(t.asks, s)
    ensures r == t.(bids := r.bids, asks := r.asks)
  {
    LinesOfDropAll(t.bids, sid);
    LinesOfDropAll(t.asks, sid);
    t.(bids := Drop(t.bids, LineSnap, sid), asks := Drop(t.asks, LineSnap, sid))
  }

  /** `update book_snap set stat = true where book_snap_id = sid`: `sid` is flagged and no other flag changes. */
  function MarkStatDoneOf(t: Tables, sid: int): (r: Tables)
    ensures |r.snaps| == |t.snaps|
    ensures forall i :: 0 <= i < |t.snaps| ==>
              r.snaps[i].stat == if t.snaps[i].bookSnapId == sid then Some(true) else t.snaps[i].stat
    ensures forall i :: 0 <= i < |t.snaps| ==> r.snaps[i] == t.snaps[i].(stat := r.snaps[i].stat)
    ensures r == t.(snaps := r.snaps)
  {
    t.(snaps := WithStatDone(t.snaps, sid))
  }

  /**
   * Deleting a snapshot, as the declared `ondelete='cascade'` foreign keys
   * define it: its stat rows and lines go too, and every other snapshot
   * keeps its own. No statement of the capture or statistics code deletes a
   * snapshot; this states only what the schema declares.
   */
  function DeleteSnapCascade(t: Tables, sid: int): (r: Tables)
    ensures KeySet(r.snaps, SnapKey) == KeySet(t.snaps, SnapKey) - {sid}
    ensures forall s :: StatsOf(r.stats, s) == if s == sid then [] else StatsOf(t.stats, s)
    ensures forall s :: LinesOf(r.bids, s) == if s == sid then [] else LinesOf(t.bids, s)
    ensures forall s :: LinesOf(r.asks, s) == if s == sid then [] else LinesOf(t.asks, s)
    ensures r == t.(snaps := r.snaps, stats := r.stats, bids := r.bids, asks := r.asks)
  {
    DropKeySet(t.snaps, SnapKey, sid);
    StatsOfDropAll(t.stats, sid);
    LinesOfDropAll(t.bids, sid);
    LinesOfDropAll(t.asks, sid);
    t.(snaps := Drop(t.snaps, SnapKey, sid), stats := Drop(t.stats, StatSnap, sid),
       bids := Drop(t.bids, LineSnap, sid), asks := Drop(t.asks, LineSnap, sid))
  }

  // Each row operation keeps the constraints when the code's own checks hold.

  lemma ExchangeAdded(t: Tables, symbol: string)
    requires TablesValid(t) && ExchangeIndex(t.exchanges, symbol).None?
    ensures TablesValid(InsertExchange(t, symbol))
  {
    var next, e := t.nextId, Exchange(t.nextId, symbol);
    AppendKey(t.exchanges, ExchangeKey, next, e);
    AppendUnique(t.exchanges, ExchangeSymbol, e);
    RegistryGrows(t.exchanges, t.tokens, t.markets, next, next + 1);
    ReferencesGrow(t.markets, MarketExchange, t.exchanges, t.exchanges + [e], ExchangeKey);
    SnapsGrow(t.snaps, t.markets, t.markets, next, next + 1);
    StatsGrow(t.stats, t.snaps, t.snaps, next, next + 1);
    LinesGrow(t.bids, t.snaps, t.snaps, next, next + 1);
    LinesGrow(t.asks, t.snaps, t.snaps, next, next + 1);
    TradesGrow(t.trades, t.markets, t.markets, next, next + 1);
  }

  /** The unique index keeps token symbols unique whatever symbol is inserted. */
  lemma TokenAdded(t: Tables, symbol: string)
    requires TablesValid(t)
    ensures TablesValid(TryInsertToken(t, symbol).0)
  {
    if TokenIndex(t.tokens, symbol).None? {
      var next, tk := t.nextId, Token(t.nextId, symbol);
      AppendKey(t.tokens, TokenKey, next, tk);
      AppendUnique(t.tokens, TokenSymbol, tk);
      RegistryGrows(t.exchanges, t.tokens, t.markets, next, next + 1);
      ReferencesGrow(t.markets, MarketBase, t.tokens, t.tokens + [tk], TokenKey);
      ReferencesGrow(t.markets, MarketQuote, t.tokens, t.tokens + [tk], TokenKey);
      SnapsGrow(t.snaps, t.markets, t.markets, next, next + 1);
      StatsGrow(t.stats, t.snaps, t.snaps, next, next + 1);
      LinesGrow(t.bids, t.snaps, t.snaps, next, next + 1);
      LinesGrow(t.asks, t.snaps, t.snaps, next, next + 1);
      TradesGrow(t.trades, t.markets, t.markets, next, next + 1);
    }
  }

  lemma MarketAdded(t: Tables, e: int, b: int, q: int)
    requires TablesValid(t) && MarketIndex(t.markets, e, b, q).None?
    requires e in KeySet(t.exchanges, ExchangeKey)
    requires b in KeySet(t.tokens, TokenKey) && q in KeySet(t.tokens, TokenKey)
    ensures TablesValid(InsertMarket(t, e, b, q))
  {
    var next, m := t.nextId, ExchangeMarket(t.nextId, e, b, q, None);
    AppendKey(t.markets, MarketKey, next, m);
    AppendUnique(t.markets, MarketTriple, m);
    RegistryGrows(t.exchanges, t.tokens, t.markets, next, next + 1);
    ReferencesAppend(t.markets, m, MarketExchange, t.exchanges, ExchangeKey);
    ReferencesAppend(t.markets, m, MarketBase, t.tokens, TokenKey);
    ReferencesAppend(t.markets, m, MarketQuote, t.tokens, TokenKey);
    SnapsGrow(t.snaps, t.markets, t.markets + [m], next, next + 1);
    StatsGrow(t.stats, t.snaps, t.snaps, next, next + 1);
    LinesGrow(t.bids, t.snaps, t.snaps, next, next + 1);
    LinesGrow(t.asks, t.snaps, t.snaps, next, next + 1);
    TradesGrow(t.trades, t.markets, t.markets + [m], next, next + 1);
  }

  lemma SnapAdded(t: Tables, market: int, ts: int)
    requires TablesValid(t) && market in KeySet(t.markets, MarketKey)
    ensures TablesValid(InsertSnap(t, market, ts))
    ensures KeySet(InsertSnap(t, market, ts).snaps, SnapKey) == KeySet(t.snaps, SnapKey) + {t.nextId}
  {
    var next, s := t.nextId, BookSnap(t.nextId, market, ts, None);
    AppendKey(t.snaps, SnapKey, next, s);
    ReferencesAppend(t.snaps, s, SnapMarket, t.markets, MarketKey);
    RegistryGrows(t.exchanges, t.tokens, t.markets, next, next + 1);
    StatsGrow(t.stats, t.snaps, t.snaps + [s], next, next + 1);
    LinesGrow(t.bids, t.snaps, t.snaps + [s], next, next + 1);
    LinesGrow(t.asks, t.snaps, t.snaps + [s], next, next + 1);
    TradesGrow(t.trades, t.markets, t.markets, next, next + 1);
  }

  lemma LineAdded(t: Tables, side: BookSide, sid: int, price: real, amount: real)
    requires TablesValid(t) && sid in KeySet(t.snaps, SnapKey)
    ensures TablesValid(InsertLine(t, side, sid, price, amount))
  {
    var next, l := t.nextId, BookLine(t.nextId, sid, price, amount);
    RegistryGrows(t.exchanges, t.tokens, t.markets, next, next + 1);
    SnapsGrow(t.snaps, t.markets, t.markets, next, next + 1);
    StatsGrow(t.stats, t.snaps, t.snaps, next, next + 1);
    TradesGrow(t.trades, t.markets, t.markets, next, next + 1);
    if side == Bid {
      LinesAppendOne(t.bids, t.snaps, next, l);
      LinesGrow(t.asks, t.snaps, t.snaps, next, next + 1);
    } else {
      LinesAppendOne(t.asks, t.snaps, next, l);
      LinesGrow(t.bids, t.snaps, t.snaps, next, next + 1);
    }
  }

  lemma TradeAdded(t: Tables, market: int, ts: int, side: string, price: real, amount: real,
                   fee: Option<real>, eid: Option<string>)
    requires TablesValid(t) && market in KeySet(t.markets, MarketKey) && |side| <= 1
    ensures TablesValid(InsertTrade(t, market, ts, side, price, amount, fee, eid))
  {
    var next, tr := t.nextId, Trade(t.nextId, market, ts, side, price, amount, fee, eid);
    AppendKey(t.trades, TradeKey, next, tr);
    ReferencesAppend(t.trades, tr, TradeMarket, t.markets, MarketKey);
    RegistryGrows(t.exchanges, t.tokens, t.markets, next, next + 1);
    SnapsGrow(t.snaps, t.markets, t.markets, next, next + 1);
    StatsGrow(t.stats, t.snaps, t.snaps, next, next + 1);
    LinesGrow(t.bids, t.snaps, t.snaps, next, next + 1);
    LinesGrow(t.asks, t.snaps, t.snaps, next, next + 1);
  }

  lemma StatAdded(t: Tables, sid: int, code: string, data: Json)
    requires TablesValid(t) && sid in KeySet(t.snaps, SnapKey)
    requires forall i :: 0 <= i < |t.stats| ==> StatSlot(t.stats[i]) != (sid, code)
    ensures TablesValid(InsertStat(t, sid, code, data))
  {
    var next, st := t.nextId, BookSnapStat(t.nextId, sid, code, data);
    AppendKey(t.stats, StatKey, next, st);
    AppendUnique(t.stats, StatSlot, st);
    ReferencesAppend(t.stats, st, StatSnap, t.snaps, SnapKey);
    RegistryGrows(t.exchanges, t.tokens, t.markets, next, next + 1);
    SnapsGrow(t.snaps, t.markets, t.markets, next, next + 1);
    LinesGrow(t.bids, t.snaps, t.snaps, next, next + 1);
    LinesGrow(t.asks, t.snaps, t.snaps, next, next + 1);
    TradesGrow(t.trades, t.markets, t.markets, next, next + 1);
  }

  lemma StatsDeleted(t: Tables, sid: int)
    requires TablesValid(t)
    ensures TablesValid(DeleteStatsOf(t, sid))
  {
    DropKeepsKeys(t.stats, StatSnap, sid, StatKey, StatSlot, t.nextId);
    DropReferences(t.stats, StatSnap, sid, StatSnap, t.snaps, SnapKey);
  }

  lemma StatMarked(t: Tables, sid: int)
    requires TablesValid(t)
    ensures TablesValid(MarkStatDoneOf(t, sid))
    ensures KeySet(MarkStatDoneOf(t, sid).snaps, SnapKey) == KeySet(t.snaps, SnapKey)
  {
    var s' := WithStatDone(t.snaps, sid);
    WithStatDoneKeys(t.snaps, sid, t.nextId);
    assert KeySet(s', SnapMarket) == KeySet(t.snaps, SnapMarket) by {
      forall k | k in KeySet(t.snaps, SnapMarket) ensures k in KeySet(s', SnapMarket) {
        var i :| 0 <= i < |t.snaps| && SnapMarket(t.snaps[i]) == k;
        assert SnapMarket(s'[i]) == k;
      }
      forall k | k in KeySet(s', SnapMarket) ensures k in KeySet(t.snaps, SnapMarket) {
        var i :| 0 <= i < |s'| && SnapMarket(s'[i]) == k;
        assert SnapMarket(t.snaps[i]) == k;
      }
    }
    StatsGrow(t.stats, t.snaps, s', t.nextId, t.nextId);
    LinesGrow(t.bids, t.snaps, s', t.nextId, t.nextId);
    LinesGrow(t.asks, t.snaps, s', t.nextId, t.nextId);
  }

  lemma LinesDeleted(t: Tables, sid: int)
    requires TablesValid(t)
    ensures TablesValid(DeleteLinesOf(t, sid))
  {
    IncreasingUnique(t.bids, LineKey, t.nextId);
    IncreasingUnique(t.asks, LineKey, t.nextId);
    DropKeepsKeys(t.bids, LineSnap, sid, LineKey, LineKey, t.nextId);
    DropKeepsKeys(t.asks, LineSnap, sid, LineKey, LineKey, t.nextId);
    DropReferences(t.bids, LineSnap, sid, LineSnap, t.snaps, SnapKey);
    DropReferences(t.asks, LineSnap, sid, LineSnap, t.snaps, SnapKey);
  }

  /** The cascade keeps every table's constraints: no stat row or book line is left without its snapshot. */
  lemma SnapDeleted(t: Tables, sid: int)
    requires TablesValid(t)
    ensures TablesValid(DeleteSnapCascade(t, sid))
  {
    CascadeSnaps(t.snaps, t.markets, t.nextId, sid);
    CascadeStats(t.stats, t.snaps, t.nextId, sid);
    CascadeLines(t.bids, t.snaps, t.nextId, sid);
    CascadeLines(t.asks, t.snaps, t.nextId, sid);
  }

  /**
   * A database session: the tables it sees, changed in place by the rows it
   * writes. Each method is one statement the code issues.
   */
  class Database {
    var tables: Tables

    ghost predicate Valid()
      reads this
    {
      TablesValid(tables)
    }

    constructor ()
      ensures Valid() && tables == EmptyTables
    {
      tables := EmptyTables;
      EmptyValid();
    }

    /** `session.add(Exchange(symbol=...))`. */
    method AddExchange(symbol: string) returns (id: int)
      modifies this
      ensures id == old(tables.nextId) && tables == InsertExchange(old(tables), symbol)
    {
      id := tables.nextId;
      tables := InsertExchange(tables, symbol);
    }

    /** `session.add(Token(symbol=...)); session.commit()`: the commit fails on a stored symbol. */
    method AddToken(symbol: string) returns (r: Result<int, DbError>)
      modifies this
      ensures (tables, r) == TryInsertToken(old(tables), symbol)
    {
      var (t, res) := TryInsertToken(tables, symbol);
      tables, r := t, res;
    }

    /** `session.add(ExchangeMarket(...))`. */
    method AddMarket(e: int, b: int, q: int) returns (id: int)
      modifies this
      ensures id == old(tables.nextId) && tables == InsertMarket(old(tables), e, b, q)
    {
      id := tables.nextId;
      tables := InsertMarket(tables, e, b, q);
    }

    /** `session.add(BookSnap(exchange_market_id=..., ts=...))`. */
    method AddBookSnap(market: int, ts: int) returns (id: int)
      modifies this
      ensures id == old(tables.nextId) && tables == InsertSnap(old(tables), market, ts)
    {
      id := tables.nextId;
      tables := InsertSnap(tables, market, ts);
    }

    /** `bs.bids.append(BookSnapBid(...))` or `bs.asks.append(BookSnapAsk(...))`. */
    method AddBookLine(side: BookSide, sid: int, price: real, amount: real) returns (id: int)
      modifies this
      ensures id == old(tables.nextId) && tables == InsertLine(old(tables), side, sid, price, amount)
    {
      id := tables.nextId;
      tables := InsertLine(tables, side, sid, price, amount);
    }

    /** `session.add(Trade(...))`. */
    method AddTrade(market: int, ts: int, side: string, price: real, amount: real, fee: Option<real>, eid: Option<string>)
      returns (id: int)
      modifies this
      ensures id == old(tables.nextId) && tables == InsertTrade(old(tables), market, ts, side, price, amount, fee, eid)
    {
      id := tables.nextId;
      tables := InsertTrade(tables, market, ts, side, price, amount, fee, eid);
    }

    /** `delete from book_snap_stat where book_snap_id = sid`. */
    method DeleteStats(sid: int)
      modifies this
      ensures tables == DeleteStatsOf(old(tables), sid)
    {
      tables := DeleteStatsOf(tables, sid);
    }

    /** `insert into book_snap_stat(book_snap_id, code, data)`. */
    method AddStat(sid: int, code: string, data: Json) returns (id: int)
      modifies this
      ensures id == old(tables.nextId) && tables == InsertStat(old(tables), sid, code, data)
    {
      id := tables.nextId;
      tables := InsertStat(tables, sid, code, data);
    }

    /** `update book_snap set stat = true where book_snap_id = sid`. */
    method MarkStatDone(sid: int)
      modifies this
      ensures tables == MarkStatDoneOf(old(tables), sid)
    {
      tables := MarkStatDoneOf(tables, sid);
    }

    /** `delete from book_snap_bid ...; delete from book_snap_ask ... where book_snap_id = sid`. */
    method DeleteLines(sid: int)
      modifies this
      ensures tables == DeleteLinesOf(old(tables), sid)
    {
      tables := DeleteLinesOf(tables, sid);
    }
  }
}
