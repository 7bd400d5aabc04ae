/**
 * Trade ingestion (`snap_trades` in bdata.py): find the resume point, page
 * through the exchange's trades, collapse adjacent duplicates, trim what was
 * already stored, and insert the rest.
 *
 * The exchange's trade list is an oracle `fetch(market, since)` that yields
 * None when the call raises; the clock is a fixed `now` in milliseconds and
 * `yday` is the day of the year; `dec` is the exact-value conversion of a
 * price or amount.
 */
module Trades {
  import opened Wrappers
  import opened Schema
  import opened Capture

  /** Cap on the trades collected in one call; checked before each fetch. */
  const TRADES_LIMIT := 100000

  const DAY_MS := 86400000

  /** A trade as the exchange lists it: `id`, `timestamp`, `side`, `price`, `amount`. */
  datatype TradeRec = TradeRec(id: Option<string>, timestamp: int, side: string, price: Option<real>, amount: Option<real>)

  // ---------------------------------------------------------------------------
  // Resume point.

  /** Index of the market's row with the highest trade_id: `max(trade_id)` and its row. */
  function LastTradeIndex(trades: seq<Trade>, market: int): (r: Option<nat>)
    ensures r.Some? ==> r.value < |trades| && trades[r.value].exchangeMarketId == market
    ensures r.Some? ==> forall j :: 0 <= j < |trades| && trades[j].exchangeMarketId == market ==>
                          trades[j].tradeId <= trades[r.value].tradeId
    ensures r.None? <==> forall j :: 0 <= j < |trades| ==> trades[j].exchangeMarketId != market
    decreases |trades|
  {
    if |trades| == 0 then None
    else
      var n := |trades| - 1;
      var init := trades[..n];
      match LastTradeIndex(init, market)
      case None => if trades[n].exchangeMarketId == market then Some(n) else None
      case Some(i) =>
        if trades[n].exchangeMarketId == market && trades[n].tradeId > trades[i].tradeId then Some(n) else Some(i)
  }

  /** `.one()` of that query: the market's row with the highest trade_id, None when it has no trade. */
  function LastTrade(trades: seq<Trade>, market: int): (r: Option<Trade>)
    ensures r.Some? ==> r.value in trades && r.value.exchangeMarketId == market
    ensures r.Some? ==> forall j :: 0 <= j < |trades| && trades[j].exchangeMarketId == market ==>
                          trades[j].tradeId <= r.value.tradeId
    ensures r.None? <==> forall j :: 0 <= j < |trades| ==> trades[j].exchangeMarketId != market
  {
    match LastTradeIndex(trades, market)
    case None => None
    case Some(i) => Some(trades[i])
  }

  /** Since keys increase along the table, the market's last row is its highest trade_id. */
  lemma LastRowIsLast(trades: seq<Trade>, next: int)
    requires |trades| > 0 && KeysIncreasing(trades, TradeKey, next)
    ensures LastTradeIndex(trades, trades[|trades| - 1].exchangeMarketId) == Some(|trades| - 1)
  {
    var n := |trades| - 1;
    var m := trades[n].exchangeMarketId;
    match LastTradeIndex(trades[..n], m)
    case None =>
    case Some(i) =>
      assert trades[i] == trades[..n][i];
      assert TradeKey(trades[i]) < TradeKey(trades[n]);
  }

  /**
   * `since` for a market with no stored trade: `yday` days before midnight
   * (UTC) of the current day, as the expression in the code computes it.
   */
  function BootstrapSince(now: int, yday: int): (r: int)
    ensures r % DAY_MS == 0
    ensures now - DAY_MS < r + yday * DAY_MS <= now
  {
    now - now % DAY_MS - yday * DAY_MS
  }

  /** The stored eid when it is truthy: `last and last.eid`. */
  function ResumeEid(last: Option<Trade>): (r: Option<string>)
    ensures r.Some? <==> last.Some? && last.value.eid.Some? && last.value.eid.value != ""
    ensures r.Some? ==> last.value.eid == r
  {
    if last.Some? && last.value.eid.Some? && last.value.eid.value != "" then last.value.eid else None
  }

  /** The id the pagination compares pages against first: the truthy eid, else the empty string. */
  function StartId(eid: Option<string>): (r: Option<string>)
    ensures r.Some? && (eid.Some? ==> r == eid) && (eid.None? ==> r.value == "")
  {
    if eid.Some? then eid else Some("")
  }

  // ---------------------------------------------------------------------------
  // Pagination.

  /**
   * The fetch loop: while `since < now` and fewer than TRADES_LIMIT trades are
   * held, fetch a page; stop on an empty page or when the page ends with the
   * id seen last; otherwise append the page and move `since` and the id to
   * its last trade. None when a fetch raises. What was collected stays, in
   * order, at the front.
   */
  function Paginate(fetch: (string, int) -> Option<seq<TradeRec>>, market: string, now: int,
                    since: int, lastId: Option<string>, at: seq<TradeRec>): (r: Option<seq<TradeRec>>)
    ensures r.Some? ==> at <= r.value
    ensures r.Some? && (|at| >= TRADES_LIMIT || since >= now) ==> r.value == at
    decreases TRADES_LIMIT - |at|
  {
    if !(since < now && |at| < TRADES_LIMIT) then Some(at)
    else match fetch(market, since)
      case None => None
      case Some(page) =>
        if |page| == 0 then Some(at)
        else
          var tail := page[|page| - 1];
          if lastId == tail.id then Some(at)
          else Paginate(fetch, market, now, tail.timestamp, tail.id, at + page)
  }

  /**
   * The cap is checked before each fetch, so the collected list can pass
   * TRADES_LIMIT, but by less than one page.
   */
  lemma {:induction false} PaginateOvershoot(fetch: (string, int) -> Option<seq<TradeRec>>, market: string, now: int,
                                             since: int, lastId: Option<string>, at: seq<TradeRec>, pageMax: nat)
    requires |at| < TRADES_LIMIT + pageMax
    requires forall s :: fetch(market, s).Some? ==> |fetch(market, s).value| <= pageMax
    ensures var r := Paginate(fetch, market, now, since, lastId, at);
            r.Some? ==> |r.value| < TRADES_LIMIT + pageMax
    decreases TRADES_LIMIT - |at|
  {
    if since < now && |at| < TRADES_LIMIT {
      match fetch(market, since)
      case None =>
      case Some(page) =>
        if |page| > 0 {
          var tail := page[|page| - 1];
          if lastId != tail.id {
            PaginateOvershoot(fetch, market, now, tail.timestamp, tail.id, at + page, pageMax);
          }
        }
    }
  }

  /** A page that ends with the trade seen last adds nothing: resuming at the newest stored trade fetches nothing new. */
  lemma PaginateCaughtUp(fetch: (string, int) -> Option<seq<TradeRec>>, market: string, now: int,
                         since: int, lastId: Option<string>, at: seq<TradeRec>)
    requires since < now && |at| < TRADES_LIMIT
    requires fetch(market, since).Some? && |fetch(market, since).value| > 0
    requires fetch(market, since).value[|fetch(market, since).value| - 1].id == lastId
    ensures Paginate(fetch, market, now, since, lastId, at) == Some(at)
  {
  }

  /** An empty page ends the loop with the trades collected so far. */
  lemma PaginateEmptyPage(fetch: (string, int) -> Option<seq<TradeRec>>, market: string, now: int,
                          since: int, lastId: Option<string>, at: seq<TradeRec>)
    requires since < now && |at| < TRADES_LIMIT
    requires fetch(market, since) == Some([])
    ensures Paginate(fetch, market, now, since, lastId, at) == Some(at)
  {
  }

  /**
   * Any other page is appended whole, and the loop goes on from its last
   * trade: `since` becomes that trade's timestamp and the id seen last its id.
   */
  lemma PaginateStep(fetch: (string, int) -> Option<seq<TradeRec>>, market: string, now: int,
                     since: int, lastId: Option<string>, at: seq<TradeRec>)
    requires since < now && |at| < TRADES_LIMIT
    requires fetch(market, since).Some? && |fetch(market, since).value| > 0
    requires fetch(market, since).value[|fetch(market, since).value| - 1].id != lastId
    ensures var page := fetch(market, since).value;
            var tail := page[|page| - 1];
            Paginate(fetch, market, now, since, lastId, at) == Paginate(fetch, market, now, tail.timestamp, tail.id, at + page)
  {
  }

  /** The fetch loop of `snap_trades`. */
  method FetchPages(fetch: (string, int) -> Option<seq<TradeRec>>, market: string, now: int,
                    since0: int, lastId0: Option<string>) returns (r: Option<seq<TradeRec>>)
    ensures r == Paginate(fetch, market, now, since0, lastId0, [])
  {
    var at: seq<TradeRec> := [];
    var since, lastId := since0, lastId0;
    while since < now && |at| < TRADES_LIMIT
      invariant Paginate(fetch, market, now, since, lastId, at) == Paginate(fetch, market, now, since0, lastId0, [])
      decreases TRADES_LIMIT - |at|
    {
      var trades := fetch(market, since);
      if trades.None? {
        return None;
      }
      var page := trades.value;
      if |page| > 0 {
        if lastId == page[|page| - 1].id {
          break;
        }
        since := page[|page| - 1].timestamp;
        lastId := page[|page| - 1].id;
        at := at + page;
      } else {
        break;
      }
    }
    r := Some(at);
  }

  // ---------------------------------------------------------------------------
  // Adjacent-duplicate collapse.

  ghost predicate NoAdjacentDup(at: seq<TradeRec>) {
    forall i :: 1 <= i < |at| ==> at[i - 1].id != at[i].id
  }

  /** Position `i` ends a run of equal adjacent ids. */
  ghost predicate RunEnd(at: seq<TradeRec>, i: int) {
    0 <= i < |at| && (i == |at| - 1 || at[i].id != at[i + 1].id)
  }

  /** The trades that end a run of equal adjacent ids, in order: each run keeps its last trade. */
  function Dedup(at: seq<TradeRec>): (r: seq<TradeRec>)
    ensures |r| <= |at| && (|r| == 0 <==> |at| == 0)
    ensures forall x :: x in r ==> x in at
    decreases |at|
  {
    if |at| <= 1 then at
    else if at[0].id == at[1].id then Dedup(at[1..])
    else [at[0]] + Dedup(at[1..])
  }

  /** `idx` picks `xs` out of `ys` at strictly increasing positions. */
  ghost predicate Embeds(idx: seq<int>, xs: seq<TradeRec>, ys: seq<TradeRec>) {
    && |idx| == |xs|
    && (forall k :: 0 <= k < |idx| ==> 0 <= idx[k] < |ys| && xs[k] == ys[idx[k]])
    && (forall k, l :: 0 <= k < l < |idx| ==> idx[k] < idx[l])
  }

  lemma {:induction false} DedupFirst(at: seq<TradeRec>)
    requires |at| > 0
    ensures |Dedup(at)| > 0 && Dedup(at)[0].id == at[0].id
    decreases |at|
  {
    if |at| > 1 && at[0].id == at[1].id {
      DedupFirst(at[1..]);
    }
  }

  lemma {:induction false} DedupLast(at: seq<TradeRec>)
    requires |at| > 0
    ensures |Dedup(at)| > 0 && Dedup(at)[|Dedup(at)| - 1] == at[|at| - 1]
    decreases |at|
  {
    if |at| > 1 {
      DedupLast(at[1..]);
    }
  }

  /** The collapse leaves no two adjacent trades with equal ids. */
  lemma {:induction false} DedupNoAdjacent(at: seq<TradeRec>)
    ensures NoAdjacentDup(Dedup(at))
    decreases |at|
  {
    if |at| > 1 {
      DedupNoAdjacent(at[1..]);
      if at[0].id != at[1].id {
        DedupFirst(at[1..]);
        var d := Dedup(at[1..]);
        assert Dedup(at) == [at[0]] + d;
        forall i | 1 <= i < |Dedup(at)| ensures Dedup(at)[i - 1].id != Dedup(at)[i].id {
          if i > 1 {
            assert Dedup(at)[i - 1] == d[i - 2] && Dedup(at)[i] == d[i - 1];
          }
        }
      }
    }
  }

  /** A list with no adjacent duplicates is left as it is. */
  lemma {:induction false} DedupKeeps(at: seq<TradeRec>)
    requires NoAdjacentDup(at)
    ensures Dedup(at) == at
    decreases |at|
  {
    if |at| > 1 {
      assert NoAdjacentDup(at[1..]) by {
        forall i | 1 <= i < |at[1..]| ensures at[1..][i - 1].id != at[1..][i].id {
          assert at[1..][i - 1] == at[i] && at[1..][i] == at[i + 1];
        }
      }
      DedupKeeps(at[1..]);
      assert at[0].id != at[1].id;
      assert [at[0]] + at[1..] == at;
    }
  }

  lemma DedupIdempotent(at: seq<TradeRec>)
    ensures Dedup(Dedup(at)) == Dedup(at)
  {
    DedupNoAdjacent(at);
    DedupKeeps(Dedup(at));
  }

  /** The positions of the input that `Dedup` keeps. */
  ghost function DedupIndices(at: seq<TradeRec>): seq<int>
    decreases |at|
  {
    if |at| <= 1 then seq(|at|, k => k)
    else
      var shifted := Shift(DedupIndices(at[1..]));
      if at[0].id == at[1].id then shifted else [0] + shifted
  }

  ghost function Shift(idx: seq<int>): (r: seq<int>)
    ensures |r| == |idx| && forall k :: 0 <= k < |idx| ==> r[k] == idx[k] + 1
  {
    seq(|idx|, k requires 0 <= k < |idx| => idx[k] + 1)
  }

  lemma {:induction false} DedupIndicesIncrease(at: seq<TradeRec>)
    ensures forall k :: 0 <= k < |DedupIndices(at)| ==> 0 <= DedupIndices(at)[k] < |at|
    ensures forall k, l :: 0 <= k < l < |DedupIndices(at)| ==> DedupIndices(at)[k] < DedupIndices(at)[l]
    decreases |at|
  {
    if |at| > 1 {
      DedupIndicesIncrease(at[1..]);
    }
  }

  lemma {:induction false} DedupIndicesPick(at: seq<TradeRec>)
    ensures |DedupIndices(at)| == |Dedup(at)|
    ensures forall k :: 0 <= k < |DedupIndices(at)| ==>
              0 <= DedupIndices(at)[k] < |at| && Dedup(at)[k] == at[DedupIndices(at)[k]] && RunEnd(at, DedupIndices(at)[k])
    decreases |at|
  {
    if |at| > 1 {
      var rest := at[1..];
      DedupIndicesPick(rest);
      var idx0 := DedupIndices(rest);
      var d := Dedup(rest);
      var shifted := Shift(idx0);
      forall k | 0 <= k < |shifted|
        ensures 0 < shifted[k] < |at| && d[k] == at[shifted[k]] && RunEnd(at, shifted[k])
      {
        assert RunEnd(rest, idx0[k]);
      }
      if at[0].id != at[1].id {
        var idx := [0] + shifted;
        assert Dedup(at) == [at[0]] + d;
        forall k | 0 <= k < |idx| ensures 0 <= idx[k] < |at| && Dedup(at)[k] == at[idx[k]] && RunEnd(at, idx[k]) {
          if k > 0 {
            assert idx[k] == shifted[k - 1];
          }
        }
      }
    }
  }

  /** The result is a subsequence of the input, and every trade it keeps ends a run. */
  lemma DedupRunEnds(at: seq<TradeRec>)
    ensures Embeds(DedupIndices(at), Dedup(at), at)
    ensures forall k :: 0 <= k < |DedupIndices(at)| ==> RunEnd(at, DedupIndices(at)[k])
  {
    DedupIndicesIncrease(at);
    DedupIndicesPick(at);
  }

  /** Conversely every run's last trade is kept, so repeats that are not adjacent survive. */
  lemma {:induction false} RunEndsKept(at: seq<TradeRec>, i: int)
    requires RunEnd(at, i)
    ensures i in DedupIndices(at)
    decreases |at|
  {
    if |at| <= 1 {
      assert DedupIndices(at)[i] == i;
    } else if i == 0 {
      assert at[0].id != at[1].id;
      assert DedupIndices(at)[0] == 0;
    } else {
      var rest := at[1..];
      assert RunEnd(rest, i - 1);
      RunEndsKept(rest, i - 1);
      var idx0 := DedupIndices(rest);
      var k :| 0 <= k < |idx0| && idx0[k] == i - 1;
      var shifted := Shift(idx0);
      assert shifted[k] == i;
      if at[0].id != at[1].id {
        assert DedupIndices(at)[k + 1] == shifted[k];
      }
    }
  }

  /** Deleting the first of two adjacent equal ids does not change the collapse. */
  lemma {:induction false} DedupDelete(at: seq<TradeRec>, i: int)
    requires 1 <= i < |at| && at[i - 1].id == at[i].id
    ensures Dedup(at[..i - 1] + at[i..]) == Dedup(at)
    decreases i
  {
    var at' := at[..i - 1] + at[i..];
    if i == 1 {
      assert at' == at[1..];
    } else {
      assert at'[0] == at[0];
      assert at'[1..] == at[1..][..i - 2] + at[1..][i - 1..];
      DedupDelete(at[1..], i - 1);
      if i == 2 {
        assert at'[1..] == at[2..];
        assert Dedup(at[1..]) == Dedup(at[2..]);
      } else {
        assert at'[1] == at[1];
      }
    }
  }

  /**
   * The collapse loop: scan for the first adjacent pair with equal ids,
   * delete the earlier one, and restart the scan; stop after a scan finds none.
   */
  method CollapseDuplicates(at0: seq<TradeRec>) returns (at: seq<TradeRec>)
    ensures at == Dedup(at0)
  {
    at := at0;
    var found := true;
    while found
      invariant Dedup(at) == Dedup(at0)
      invariant !found ==> NoAdjacentDup(at)
      decreases |at| + (if found then 1 else 0)
    {
      found := false;
      var i := 1;
      while i < |at|
        invariant 1 <= i
        invariant !found
        invariant forall j :: 1 <= j < i && j < |at| ==> at[j - 1].id != at[j].id
      {
        if at[i - 1].id == at[i].id {
          DedupDelete(at, i);
          at := at[..i - 1] + at[i..];
          found := true;
          break;
        }
        i := i + 1;
      }
    }
    DedupKeeps(at);
  }

  // ---------------------------------------------------------------------------
  // Resume trim.

  /** Index of the first trade with id `id`. */
  function IdIndex(at: seq<TradeRec>, id: Option<string>): (r: Option<nat>)
    ensures r.Some? ==> r.value < |at| && at[r.value].id == id
    ensures r.Some? ==> forall j :: 0 <= j < r.value ==> at[j].id != id
    ensures r.None? <==> forall j :: 0 <= j < |at| ==> at[j].id != id
  {
    FirstIndex(at, (x: TradeRec) => x.id == id)
  }

  /** With a stored eid, keep the trades after its first occurrence, if it occurs. */
  function Resume(at: seq<TradeRec>, eid: Option<string>): (r: seq<TradeRec>)
    ensures eid.None? ==> r == at
    ensures |r| <= |at| && r == at[|at| - |r|..]
  {
    if eid.None? then at
    else match IdIndex(at, eid)
      case None => at
      case Some(i) => at[i + 1..]
  }

  /** When the stored eid occurs, exactly the trades after its first occurrence are kept. */
  lemma ResumeAfterFirst(at: seq<TradeRec>, eid: string, i: int)
    requires 0 <= i < |at| && at[i].id == Some(eid)
    requires forall j :: 0 <= j < i ==> at[j].id != Some(eid)
    ensures Resume(at, Some(eid)) == at[i + 1..]
  {
    var k := IdIndex(at, Some(eid)).value;
    assert !(k < i) && !(i < k);
  }

  /** When the stored eid does not occur, everything is kept. */
  lemma ResumeAbsent(at: seq<TradeRec>, eid: Option<string>)
    requires forall j :: 0 <= j < |at| ==> at[j].id != eid
    ensures Resume(at, eid) == at
  {
  }

  /** The trim loop: walk to the first trade whose id is the stored eid. */
  method TrimCursor(at: seq<TradeRec>, eid: Option<string>) returns (r: seq<TradeRec>)
    ensures r == Resume(at, eid)
  {
    r := at;
    if eid.Some? {
      var i := 0;
      while i < |at| && at[i].id != eid
        invariant 0 <= i <= |at|
        invariant forall j :: 0 <= j < i ==> at[j].id != eid
      {
        i := i + 1;
      }
      if i < |at| {
        r := at[i + 1..];
      }
    }
  }

  // ---------------------------------------------------------------------------
  // Row mapping and insert.

  /** The trade row's side, price and amount columns for an exchange trade. */
  datatype TradeRow = TradeRow(ts: int, side: string, price: real, amount: real, eid: Option<string>)

  /** A falsy number (None or zero) is stored as 0. */
  function Numeric(x: Option<real>, dec: real -> real): (r: real)
    ensures x.None? || x.value == 0.0 ==> r == 0.0
    ensures x.Some? && x.value != 0.0 ==> r == dec(x.value)
  {
    if x.Some? && x.value != 0.0 then dec(x.value) else 0.0
  }

  function ToRow(e: TradeRec, dec: real -> real): (r: TradeRow)
    ensures |r.side| == 1 && (r.side == "B" <==> e.side == "buy") && (r.side == "S" <==> e.side != "buy")
    ensures r.ts == e.timestamp && r.eid == e.id
    ensures r.price == Numeric(e.price, dec) && r.amount == Numeric(e.amount, dec)
  {
    TradeRow(e.timestamp, if e.side == "buy" then "B" else "S", Numeric(e.price, dec), Numeric(e.amount, dec), e.id)
  }

  /** The stored form of trade `e` for `market` under key `id`. */
  function StoredTrade(id: int, market: int, e: TradeRec, dec: real -> real): (r: Trade)
    ensures r.tradeId == id && r.exchangeMarketId == market && r.ts == e.timestamp && r.eid == e.id
    ensures |r.side| == 1 && (r.side == "B" <==> e.side == "buy")
    ensures r.price == Numeric(e.price, dec) && r.amount == Numeric(e.amount, dec) && r.fee.None?
  {
    var r := ToRow(e, dec);
    Trade(id, market, r.ts, r.side, r.price, r.amount, None, r.eid)
  }

  /** The rows stored for `at`, one per trade in order, under keys `first`, `first + 1`, ... */
  function StoredRows(first: int, market: int, at: seq<TradeRec>, dec: real -> real): (r: seq<Trade>)
    ensures |r| == |at|
    ensures forall k :: 0 <= k < |at| ==> r[k] == StoredTrade(first + k, market, at[k], dec)
  {
    seq(|at|, k requires 0 <= k < |at| => StoredTrade(first + k, market, at[k], dec))
  }

  lemma StoredRowsLast(first: int, market: int, at: seq<TradeRec>, dec: real -> real)
    requires |at| > 0
    ensures var n := |at| - 1;
            StoredRows(first, market, at, dec) == StoredRows(first, market, at[..n], dec) + [StoredTrade(first + n, market, at[n], dec)]
  {
  }

  /**
   * The rows inserted for `at`, one insert per trade in order; fee is left
   * NULL. They are appended under consecutive keys, and no other table
   * changes.
   */
  function InsertTrades(t: Tables, market: int, at: seq<TradeRec>, dec: real -> real): (r: Tables)
    ensures r.trades == t.trades + StoredRows(t.nextId, market, at, dec)
    ensures r.nextId == t.nextId + |at|
    ensures r == t.(trades := r.trades, nextId := r.nextId)
    decreases |at|
  {
    if |at| == 0 then t
    else
      var n := |at| - 1;
      var row, t1 := ToRow(at[n], dec), InsertTrades(t, market, at[..n], dec);
      StoredRowsLast(t.nextId, market, at, dec);
      var rows0, last := StoredRows(t.nextId, market, at[..n], dec), StoredTrade(t.nextId + n, market, at[n], dec);
      assert (t.trades + rows0) + [last] == t.trades + (rows0 + [last]);
      InsertTrade(t1, market, row.ts, row.side, row.price, row.amount, None, row.eid)
  }

  lemma {:induction false} InsertTradesValid(t: Tables, market: int, at: seq<TradeRec>, dec: real -> real)
    requires TablesValid(t) && market in KeySet(t.markets, MarketKey)
    ensures TablesValid(InsertTrades(t, market, at, dec))
    decreases |at|
  {
    if |at| > 0 {
      var n := |at| - 1;
      var r := ToRow(at[n], dec);
      InsertTradesValid(t, market, at[..n], dec);
      TradeAdded(InsertTrades(t, market, at[..n], dec), market, r.ts, r.side, r.price, r.amount, None, r.eid);
    }
  }

  // ---------------------------------------------------------------------------
  // The whole call.

  datatype TradesOutcome =
    | Stored(count: nat)              // `count` trades were committed (possibly none)
    | TradesFetchFailed               // a fetch raised: the trade inserts are rolled back
    | TradesRegistryFailed(error: DbError)

  /** The trades of one page run, collapsed and trimmed, that the call inserts. */
  function Kept(fetch: (string, int) -> Option<seq<TradeRec>>, market: string, now: int, yday: int,
                last: Option<Trade>): (r: Option<seq<TradeRec>>)
    ensures r.Some? ==> NoAdjacentDup(r.value)
  {
    var since := if last.Some? then last.value.ts else BootstrapSince(now, yday);
    var eid := ResumeEid(last);
    match Paginate(fetch, market, now, since, StartId(eid), [])
    case None => None
    case Some(at) =>
      var d := Dedup(at);
      DedupNoAdjacent(at);
      NoAdjacentSuffix(d, |d| - |Resume(d, eid)|);
      Some(Resume(d, eid))
  }

  /** A run of trades without adjacent repeats keeps that property from any position on. */
  lemma NoAdjacentSuffix(at: seq<TradeRec>, k: nat)
    requires NoAdjacentDup(at) && k <= |at|
    ensures NoAdjacentDup(at[k..])
  {
    forall i | 1 <= i < |at[k..]| ensures at[k..][i - 1].id != at[k..][i].id {
      assert at[k..][i - 1] == at[k + i - 1] && at[k..][i] == at[k + i];
    }
  }

  /** The insert and commit once the kept trades are known; None when a fetch raised. */
  function StoreKept(t: Tables, market: int, kept: Option<seq<TradeRec>>, dec: real -> real): (r: (Tables, TradesOutcome))
    ensures r.1.Stored? <==> kept.Some?
    ensures kept.None? ==> r.0 == t
    ensures kept.Some? ==> r.1.count == |kept.value| && t.trades <= r.0.trades && |r.0.trades| == |t.trades| + r.1.count
    ensures r.0 == t.(trades := r.0.trades, nextId := r.0.nextId)
  {
    match kept
    case None => (t, TradesFetchFailed)
    case Some(at) => (InsertTrades(t, market, at, dec), Stored(|at|))
  }

  /** `snap_trades` on the tables. */
  function IngestTrades(t: Tables, now: int, yday: int, exchange: string, base: string, quote: string,
                        fetch: (string, int) -> Option<seq<TradeRec>>, dec: real -> real): (r: (Tables, TradesOutcome))
    ensures r.0.snaps == t.snaps && r.0.stats == t.stats && r.0.bids == t.bids && r.0.asks == t.asks
    ensures t.trades <= r.0.trades && (!r.1.Stored? ==> r.0.trades == t.trades)
  {
    var (t1, reg) := Register(t, exchange, base, quote);
    if reg.Failure? then (t1, TradesRegistryFailed(reg.error))
    else
      var m := reg.value.marketId;
      StoreKept(t1, m, Kept(fetch, MarketSymbol(base, quote), now, yday, LastTrade(t1.trades, m)), dec)
  }

  lemma StoreKeptEffect(t: Tables, market: int, kept: Option<seq<TradeRec>>, dec: real -> real)
    requires TablesValid(t) && market in KeySet(t.markets, MarketKey)
    ensures var (t', o) := StoreKept(t, market, kept, dec);
            && TablesValid(t')
            && (o.Stored? <==> kept.Some?)
            && (kept.None? ==> t' == t)
            && (kept.Some? ==>
                  && o.count == |kept.value|
                  && t' == t.(trades := t'.trades, nextId := t'.nextId)
                  && t'.trades == t.trades + StoredRows(t.nextId, market, kept.value, dec))
  {
    if kept.Some? {
      InsertTradesValid(t, market, kept.value, dec);
    }
  }

  /**
   * `snap_trades` keeps the constraints and only appends trades of the
   * market, one per kept exchange trade, in order; on failure only the
   * registry's commits remain.
   */
  lemma IngestTradesValid(t: Tables, now: int, yday: int, exchange: string, base: string, quote: string,
                          fetch: (string, int) -> Option<seq<TradeRec>>, dec: real -> real)
    requires TablesValid(t)
    ensures var (t', o) := IngestTrades(t, now, yday, exchange, base, quote, fetch, dec);
            var (t1, reg) := Register(t, exchange, base, quote);
            && TablesValid(t')
            && (!o.Stored? ==> t' == t1)
            && (o.Stored? ==>
                  var kept := Kept(fetch, MarketSymbol(base, quote), now, yday, LastTrade(t1.trades, reg.value.marketId)).value;
                  && reg.Success? && o.count == |kept|
                  && t' == t1.(trades := t'.trades, nextId := t'.nextId)
                  && t'.trades == t1.trades + StoredRows(t1.nextId, reg.value.marketId, kept, dec))
  {
    var (t1, reg) := Register(t, exchange, base, quote);
    RegisterCorrect(t, exchange, base, quote);
    if reg.Success? {
      RegisteredMarket(t, exchange, base, quote);
      var m := reg.value.marketId;
      var kept := Kept(fetch, MarketSymbol(base, quote), now, yday, LastTrade(t1.trades, m));
      StoreKeptEffect(t1, m, kept, dec);
    }
  }

  /**
   * After a call that stored trades, the next call resumes from the last of
   * them: the market's highest trade_id is the row of the last kept trade.
   */
  lemma IngestTradesResumes(t: Tables, now: int, yday: int, exchange: string, base: string, quote: string,
                            fetch: (string, int) -> Option<seq<TradeRec>>, dec: real -> real)
    requires TablesValid(t)
    requires IngestTrades(t, now, yday, exchange, base, quote, fetch, dec).1.Stored?
    requires IngestTrades(t, now, yday, exchange, base, quote, fetch, dec).1.count > 0
    ensures var (t', o) := IngestTrades(t, now, yday, exchange, base, quote, fetch, dec);
            var (t1, reg) := Register(t, exchange, base, quote);
            var kept := Kept(fetch, MarketSymbol(base, quote), now, yday, LastTrade(t1.trades, reg.value.marketId)).value;
            var last := LastTrade(t'.trades, reg.value.marketId);
            && last.Some?
            && last.value.ts == kept[|kept| - 1].timestamp && last.value.eid == kept[|kept| - 1].id
  {
    var (t', o) := IngestTrades(t, now, yday, exchange, base, quote, fetch, dec);
    var (t1, reg) := Register(t, exchange, base, quote);
    IngestTradesValid(t, now, yday, exchange, base, quote, fetch, dec);
    var m := reg.value.marketId;
    var kept := Kept(fetch, MarketSymbol(base, quote), now, yday, LastTrade(t1.trades, m)).value;
    var rows := StoredRows(t1.nextId, m, kept, dec);
    assert t'.trades == t1.trades + rows;
    AppendedLast(t1.trades, rows, t'.nextId);
  }

  /** Rows appended under increasing keys: the last of them is its market's highest trade_id. */
  lemma AppendedLast(trades: seq<Trade>, rows: seq<Trade>, next: int)
    requires |rows| > 0 && KeysIncreasing(trades + rows, TradeKey, next)
    ensures LastTrade(trades + rows, rows[|rows| - 1].exchangeMarketId) == Some(rows[|rows| - 1])
  {
    var all := trades + rows;
    assert all[|all| - 1] == rows[|rows| - 1];
    LastRowIsLast(all, next);
  }

  /** One more trade of `at` is one more insert. */
  lemma InsertTradesStep(t: Tables, market: int, at: seq<TradeRec>, k: nat, dec: real -> real)
    requires k < |at|
    ensures var r := ToRow(at[k], dec);
            InsertTrades(t, market, at[..k + 1], dec)
            == InsertTrade(InsertTrades(t, market, at[..k], dec), market, r.ts, r.side, r.price, r.amount, None, r.eid)
  {
    assert at[..k + 1][..k] == at[..k];
  }

  method AppendTrades(db: Database, market: int, at: seq<TradeRec>, dec: real -> real)
    modifies db
    ensures db.tables == InsertTrades(old(db.tables), market, at, dec)
  {
    ghost var t0 := db.tables;
    var k := 0;
    while k < |at|
      invariant 0 <= k <= |at|
      invariant db.tables == InsertTrades(t0, market, at[..k], dec)
    {
      var r := ToRow(at[k], dec);
      InsertTradesStep(t0, market, at, k, dec);
      var _ := db.AddTrade(market, r.ts, r.side, r.price, r.amount, None, r.eid);
      k := k + 1;
    }
    assert at[..k] == at;
  }

  /** `snap_trades` for one market. */
  method SnapTrades(db: Database, now: int, yday: int, exchange: string, base: string, quote: string,
                    fetch: (string, int) -> Option<seq<TradeRec>>, dec: real -> real)
    returns (o: TradesOutcome)
    requires db.Valid()
    modifies db
    ensures db.Valid() && (db.tables, o) == IngestTrades(old(db.tables), now, yday, exchange, base, quote, fetch, dec)
  {
    IngestTradesValid(db.tables, now, yday, exchange, base, quote, fetch, dec);
    var reg := EnsureExchangeMarket(db, exchange, base, quote);
    if reg.Failure? {
      return TradesRegistryFailed(reg.error);
    }
    var m := reg.value.marketId;
    var last := LastTrade(db.tables.trades, m);
    var since := if last.Some? then last.value.ts else BootstrapSince(now, yday);
    var eid := ResumeEid(last);
    var pages := FetchPages(fetch, MarketSymbol(base, quote), now, since, StartId(eid));
    if pages.None? {
      return TradesFetchFailed;
    }
    var at := CollapseDuplicates(pages.value);
    at := TrimCursor(at, eid);
    AppendTrades(db, m, at, dec);
    o := Stored(|at|);
  }
}
