/**
 * The depth-statistics batch of bdata_stat.py: one run of its block takes up
 * to ten pending order book snapshots, highest id first, replaces each one's
 * stat rows by fresh ones (one per depth in `AN`), marks it processed,
 * and then deletes the book lines of the last snapshot it took.
 *
 * The server-side function `bookSnapStat(bsid, n)` is a parameter: its
 * body is not part of this model.
 */
module DepthStat {
  import opened Wrappers
  import opened Schema

  /** The depths, in the order the block visits them. */
  const AN: seq<nat> := [1, 2, 3, 4, 5, 6, 7, 8, 9, 10, 11, 12, 13, 14, 15, 16, 17, 18, 19, 20,
                         30, 40, 50, 60, 70, 80, 90, 100]

  /** How many snapshots one run of the block takes at most (`for i in 1..10`). */
  const BATCH := 10

  // ---------------------------------------------------------------- stat codes

  function DigitChar(d: nat): (c: char)
    requires d < 10
    ensures '0' <= c <= '9' && c as int - '0' as int == d
  {
    ('0' as int + d) as char
  }

  /** `n::text` for a non-negative integer: its decimal digits, without leading zeros. */
  function Decimal(n: nat): (r: string)
    ensures |r| >= 1 && (n < 10 <==> |r| == 1)
    ensures r[|r| - 1] == DigitChar(n % 10)
    ensures n > 0 ==> r[0] != '0'
    decreases n
  {
    if n < 10 then [DigitChar(n)] else Decimal(n / 10) + [DigitChar(n % 10)]
  }

  /** Different numbers have different decimal texts. */
  lemma {:induction false} DecimalInjective(a: nat, b: nat)
    requires Decimal(a) == Decimal(b)
    ensures a == b
    decreases a
  {
    if a >= 10 && b >= 10 {
      var da, db := Decimal(a), Decimal(b);
      assert da[..|da| - 1] == Decimal(a / 10);
      assert db[..|db| - 1] == Decimal(b / 10);
      DecimalInjective(a / 10, b / 10);
    }
  }

  /** The number a string of decimal digits spells, read left to right. */
  function DigitsValue(s: string): (v: nat)
    requires forall i :: 0 <= i < |s| ==> '0' <= s[i] <= '9'
    ensures |s| == 1 ==> v == s[0] as int - '0' as int
  {
    if |s| == 0 then 0 else DigitsValue(s[..|s| - 1]) * 10 + (s[|s| - 1] as int - '0' as int)
  }

  /** `n::text` spells `n`: every character is a digit, and the digits read back as `n`. */
  lemma {:induction false} DecimalValue(n: nat)
    ensures forall i :: 0 <= i < |Decimal(n)| ==> '0' <= Decimal(n)[i] <= '9'
    ensures DigitsValue(Decimal(n)) == n
    decreases n
  {
    if n >= 10 {
      DecimalValue(n / 10);
      var d := Decimal(n);
      assert d[..|d| - 1] == Decimal(n / 10);
    }
  }

  /** The code of the stat row for depth `n`: `'r' || n::text`. */
  function StatCode(n: nat): (r: string)
    ensures |r| >= 2 && r[0] == 'r' && r[1..] == Decimal(n)
  {
    "r" + Decimal(n)
  }

  lemma StatCodeInjective(a: nat, b: nat)
    ensures StatCode(a) == StatCode(b) ==> a == b
  {
    if StatCode(a) == StatCode(b) {
      DecimalInjective(a, b);
    }
  }

  /** Each depth is larger than the one before it. */
  ghost predicate Increasing(ns: seq<nat>) {
    forall i :: 0 <= i < |ns| - 1 ==> ns[i] < ns[i + 1]
  }

  lemma {:induction false} IncreasingApart(ns: seq<nat>, i: int, j: int)
    requires Increasing(ns) && 0 <= i < j < |ns|
    ensures ns[i] < ns[j]
    decreases j - i
  {
    if i + 1 < j {
      IncreasingApart(ns, i + 1, j);
    }
  }

  lemma ANIncreasing()
    ensures Increasing(AN)
  {
  }

  /** Increasing depths give pairwise different codes, as the unique (book_snap_id, code) key needs. */
  lemma StatCodesDistinct(ns: seq<nat>)
    requires Increasing(ns)
    ensures forall i, j :: 0 <= i < j < |ns| ==> StatCode(ns[i]) != StatCode(ns[j])
  {
    forall i, j | 0 <= i < j < |ns|
      ensures StatCode(ns[i]) != StatCode(ns[j])
    {
      IncreasingApart(ns, i, j);
      StatCodeInjective(ns[i], ns[j]);
    }
  }

  // ------------------------------------------------------------- one snapshot

  /** The stat rows the `foreach` loop inserts for snapshot `b`, numbered from `first`. */
  function StatRows(first: int, b: int, ns: seq<nat>, f: (int, int) -> Json): (r: seq<BookSnapStat>)
    ensures |r| == |ns|
  {
    seq(|ns|, k requires 0 <= k < |ns| => BookSnapStat(first + k, b, StatCode(ns[k]), f(b, ns[k])))
  }

  /** The (code, data) pairs of those rows. */
  function StatPairs(b: int, ns: seq<nat>, f: (int, int) -> Json): (r: seq<(string, Json)>)
    ensures |r| == |ns|
  {
    seq(|ns|, k requires 0 <= k < |ns| => (StatCode(ns[k]), f(b, ns[k])))
  }

  /**
   * The inner `foreach n in array an` loop, as a whole: it appends the rows
   * of `StatRows` and changes no other table. `InsertStatsLast` relates it
   * to the single inserts the loop issues.
   */
  function InsertStats(t: Tables, b: int, ns: seq<nat>, f: (int, int) -> Json): (r: Tables)
    ensures |r.stats| == |t.stats| + |ns|
    ensures r == t.(stats := r.stats, nextId := t.nextId + |ns|)
  {
    t.(stats := t.stats + StatRows(t.nextId, b, ns, f), nextId := t.nextId + |ns|)
  }

  /** The loop over `ns` is the loop over all but its last depth followed by one insert. */
  lemma InsertStatsLast(t: Tables, b: int, ns: seq<nat>, f: (int, int) -> Json)
    requires |ns| > 0
    ensures var n := ns[|ns| - 1];
            InsertStats(t, b, ns, f) == InsertStat(InsertStats(t, b, ns[..|ns| - 1], f), b, StatCode(n), f(b, n))
  {
    StatRowsLast(t.nextId, b, ns, f);
  }

  /** The rows for the depths are the rows for all but the last depth, then one row for it. */
  lemma StatRowsLast(first: int, b: int, ns: seq<nat>, f: (int, int) -> Json)
    requires |ns| > 0
    ensures var n := ns[|ns| - 1];
            StatRows(first, b, ns, f) == StatRows(first, b, ns[..|ns| - 1], f) + [BookSnapStat(first + |ns| - 1, b, StatCode(n), f(b, n))]
  {
    var rows, rows0 := StatRows(first, b, ns, f), StatRows(first, b, ns[..|ns| - 1], f);
    forall k | 0 <= k < |rows0|
      ensures rows[k] == rows0[k]
    {
      assert ns[..|ns| - 1][k] == ns[k];
    }
  }

  lemma StatPairsLast(b: int, ns: seq<nat>, f: (int, int) -> Json)
    requires |ns| > 0
    ensures var n := ns[|ns| - 1];
            StatPairs(b, ns, f) == StatPairs(b, ns[..|ns| - 1], f) + [(StatCode(n), f(b, n))]
  {
    var pairs, pairs0 := StatPairs(b, ns, f), StatPairs(b, ns[..|ns| - 1], f);
    forall k | 0 <= k < |pairs0|
      ensures pairs[k] == pairs0[k]
    {
      assert ns[..|ns| - 1][k] == ns[k];
    }
  }

  /** Appending those rows adds their pairs to snapshot `b`'s stats and nothing to any other snapshot's. */
  lemma {:induction false} StatsOfRows(stats: seq<BookSnapStat>, first: int, b: int, ns: seq<nat>, f: (int, int) -> Json, s: int)
    ensures StatsOf(stats + StatRows(first, b, ns, f), s) == StatsOf(stats, s) + (if s == b then StatPairs(b, ns, f) else [])
    decreases |ns|
  {
    if |ns| == 0 {
      assert stats + StatRows(first, b, ns, f) == stats;
    } else {
      var init := ns[..|ns| - 1];
      var rows0 := StatRows(first, b, init, f);
      var last := BookSnapStat(first + |ns| - 1, b, StatCode(ns[|ns| - 1]), f(b, ns[|ns| - 1]));
      StatsOfRows(stats, first, b, init, f, s);
      StatRowsLast(first, b, ns, f);
      StatPairsLast(b, ns, f);
      assert stats + StatRows(first, b, ns, f) == (stats + rows0) + [last];
      StatsOfAppend(stats + rows0, last, s);
    }
  }

  /** The rows for all but the last depth of an increasing array leave the last depth's slot free. */
  lemma RowsAvoidLast(first: int, b: int, ns: seq<nat>, f: (int, int) -> Json, k: nat)
    requires Increasing(ns) && k < |ns| - 1
    ensures StatSlot(StatRows(first, b, ns[..|ns| - 1], f)[k]) != (b, StatCode(ns[|ns| - 1]))
  {
    IncreasingApart(ns, k, |ns| - 1);
    StatCodeInjective(ns[k], ns[|ns| - 1]);
  }

  /**
   * The inserts never violate the unique (book_snap_id, code) index when the
   * snapshot has no stat rows yet and the depths are distinct.
   */
  lemma {:induction false} InsertStatsValid(t: Tables, b: int, ns: seq<nat>, f: (int, int) -> Json)
    requires TablesValid(t) && b in KeySet(t.snaps, SnapKey)
    requires forall i :: 0 <= i < |t.stats| ==> t.stats[i].bookSnapId != b
    requires Increasing(ns)
    ensures TablesValid(InsertStats(t, b, ns, f))
    decreases |ns|
  {
    if |ns| > 0 {
      var init, n := ns[..|ns| - 1], ns[|ns| - 1];
      assert Increasing(init) by {
        forall i | 0 <= i < |init| - 1
          ensures init[i] < init[i + 1]
        {
          assert init[i] == ns[i] && init[i + 1] == ns[i + 1];
        }
      }
      InsertStatsValid(t, b, init, f);
      InsertStatsLast(t, b, ns, f);
      var t1 := InsertStats(t, b, init, f);
      var rows := StatRows(t.nextId, b, init, f);
      assert t1.stats == t.stats + rows;
      forall i | 0 <= i < |t1.stats|
        ensures StatSlot(t1.stats[i]) != (b, StatCode(n))
      {
        if i >= |t.stats| {
          RowsAvoidLast(t.nextId, b, ns, f, i - |t.stats|);
        }
      }
      StatAdded(t1, b, StatCode(n), f(b, n));
    }
  }

  /**
   * One pass of the outer loop's body for snapshot `b`: delete its stat rows,
   * insert one per depth, and set its `stat` flag. The depth list is a
   * parameter here; `MakeStat` passes `AN`.
   */
  function ProcessSnap(t: Tables, b: int, depths: seq<nat>, f: (int, int) -> Json): (r: Tables)
    ensures |r.snaps| == |t.snaps|
    ensures forall i :: 0 <= i < |t.snaps| ==>
              r.snaps[i].stat == if t.snaps[i].bookSnapId == b then Some(true) else t.snaps[i].stat
    ensures r == t.(snaps := r.snaps, stats := r.stats, nextId := t.nextId + |depths|)
  {
    MarkStatDoneOf(InsertStats(DeleteStatsOf(t, b), b, depths, f), b)
  }

  lemma ProcessSnapValid(t: Tables, b: int, depths: seq<nat>, f: (int, int) -> Json)
    requires TablesValid(t) && b in KeySet(t.snaps, SnapKey) && Increasing(depths)
    ensures TablesValid(ProcessSnap(t, b, depths, f))
    ensures KeySet(ProcessSnap(t, b, depths, f).snaps, SnapKey) == KeySet(t.snaps, SnapKey)
  {
    var t1 := DeleteStatsOf(t, b);
    StatsDeleted(t, b);
    forall i | 0 <= i < |t1.stats|
      ensures t1.stats[i].bookSnapId != b
    {
      DropMembers(t.stats, StatSnap, b, t1.stats[i]);
    }
    InsertStatsValid(t1, b, depths, f);
    StatMarked(InsertStats(t1, b, depths, f), b);
  }

  /**
   * After the pass, snapshot `b` has exactly one stat row per depth, in the
   * order of the depths, whatever it had before, and every other snapshot
   * keeps its stat rows.
   */
  lemma ProcessSnapStats(t: Tables, b: int, depths: seq<nat>, f: (int, int) -> Json, s: int)
    ensures StatsOf(ProcessSnap(t, b, depths, f).stats, s) == if s == b then StatPairs(b, depths, f) else StatsOf(t.stats, s)
  {
    var t1 := DeleteStatsOf(t, b);
    StatsOfDrop(t.stats, b, s);
    StatsOfRows(t1.stats, t1.nextId, b, depths, f, s);
  }

  // ------------------------------------------------------- choosing snapshots

  /** The ids of the snapshots the block may still pick: those with `stat = false`. */
  ghost function PendingIds(snaps: seq<BookSnap>): set<int> {
    if |snaps| == 0 then {}
    else
      var s := snaps[|snaps| - 1];
      PendingIds(snaps[..|snaps| - 1]) + (if s.stat == Some(false) then {s.bookSnapId} else {})
  }

  /** `select max(book_snap_id) from book_snap where stat = false`; None is SQL NULL. */
  function Pending(snaps: seq<BookSnap>): (r: Option<int>)
    ensures r.None? <==> PendingIds(snaps) == {}
    ensures r.Some? ==> r.value in PendingIds(snaps) && forall p :: p in PendingIds(snaps) ==> p <= r.value
  {
    if |snaps| == 0 then None
    else
      var rest := Pending(snaps[..|snaps| - 1]);
      var s := snaps[|snaps| - 1];
      if s.stat != Some(false) then rest
      else if rest.Some? && rest.value >= s.bookSnapId then rest
      else Some(s.bookSnapId)
  }

  lemma {:induction false} PendingIsKey(snaps: seq<BookSnap>, p: int)
    requires p in PendingIds(snaps)
    ensures p in KeySet(snaps, SnapKey)
    decreases |snaps|
  {
    var init := snaps[..|snaps| - 1];
    if p in PendingIds(init) {
      PendingIsKey(init, p);
      var i :| 0 <= i < |init| && SnapKey(init[i]) == p;
      assert SnapKey(snaps[i]) == p;
    } else {
      assert SnapKey(snaps[|snaps| - 1]) == p;
    }
  }

  /** Setting the flag of `b` takes exactly `b` out of the pending ids. */
  lemma {:induction false} PendingIdsMarked(snaps: seq<BookSnap>, b: int)
    ensures PendingIds(WithStatDone(snaps, b)) == PendingIds(snaps) - {b}
    decreases |snaps|
  {
    if |snaps| > 0 {
      var init := snaps[..|snaps| - 1];
      var w := WithStatDone(snaps, b);
      PendingIdsMarked(init, b);
      assert w[..|w| - 1] == WithStatDone(init, b);
    }
  }

  /**
   * The snapshots the outer `for i in 1..n` loop takes, in order: each round
   * selects the highest pending id, and the loop stops early (`return`) when
   * there is none. The selection depends on the `stat` flags alone.
   */
  function Taken(snaps: seq<BookSnap>, n: nat): (ps: seq<int>)
    ensures |ps| <= n
    decreases n
  {
    if n == 0 then []
    else
      match Pending(snaps)
      case None => []
      case Some(b) => [b] + Taken(WithStatDone(snaps, b), n - 1)
  }

  /** The flags after the snapshots `ps` were processed, first to last. */
  function MarkAll(snaps: seq<BookSnap>, ps: seq<int>): (r: seq<BookSnap>)
    ensures |r| == |snaps|
    ensures forall i :: 0 <= i < |snaps| ==> r[i].bookSnapId == snaps[i].bookSnapId
    decreases |ps|
  {
    if |ps| == 0 then snaps else MarkAll(WithStatDone(snaps, ps[0]), ps[1..])
  }

  ghost predicate Decreasing(ps: seq<int>) {
    forall i, j :: 0 <= i < j < |ps| ==> ps[i] > ps[j]
  }

  lemma ConsDecreasing(b: int, ps: seq<int>)
    requires Decreasing(ps) && forall q :: q in ps ==> q < b
    ensures Decreasing([b] + ps)
  {
    forall i, j | 0 <= i < j < |[b] + ps|
      ensures ([b] + ps)[i] > ([b] + ps)[j]
    {
      if i == 0 {
        assert ([b] + ps)[j] in ps;
      } else {
        assert ([b] + ps)[i] == ps[i - 1];
      }
    }
  }

  ghost function Members(ps: seq<int>): set<int>
    decreases |ps|
  {
    if |ps| == 0 then {} else {ps[0]} + Members(ps[1..])
  }

  /** A round that finds a pending snapshot takes it first, then the rounds left run on the marked flags. */
  lemma TakenCons(snaps: seq<BookSnap>, n: nat)
    requires n > 0 && Pending(snaps).Some?
    ensures var b := Pending(snaps).value;
            var w := WithStatDone(snaps, b);
            && Taken(snaps, n) == [b] + Taken(w, n - 1)
            && MarkAll(snaps, Taken(snaps, n)) == MarkAll(w, Taken(w, n - 1))
  {
    var b := Pending(snaps).value;
    var ps := Taken(snaps, n);
    assert ps == [b] + Taken(WithStatDone(snaps, b), n - 1);
    assert ps[1..] == Taken(WithStatDone(snaps, b), n - 1);
  }

  lemma MembersCons(b: int, ps: seq<int>)
    ensures Members([b] + ps) == {b} + Members(ps)
  {
    assert ([b] + ps)[1..] == ps;
  }

  /**
   * The loop takes pending snapshots from the highest id down, each at most
   * once.
   */
  lemma {:induction false} TakenPicks(snaps: seq<BookSnap>, n: nat)
    ensures Decreasing(Taken(snaps, n)) && Members(Taken(snaps, n)) <= PendingIds(snaps)
    decreases n
  {
    if n > 0 && Pending(snaps).Some? {
      var b := Pending(snaps).value;
      var w := WithStatDone(snaps, b);
      TakenPicks(w, n - 1);
      PendingIdsMarked(snaps, b);
      PicksCons(b, Taken(w, n - 1), PendingIds(snaps), PendingIds(w));
      TakenCons(snaps, n);
    }
  }

  /** Putting the highest pending id in front of picks taken from the others keeps them decreasing and pending. */
  lemma PicksCons(b: int, rest: seq<int>, pend: set<int>, pendRest: set<int>)
    requires Decreasing(rest) && Members(rest) <= pendRest && pendRest == pend - {b}
    requires b in pend && forall p :: p in pend ==> p <= b
    ensures Decreasing([b] + rest) && Members([b] + rest) <= pend
  {
    MembersCons(b, rest);
    forall q | q in rest
      ensures q < b
    {
      MembersIn(rest, q);
    }
    ConsDecreasing(b, rest);
  }

  /** Afterwards exactly the snapshots the loop did not take are pending. */
  lemma {:induction false} TakenLeaves(snaps: seq<BookSnap>, n: nat)
    ensures var ps := Taken(snaps, n);
            PendingIds(MarkAll(snaps, ps)) == PendingIds(snaps) - Members(ps)
    decreases n
  {
    if n > 0 && Pending(snaps).Some? {
      var b := Pending(snaps).value;
      var w := WithStatDone(snaps, b);
      PendingIdsMarked(snaps, b);
      TakenLeaves(w, n - 1);
      MembersCons(b, Taken(w, n - 1));
      TakenCons(snaps, n);
    }
  }


  /** One more round in front keeps the ids left pending below the last one taken. */
  lemma RestCons(b: int, rest: seq<int>, n: nat, pend: set<int>, pendRest: set<int>, after: set<int>)
    requires pendRest == pend - {b} && forall p :: p in pend ==> p <= b
    requires |rest| > 0 ==> forall p :: p in after ==> p < rest[|rest| - 1]
    requires |rest| < n - 1 ==> after == {}
    requires |rest| == 0 ==> after == pendRest
    ensures forall p :: p in after ==> p < ([b] + rest)[|rest|]
    ensures |[b] + rest| < n ==> after == {}
  {
  }

  /**
   * Every snapshot still pending afterwards has a lower id than the last one
   * taken, and none is left when the loop stopped short of `n` rounds.
   */
  lemma {:induction false} TakenRest(snaps: seq<BookSnap>, n: nat)
    ensures var ps := Taken(snaps, n);
            var after := PendingIds(MarkAll(snaps, ps));
            && (|ps| > 0 ==> forall p :: p in after ==> p < ps[|ps| - 1])
            && (|ps| < n ==> after == {})
    decreases n
  {
    if n > 0 && Pending(snaps).Some? {
      var b := Pending(snaps).value;
      var w := WithStatDone(snaps, b);
      var rest := Taken(w, n - 1);
      TakenRest(w, n - 1);
      PendingIdsMarked(snaps, b);
      if |rest| == 0 {
        assert MarkAll(w, rest) == w;
      }
      RestCons(b, rest, n, PendingIds(snaps), PendingIds(w), PendingIds(MarkAll(w, rest)));
      TakenCons(snaps, n);
    } else if n > 0 {
      assert Taken(snaps, n) == [] && MarkAll(snaps, []) == snaps;
    }
  }


  lemma {:induction false} MembersIn(ps: seq<int>, q: int)
    ensures q in ps <==> q in Members(ps)
    decreases |ps|
  {
    if |ps| > 0 {
      MembersIn(ps[1..], q);
      assert ps == [ps[0]] + ps[1..];
    }
  }

  /** Processing flags exactly the snapshots processed; no snapshot row is added, removed or otherwise changed. */
  lemma {:induction false} MarkAllEffect(snaps: seq<BookSnap>, ps: seq<int>)
    ensures var r := MarkAll(snaps, ps);
            && |r| == |snaps|
            && forall i :: 0 <= i < |snaps| ==>
                 r[i] == if snaps[i].bookSnapId in ps then snaps[i].(stat := Some(true)) else snaps[i]
    decreases |ps|
  {
    if |ps| > 0 {
      var w := WithStatDone(snaps, ps[0]);
      MarkAllEffect(w, ps[1..]);
      forall i | 0 <= i < |snaps|
        ensures snaps[i].bookSnapId in ps <==> snaps[i].bookSnapId == ps[0] || snaps[i].bookSnapId in ps[1..]
      {
        assert ps == [ps[0]] + ps[1..];
      }
    }
  }

  // ------------------------------------------------------------ the whole run

  /** Processing the snapshots `ps`, first to last. */
  function ProcessAll(t: Tables, ps: seq<int>, depths: seq<nat>, f: (int, int) -> Json): (r: Tables)
    ensures |r.snaps| == |t.snaps| && r.nextId == t.nextId + |ps| * |depths|
    ensures r == t.(snaps := r.snaps, stats := r.stats, nextId := r.nextId)
    decreases |ps|
  {
    if |ps| == 0 then t else ProcessAll(ProcessSnap(t, ps[0], depths, f), ps[1..], depths, f)
  }

  /**
   * One run of the block: the snapshots it takes are processed, and the
   * lines of the last one are deleted only when all ten rounds ran (the
   * early `return` skips the deletes).
   */
  function StatBatch(t: Tables, depths: seq<nat>, f: (int, int) -> Json): (r: Tables)
    ensures |r.snaps| == |t.snaps|
    ensures r.trades == t.trades && r.exchanges == t.exchanges && r.tokens == t.tokens && r.markets == t.markets
  {
    var ps := Taken(t.snaps, BATCH);
    var t' := ProcessAll(t, ps, depths, f);
    if |ps| < BATCH then t' else DeleteLinesOf(t', ps[BATCH - 1])
  }

  /** Processing changes the stat rows, the flags and the key sequence, and nothing else. */
  lemma {:induction false} ProcessAllFrame(t: Tables, ps: seq<int>, depths: seq<nat>, f: (int, int) -> Json)
    ensures var r := ProcessAll(t, ps, depths, f);
            r == t.(stats := r.stats, snaps := MarkAll(t.snaps, ps), nextId := r.nextId)
    decreases |ps|
  {
    if |ps| > 0 {
      ProcessAllFrame(ProcessSnap(t, ps[0], depths, f), ps[1..], depths, f);
    }
  }

  /** Each snapshot processed ends with one stat row per depth, in order; every other snapshot keeps its stat rows. */
  lemma {:induction false} ProcessAllStats(t: Tables, ps: seq<int>, depths: seq<nat>, f: (int, int) -> Json, s: int)
    requires Decreasing(ps)
    ensures StatsOf(ProcessAll(t, ps, depths, f).stats, s) == if s in ps then StatPairs(s, depths, f) else StatsOf(t.stats, s)
    decreases |ps|
  {
    if |ps| > 0 {
      var t1 := ProcessSnap(t, ps[0], depths, f);
      ProcessSnapStats(t, ps[0], depths, f, s);
      ProcessAllStats(t1, ps[1..], depths, f, s);
      assert ps == [ps[0]] + ps[1..];
      if s == ps[0] {
        assert s !in ps[1..];
      }
    }
  }

  lemma {:induction false} ProcessAllValid(t: Tables, ps: seq<int>, depths: seq<nat>, f: (int, int) -> Json)
    requires TablesValid(t) && Increasing(depths)
    requires forall p :: p in ps ==> p in KeySet(t.snaps, SnapKey)
    ensures TablesValid(ProcessAll(t, ps, depths, f))
    decreases |ps|
  {
    if |ps| > 0 {
      ProcessSnapValid(t, ps[0], depths, f);
      ProcessAllValid(ProcessSnap(t, ps[0], depths, f), ps[1..], depths, f);
    }
  }

  /** A run keeps every table's constraints. */
  lemma StatBatchValid(t: Tables, depths: seq<nat>, f: (int, int) -> Json)
    requires TablesValid(t) && Increasing(depths)
    ensures TablesValid(StatBatch(t, depths, f))
  {
    var ps := Taken(t.snaps, BATCH);
    TakenPicks(t.snaps, BATCH);
    forall p | p in ps
      ensures p in KeySet(t.snaps, SnapKey)
    {
      MembersIn(ps, p);
      PendingIsKey(t.snaps, p);
    }
    ProcessAllValid(t, ps, depths, f);
    if |ps| == BATCH {
      LinesDeleted(ProcessAll(t, ps, depths, f), ps[BATCH - 1]);
    }
  }

  /**
   * A run takes at most ten pending snapshots, highest id first, none twice;
   * afterwards exactly the others are pending, all with lower ids, and none
   * at all when it took fewer than ten.
   */
  lemma StatBatchPending(t: Tables, depths: seq<nat>, f: (int, int) -> Json)
    ensures var ps := Taken(t.snaps, BATCH);
            var after := PendingIds(StatBatch(t, depths, f).snaps);
            && StatBatch(t, depths, f).snaps == MarkAll(t.snaps, ps)
            && |ps| <= BATCH && Decreasing(ps)
            && Members(ps) <= PendingIds(t.snaps)
            && after == PendingIds(t.snaps) - Members(ps)
            && (|ps| > 0 ==> forall p :: p in after ==> p < ps[|ps| - 1])
            && (|ps| < BATCH ==> after == {})
  {
    TakenPicks(t.snaps, BATCH);
    TakenLeaves(t.snaps, BATCH);
    TakenRest(t.snaps, BATCH);
    ProcessAllFrame(t, Taken(t.snaps, BATCH), depths, f);
  }

  /**
   * A run leaves each snapshot it took with one stat row per depth, in order,
   * and every other snapshot's stat rows as they were.
   */
  lemma StatBatchStats(t: Tables, depths: seq<nat>, f: (int, int) -> Json, s: int)
    ensures var ps := Taken(t.snaps, BATCH);
            StatsOf(StatBatch(t, depths, f).stats, s) == if s in ps then StatPairs(s, depths, f) else StatsOf(t.stats, s)
  {
    TakenPicks(t.snaps, BATCH);
    ProcessAllStats(t, Taken(t.snaps, BATCH), depths, f, s);
  }

  /**
   * A run deletes the book lines of one snapshot at most: the tenth one it
   * took, and none when it took fewer than ten. Trades and the registry are
   * untouched.
   */
  lemma StatBatchLines(t: Tables, depths: seq<nat>, f: (int, int) -> Json, s: int)
    ensures var ps := Taken(t.snaps, BATCH);
            var t' := StatBatch(t, depths, f);
            && LinesOf(t'.bids, s) == (if |ps| == BATCH && s == ps[BATCH - 1] then [] else LinesOf(t.bids, s))
            && LinesOf(t'.asks, s) == (if |ps| == BATCH && s == ps[BATCH - 1] then [] else LinesOf(t.asks, s))
            && t'.trades == t.trades && t'.exchanges == t.exchanges && t'.tokens == t.tokens && t'.markets == t.markets
  {
    var ps := Taken(t.snaps, BATCH);
    ProcessAllFrame(t, ps, depths, f);
    if |ps| == BATCH {
      var t1 := ProcessAll(t, ps, depths, f);
      LinesOfDrop(t1.bids, ps[BATCH - 1], s);
      LinesOfDrop(t1.asks, ps[BATCH - 1], s);
    }
  }

  // ------------------------------------------------------------------ methods

  /** The body of the outer loop for one snapshot, before the flag: replace its stat rows. */
  method ReplaceStats(db: Database, bsid: int, depths: seq<nat>, f: (int, int) -> Json)
    modifies db
    ensures db.tables == InsertStats(DeleteStatsOf(old(db.tables), bsid), bsid, depths, f)
  {
    db.DeleteStats(bsid);
    ghost var t1 := db.tables;
    var k := 0;
    while k < |depths|
      invariant 0 <= k <= |depths|
      invariant db.tables == InsertStats(t1, bsid, depths[..k], f)
    {
      var n := depths[k];
      var code := StatCode(n);
      InsertStatsLast(t1, bsid, depths[..k + 1], f);
      assert depths[..k + 1][..k] == depths[..k];
      var _ := db.AddStat(bsid, code, f(bsid, n));
      k := k + 1;
    }
    assert depths[..|depths|] == depths;
  }

  /** Processing one more snapshot after `ps`. */
  lemma {:induction false} ProcessAllSnoc(t: Tables, ps: seq<int>, b: int, depths: seq<nat>, f: (int, int) -> Json)
    ensures ProcessAll(t, ps + [b], depths, f) == ProcessSnap(ProcessAll(t, ps, depths, f), b, depths, f)
    decreases |ps|
  {
    if |ps| > 0 {
      assert (ps + [b])[1..] == ps[1..] + [b];
      ProcessAllSnoc(ProcessSnap(t, ps[0], depths, f), ps[1..], b, depths, f);
    }
  }

  /**
   * What the loop keeps: the snapshots `ps` processed so far, from `t0` to
   * `t`, are the first ones the whole run takes, and the rest of the run
   * takes what `m` more rounds take from `t`.
   */
  ghost predicate RunSoFar(t0: Tables, ps: seq<int>, t: Tables, m: nat, depths: seq<nat>, f: (int, int) -> Json) {
    Taken(t0.snaps, BATCH) == ps + Taken(t.snaps, m) && t == ProcessAll(t0, ps, depths, f)
  }

  /** One more round keeps it. */
  lemma RunStep(t0: Tables, ps: seq<int>, t: Tables, m: nat, depths: seq<nat>, f: (int, int) -> Json)
    requires RunSoFar(t0, ps, t, m, depths, f) && m > 0 && Pending(t.snaps).Some?
    ensures var b := Pending(t.snaps).value;
            RunSoFar(t0, ps + [b], ProcessSnap(t, b, depths, f), m - 1, depths, f)
  {
    var b := Pending(t.snaps).value;
    var t1 := ProcessSnap(t, b, depths, f);
    var rest := Taken(t1.snaps, m - 1);
    assert t1.snaps == WithStatDone(t.snaps, b);
    assert Taken(t.snaps, m) == [b] + rest;
    assert ps + ([b] + rest) == (ps + [b]) + rest;
    ProcessAllSnoc(t0, ps, b, depths, f);
  }

  /** The loop returns early: the run is over, short of ten rounds. */
  lemma RunStopped(t0: Tables, ps: seq<int>, t: Tables, m: nat, depths: seq<nat>, f: (int, int) -> Json)
    requires RunSoFar(t0, ps, t, m, depths, f) && Pending(t.snaps).None? && |ps| < BATCH
    ensures t == StatBatch(t0, depths, f)
  {
    assert Taken(t.snaps, m) == [];
    assert ps + [] == ps;
  }

  /** All ten rounds ran: the run ends with the line deletes for the last one. */
  lemma RunFinished(t0: Tables, ps: seq<int>, t: Tables, depths: seq<nat>, f: (int, int) -> Json)
    requires RunSoFar(t0, ps, t, 0, depths, f) && |ps| == BATCH
    ensures DeleteLinesOf(t, ps[BATCH - 1]) == StatBatch(t0, depths, f)
  {
    assert ps + [] == ps;
  }

  /** The body of the outer loop for the snapshot `bsid`. */
  method Round(db: Database, bsid: int, depths: seq<nat>, f: (int, int) -> Json)
    modifies db
    ensures db.tables == ProcessSnap(old(db.tables), bsid, depths, f)
  {
    ReplaceStats(db, bsid, depths, f);
    db.MarkStatDone(bsid);
  }

  /** The statements of the `do` block of `make_stat`, for the depth array `depths`. */
  method StatRun(db: Database, depths: seq<nat>, f: (int, int) -> Json)
    modifies db
    ensures db.tables == StatBatch(old(db.tables), depths, f)
  {
    ghost var t0 := db.tables;
    ghost var ps: seq<int> := [];
    var bsid := 0;
    var i := 1;
    while i <= BATCH
      invariant 1 <= i <= BATCH + 1 && |ps| == i - 1
      invariant RunSoFar(t0, ps, db.tables, BATCH + 1 - i, depths, f)
      invariant i > 1 ==> bsid == ps[|ps| - 1]
    {
      var p := Pending(db.tables.snaps);
      if p.None? {
        RunStopped(t0, ps, db.tables, BATCH + 1 - i, depths, f);
        return;
      }
      bsid := p.value;
      RunStep(t0, ps, db.tables, BATCH + 1 - i, depths, f);
      Round(db, bsid, depths, f);
      ps := ps + [bsid];
      i := i + 1;
    }
    RunFinished(t0, ps, db.tables, depths, f);
    db.DeleteLines(bsid);
  }

  /** One run of the block with its depth array `AN`; the schema's constraints hold afterwards. */
  method MakeStat(db: Database, f: (int, int) -> Json)
    requires db.Valid()
    modifies db
    ensures db.Valid() && db.tables == StatBatch(old(db.tables), AN, f)
  {
    ANIncreasing();
    StatBatchValid(db.tables, AN, f);
    StatRun(db, AN, f);
  }
}
