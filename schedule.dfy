/**
 * The scheduling arithmetic and the selection rules of bdata.py's main
 * program: `last_ts`, the tick advance of the main loop, the command-line
 * list splitting, `market_filter`, `exchange_filter` and the exchange list.
 *
 * Clock readings are parameters: a `Clock` is one reading of local time,
 * with its midnight as an instant in microseconds.
 */
module Schedule {
  import opened Wrappers

  const MICROS := 1000000

  /** A reading of `datetime.now()`: midnight of its day (in microseconds) and the time of day. */
  datatype Clock = Clock(midnight: int, hour: int, minute: int, second: int, micro: int)

  ghost predicate ClockValid(c: Clock) {
    0 <= c.hour < 24 && 0 <= c.minute < 60 && 0 <= c.second < 60 && 0 <= c.micro < MICROS
  }

  function SecondOfDay(c: Clock): int {
    c.hour * 3600 + c.minute * 60 + c.second
  }

  /** The reading as an instant in microseconds. */
  function Instant(c: Clock): int {
    c.midnight + SecondOfDay(c) * MICROS + c.micro
  }

  /** Python's `//` on ints: rounds toward negative infinity. */
  function PyDiv(a: int, b: int): (r: int)
    requires b != 0
    ensures b > 0 ==> r * b <= a < r * b + b
    ensures b < 0 ==> r * b + b < a <= r * b
  {
    assert a == (a / b) * b + a % b && 0 <= a % b < if b > 0 then b else -b;
    assert (a / b - 1) * b == (a / b) * b - b;
    if b > 0 || a % b == 0 then a / b else a / b - 1
  }

  /** Python's `%` on ints: the remainder takes the divisor's sign. */
  function PyMod(a: int, b: int): (r: int)
    requires b != 0
    ensures a == PyDiv(a, b) * b + r
    ensures b > 0 ==> 0 <= r < b
    ensures b < 0 ==> b < r <= 0
  {
    if b > 0 || a % b == 0 then a % b else a % b + b
  }

  /**
   * `last_ts`: midnight plus the seconds of the day rounded down to a
   * multiple of `interval`. None when `interval` is zero (the modulo raises).
   */
  function LastTs(now: Clock, interval: int): (r: Option<int>)
    ensures r.None? <==> interval == 0
  {
    if interval == 0 then None
    else
      var s := SecondOfDay(now);
      Some(now.midnight + (s - PyMod(s, interval)) * MICROS)
  }

  /**
   * The tick is at or before the reading, less than one interval before it,
   * and a whole number of intervals past midnight.
   */
  lemma LastTsAligned(now: Clock, interval: int)
    requires ClockValid(now) && interval > 0
    ensures LastTs(now, interval).value <= Instant(now)
    ensures Instant(now) - LastTs(now, interval).value < interval * MICROS
    ensures LastTs(now, interval).value - now.midnight == PyDiv(SecondOfDay(now), interval) * (interval * MICROS)
  {
    var s := SecondOfDay(now);
    var r := PyMod(s, interval);
    var q := PyDiv(s, interval);
    assert s - r == q * interval;
    assert (s - r) * MICROS == q * (interval * MICROS);
    assert Instant(now) - LastTs(now, interval).value == r * MICROS + now.micro;
  }

  /**
   * The ticks the main loop dispatches: `polls` are its successive checks,
   * each a reading for `now() > ts` and the later reading `last_ts()` takes
   * once the tick is dispatched; the next tick is `last_ts() + interval`.
   * At most one tick per check, and the first check past `ts` dispatches `ts`.
   */
  function Ticks(ts: int, polls: seq<(Clock, Clock)>, interval: int): (r: seq<int>)
    requires interval != 0
    ensures |r| <= |polls|
    ensures |polls| > 0 && Instant(polls[0].0) > ts ==> |r| > 0 && r[0] == ts
    decreases |polls|
  {
    if |polls| == 0 then []
    else if Instant(polls[0].0) > ts then
      [ts] + Ticks(LastTs(polls[0].1, interval).value + interval * MICROS, polls[1..], interval)
    else Ticks(ts, polls[1..], interval)
  }

  /** Readings that are valid, with each check at or before the reading taken after it. */
  ghost predicate PollsValid(polls: seq<(Clock, Clock)>) {
    forall i :: 0 <= i < |polls| ==>
      ClockValid(polls[i].0) && ClockValid(polls[i].1) && Instant(polls[i].0) <= Instant(polls[i].1)
  }

  /** No tick is dispatched before `ts`, and each is dispatched only once its time has passed. */
  lemma {:induction false} TicksAbove(ts: int, polls: seq<(Clock, Clock)>, interval: int)
    requires interval > 0 && PollsValid(polls)
    ensures forall k :: 0 <= k < |Ticks(ts, polls, interval)| ==> Ticks(ts, polls, interval)[k] >= ts
    decreases |polls|
  {
    if |polls| > 0 {
      assert PollsValid(polls[1..]) by {
        forall i | 0 <= i < |polls[1..]| ensures polls[1..][i] == polls[i + 1] { }
      }
      if Instant(polls[0].0) > ts {
        var next := LastTs(polls[0].1, interval).value + interval * MICROS;
        LastTsAligned(polls[0].1, interval);
        TicksAbove(next, polls[1..], interval);
      } else {
        TicksAbove(ts, polls[1..], interval);
      }
    }
  }

  /** After a tick fires, the next one is later than the reading that fired it: ticks strictly increase. */
  lemma {:induction false} TicksIncrease(ts: int, polls: seq<(Clock, Clock)>, interval: int)
    requires interval > 0 && PollsValid(polls)
    ensures forall k, l :: 0 <= k < l < |Ticks(ts, polls, interval)| ==>
              Ticks(ts, polls, interval)[k] < Ticks(ts, polls, interval)[l]
    decreases |polls|
  {
    if |polls| > 0 {
      assert PollsValid(polls[1..]) by {
        forall i | 0 <= i < |polls[1..]| ensures polls[1..][i] == polls[i + 1] { }
      }
      if Instant(polls[0].0) > ts {
        var next := LastTs(polls[0].1, interval).value + interval * MICROS;
        LastTsAligned(polls[0].1, interval);
        assert next > ts;
        TicksIncrease(next, polls[1..], interval);
        TicksAbove(next, polls[1..], interval);
        var rest := Ticks(next, polls[1..], interval);
        assert Ticks(ts, polls, interval) == [ts] + rest;
      } else {
        TicksIncrease(ts, polls[1..], interval);
      }
    }
  }

  /** The main loop's tick bookkeeping over a sequence of polls. */
  method RunTicks(start: Clock, polls: seq<(Clock, Clock)>, interval: int) returns (fired: seq<int>)
    ensures interval == 0 ==> fired == []
    ensures interval != 0 ==> fired == Ticks(LastTs(start, interval).value, polls, interval)
  {
    var first := LastTs(start, interval);
    if first.None? {
      return [];
    }
    var ts := first.value;
    fired := [];
    var i := 0;
    while i < |polls|
      invariant 0 <= i <= |polls|
      invariant fired + Ticks(ts, polls[i..], interval) == Ticks(first.value, polls, interval)
    {
      var (check, later) := polls[i];
      assert polls[i..][1..] == polls[i + 1..];
      if Instant(check) > ts {
        fired := fired + [ts];
        ts := LastTs(later, interval).value + interval * MICROS;
      }
      i := i + 1;
    }
  }

  // ---------------------------------------------------------------------------
  // Command-line lists and the filters.

  /** `s.split(',')`. */
  function Split(s: string): (r: seq<string>)
    ensures |r| >= 1
    ensures forall k :: 0 <= k < |r| ==> ',' !in r[k]
    decreases |s|
  {
    if |s| == 0 then [""]
    else
      var rest := Split(s[1..]);
      if s[0] == ',' then [""] + rest
      else [[s[0]] + rest[0]] + rest[1..]
  }

  /** `','.join(parts)`. */
  function Join(parts: seq<string>): string
    requires |parts| >= 1
    decreases |parts|
  {
    if |parts| == 1 then parts[0] else parts[0] + "," + Join(parts[1..])
  }

  lemma {:induction false} JoinSplit(s: string)
    ensures Join(Split(s)) == s
    decreases |s|
  {
    if |s| > 0 {
      var rest := Split(s[1..]);
      JoinSplit(s[1..]);
      if s[0] != ',' {
        var r := Split(s);
        assert r[0] == [s[0]] + rest[0];
        if |rest| > 1 {
          assert r[1..] == rest[1..];
        }
        assert s == [s[0]] + s[1..];
      } else {
        assert s == [','] + s[1..];
      }
    }
  }

  lemma {:induction false} SplitJoin(parts: seq<string>)
    requires |parts| >= 1 && forall k :: 0 <= k < |parts| ==> ',' !in parts[k]
    ensures Split(Join(parts)) == parts
    decreases |parts|, |parts[0]|
  {
    if |parts| == 1 {
      SplitNoComma(parts[0]);
    } else if |parts[0]| == 0 {
      SplitJoin(parts[1..]);
      assert Join(parts) == [','] + Join(parts[1..]);
      assert Join(parts)[1..] == Join(parts[1..]);
      assert parts == [""] + parts[1..];
    } else {
      var c := parts[0][0];
      var parts' := [parts[0][1..]] + parts[1..];
      assert parts'[1..] == parts[1..];
      assert ',' !in parts[0][1..] by {
        assert forall j :: 0 <= j < |parts[0][1..]| ==> parts[0][1..][j] == parts[0][j + 1];
      }
      SplitJoin(parts');
      var j := Join(parts);
      assert j == [c] + Join(parts') by {
        assert parts[0] == [c] + parts[0][1..];
      }
      assert j[1..] == Join(parts');
      assert parts[0] == [c] + parts'[0];
    }
  }

  lemma {:induction false} SplitNoComma(s: string)
    requires ',' !in s
    ensures Split(s) == [s]
    decreases |s|
  {
    if |s| > 0 {
      assert ',' !in s[1..] by {
        assert forall j :: 0 <= j < |s[1..]| ==> s[1..][j] == s[j + 1];
      }
      SplitNoComma(s[1..]);
      assert s == [s[0]] + s[1..];
    }
  }

  /** A market as `load_markets` lists it; base and quote may be missing. */
  datatype MarketInfo = MarketInfo(base: Option<string>, quote: Option<string>, symbol: string)

  /** Python truthiness of an optional string. */
  predicate Truthy(x: Option<string>) {
    x.Some? && x.value != ""
  }

  /** In the list, or the list's first entry is the wildcard. */
  predicate Listed(x: string, list: seq<string>)
    requires |list| >= 1
  {
    x in list || list[0] == "*"
  }

  /**
   * `market_filter`, with the lists from the `--base` and `--quote`
   * arguments: a market that passes has a non-empty base and quote, and with
   * both wildcards every such market with a '/' in its symbol passes.
   */
  function MarketFilter(m: MarketInfo, baseList: seq<string>, quoteList: seq<string>): (r: bool)
    requires |baseList| >= 1 && |quoteList| >= 1
    ensures r ==> m.base.Some? && m.quote.Some? && m.base.value != "" && m.quote.value != "" && '/' in m.symbol
    ensures baseList[0] == "*" && quoteList[0] == "*" ==> (r <==> Truthy(m.base) && Truthy(m.quote) && '/' in m.symbol)
    ensures r ==> (m.base.value in baseList || baseList[0] == "*") && (m.quote.value in quoteList || quoteList[0] == "*")
    ensures (&& Truthy(m.base) && Truthy(m.quote) && '/' in m.symbol
             && (m.base.value in baseList || baseList[0] == "*")
             && (m.quote.value in quoteList || quoteList[0] == "*")) ==> r
  {
    Truthy(m.base) && Truthy(m.quote) && Listed(m.base.value, baseList) && Listed(m.quote.value, quoteList)
    && '/' in m.symbol
  }

  /** `--base '*' --quote '*'` selects every market with a base, a quote and a '/' in its symbol. */
  lemma MarketFilterWildcard(m: MarketInfo, baseArg: string, quoteArg: string)
    requires baseArg == "*" && quoteArg == "*"
    ensures MarketFilter(m, Split(baseArg), Split(quoteArg)) <==> Truthy(m.base) && Truthy(m.quote) && '/' in m.symbol
  {
    assert Split(baseArg) == ["*"] by { SplitNoComma(baseArg); }
    assert Split(quoteArg) == ["*"] by { SplitNoComma(quoteArg); }
  }

  /** Without the wildcard first, a market passes only if its base and quote are among the comma-separated names. */
  lemma MarketFilterNamed(m: MarketInfo, baseArg: string, quoteArg: string)
    requires Split(baseArg)[0] != "*" && Split(quoteArg)[0] != "*"
    ensures MarketFilter(m, Split(baseArg), Split(quoteArg)) <==>
              && Truthy(m.base) && Truthy(m.quote) && '/' in m.symbol
              && m.base.value in Split(baseArg) && m.quote.value in Split(quoteArg)
  {
  }

  /** A value of ccxt's `has` map: true, false or 'emulated'. */
  datatype Capability = Supported | Unsupported | Emulated

  /** The capability as a yes or no: 'emulated' is a non-empty string, so Python treats it as true. */
  function Available(c: Capability): bool {
    c != Unsupported
  }

  /** `exchange_filter`: public API, order book and trades are all available, natively or emulated. */
  function ExchangeFilter(publicApi: Capability, fetchOrderBook: Capability, fetchTrades: Capability): (r: bool)
    ensures r ==> publicApi in {Supported, Emulated} && fetchOrderBook in {Supported, Emulated} && fetchTrades in {Supported, Emulated}
    ensures publicApi == fetchOrderBook == fetchTrades == Supported ==> r
  {
    Available(publicApi) && Available(fetchOrderBook) && Available(fetchTrades)
  }

  /** ccxt's `has` value with emulation counted as support. */
  function Native(c: Capability): Capability {
    if c == Emulated then Supported else c
  }

  /**
   * For every combination of `has` values: an emulated capability counts
   * exactly as a native one, and any single missing capability rejects the
   * exchange.
   */
  lemma ExchangeFilterEmulated(a: Capability, b: Capability, c: Capability)
    ensures ExchangeFilter(a, b, c) == ExchangeFilter(Native(a), Native(b), Native(c))
    ensures a == Unsupported || b == Unsupported || c == Unsupported ==> !ExchangeFilter(a, b, c)
    ensures ExchangeFilter(a, b, c) <==> Native(a) == Native(b) == Native(c) == Supported
  {
  }

  const DISABLED_EXCHANGES: seq<string> := [
    "bitfinex2", "anxpro", "bcex", "vaultoro", "coss", "coolcoin", "btctradeim", "cobinhood",
    "coingi", "flowbtc", "stronghold", "xbtce", "stex", "zb", "rightbtc", "hitbtc2",
    "braziliex", "bitforex", "adara", "tidex", "liquid"]

  /** The position of the first occurrence of `e`. */
  function IndexOf(list: seq<string>, e: string): (i: nat)
    requires e in list
    ensures i < |list| && list[i] == e && e !in list[..i]
    decreases |list|
  {
    if list[0] == e then 0
    else
      var j := IndexOf(list[1..], e);
      assert list[..j + 1] == [list[0]] + list[1..][..j];
      j + 1
  }

  /** `list.remove(e)`: drops the first occurrence and keeps the order of the rest. */
  function RemoveFirst(list: seq<string>, e: string): (r: seq<string>)
    requires e in list
    ensures |r| == |list| - 1
  {
    var i := IndexOf(list, e);
    list[..i] + list[i + 1..]
  }

  /** The list left is the list around the first occurrence of `e`: one `e` fewer, every other name kept. */
  lemma RemoveFirstSpec(list: seq<string>, e: string)
    requires e in list
    ensures exists i :: 0 <= i < |list| && list[i] == e && e !in list[..i] && RemoveFirst(list, e) == list[..i] + list[i + 1..]
    ensures multiset(RemoveFirst(list, e)) == multiset(list) - multiset{e}
  {
    var i := IndexOf(list, e);
    assert list == list[..i] + [e] + list[i + 1..];
  }

  /** Every exchange listed in `disabled` removed once, in that order, when present. */
  function RemoveEach(list: seq<string>, disabled: seq<string>): (r: seq<string>)
    ensures |list| - |disabled| <= |r| <= |list|
    decreases |disabled|
  {
    if |disabled| == 0 then list
    else
      var d := disabled[|disabled| - 1];
      var l := RemoveEach(list, disabled[..|disabled| - 1]);
      if d in l then RemoveFirst(l, d) else l
  }

  /** The removals only take elements away, at most one copy per disabled name. */
  lemma {:induction false} RemoveEachSub(list: seq<string>, disabled: seq<string>)
    ensures multiset(RemoveEach(list, disabled)) <= multiset(list)
    decreases |disabled|
  {
    if |disabled| > 0 {
      var n := |disabled| - 1;
      RemoveEachSub(list, disabled[..n]);
      var l := RemoveEach(list, disabled[..n]);
      if disabled[n] in l {
        RemoveFirstSpec(l, disabled[n]);
      }
    }
  }

  ghost predicate Distinct(list: seq<string>) {
    forall i, j :: 0 <= i < j < |list| ==> list[i] != list[j]
  }

  lemma RemoveFirstAt(list: seq<string>, e: string, p: int)
    requires e in list && 0 <= p < |list| - 1
    ensures var i := IndexOf(list, e);
            RemoveFirst(list, e)[p] == list[if p < i then p else p + 1]
  {
  }

  lemma RemoveFirstKeeps(list: seq<string>, e: string, x: string)
    requires e in list && x in list && x != e
    ensures x in RemoveFirst(list, e)
  {
    var i := IndexOf(list, e);
    var k :| 0 <= k < |list| && list[k] == x;
    var j := if k < i then k else k - 1;
    RemoveFirstAt(list, e, j);
    assert RemoveFirst(list, e)[j] == x;
  }

  lemma RemoveFirstDistinct(list: seq<string>, e: string)
    requires e in list && Distinct(list)
    ensures Distinct(RemoveFirst(list, e))
    ensures forall x :: x in RemoveFirst(list, e) <==> x in list && x != e
  {
    var i := IndexOf(list, e);
    var r := RemoveFirst(list, e);
    forall p, q | 0 <= p < q < |r| ensures r[p] != r[q] {
      RemoveFirstAt(list, e, p);
      RemoveFirstAt(list, e, q);
    }
    forall x | x in r ensures x in list && x != e {
      var p :| 0 <= p < |r| && r[p] == x;
      RemoveFirstAt(list, e, p);
    }
    forall x | x in list && x != e ensures x in r {
      RemoveFirstKeeps(list, e, x);
    }
  }

  /** On a list without repeats, exactly the exchanges not disabled remain. */
  lemma {:induction false} RemoveEachDistinct(list: seq<string>, disabled: seq<string>)
    requires Distinct(list)
    ensures Distinct(RemoveEach(list, disabled))
    ensures forall x :: x in RemoveEach(list, disabled) <==> x in list && x !in disabled
    decreases |disabled|
  {
    if |disabled| > 0 {
      var n := |disabled| - 1;
      var d := disabled[n];
      RemoveEachDistinct(list, disabled[..n]);
      var l := RemoveEach(list, disabled[..n]);
      if d in l {
        RemoveFirstDistinct(l, d);
      }
      forall x ensures x in disabled <==> x in disabled[..n] || x == d {
        assert disabled == disabled[..n] + [d];
      }
    }
  }

  /** The exchanges to run: all of ccxt's minus the disabled ones for '*', else the comma-separated names. */
  method ExchangeList(arg: string, all: seq<string>) returns (r: seq<string>)
    ensures r == if arg == "*" then RemoveEach(all, DISABLED_EXCHANGES) else Split(arg)
  {
    if arg != "*" {
      return Split(arg);
    }
    r := RemoveAll(all, DISABLED_EXCHANGES);
  }

  lemma RemoveEachStep(list: seq<string>, disabled: seq<string>, k: nat)
    requires k < |disabled|
    ensures var l := RemoveEach(list, disabled[..k]);
            RemoveEach(list, disabled[..k + 1]) == if disabled[k] in l then RemoveFirst(l, disabled[k]) else l
  {
    assert disabled[..k + 1][..k] == disabled[..k];
  }

  /** Removes, one after the other, the first occurrence of each entry of `disabled` from `list`. */
  method RemoveAll(list: seq<string>, disabled: seq<string>) returns (r: seq<string>)
    ensures r == RemoveEach(list, disabled)
  {
    r := list;
    var k := 0;
    while k < |disabled|
      invariant 0 <= k <= |disabled|
      invariant r == RemoveEach(list, disabled[..k])
    {
      var e := disabled[k];
      RemoveEachStep(list, disabled, k);
      if e in r {
        r := RemoveFirst(r, e);
      }
      k := k + 1;
    }
    assert disabled[..k] == disabled;
  }
}
