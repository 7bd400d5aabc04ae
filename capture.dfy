/**
 * The get-or-create registry of exchanges, tokens and markets
 * (`ensure_exchange_market` in bdata.py) and the order-book capture
 * (`snap_market_book`, with `decimalize` and `book_limit`).
 *
 * The exchange's order book is an oracle `fetch(market, limit)` that yields
 * None when the call raises; `dec` is the exact-value conversion
 * `Decimal(str(x))` applied to every price and amount.
 */
module Capture {
  import opened Wrappers
  import opened Schema

  const BOOK_LIMIT := 50

  /** Depth requested from an exchange's order book. */
  function BookLimit(exchange: string): (r: nat)
    ensures exchange == "kucoin" ==> r == 100
    ensures exchange == "fcoin" || exchange == "fcoinjp" ==> r == 150
    ensures exchange != "kucoin" && exchange != "fcoin" && exchange != "fcoinjp" ==> r == BOOK_LIMIT
  {
    if exchange == "kucoin" then 100
    else if exchange == "fcoin" || exchange == "fcoinjp" then 150
    else BOOK_LIMIT
  }

  /** (price, amount) pairs as an exchange lists them, best first. */
  datatype OrderBook = OrderBook(bids: seq<(real, real)>, asks: seq<(real, real)>)

  function DecimalizeLines(lines: seq<(real, real)>, dec: real -> real): (r: seq<(real, real)>)
    ensures |r| == |lines|
    ensures forall i :: 0 <= i < |lines| ==> r[i] == (dec(lines[i].0), dec(lines[i].1))
  {
    seq(|lines|, i requires 0 <= i < |lines| => (dec(lines[i].0), dec(lines[i].1)))
  }

  /** Every price and amount converted, both sides kept in the exchange's order. */
  function Decimalize(book: OrderBook, dec: real -> real): (r: OrderBook)
    ensures |r.bids| == |book.bids| && |r.asks| == |book.asks|
    ensures forall i :: 0 <= i < |book.bids| ==> r.bids[i] == (dec(book.bids[i].0), dec(book.bids[i].1))
    ensures forall i :: 0 <= i < |book.asks| ==> r.asks[i] == (dec(book.asks[i].0), dec(book.asks[i].1))
  {
    OrderBook(DecimalizeLines(book.bids, dec), DecimalizeLines(book.asks, dec))
  }

  lemma DecimalizeLinesRecovers(lines: seq<(real, real)>, dec: real -> real, back: real -> real)
    requires forall x :: back(dec(x)) == x
    ensures DecimalizeLines(DecimalizeLines(lines, dec), back) == lines
  {
    var r := DecimalizeLines(DecimalizeLines(lines, dec), back);
    forall i | 0 <= i < |lines| ensures r[i] == lines[i] {
      var (p, a) := lines[i];
      assert back(dec(p)) == p && back(dec(a)) == a;
    }
  }

  /**
   * `str` of a float is its shortest repr, which reads back as the same
   * float; so when `back` undoes `dec` on every value, converting the
   * decimalized book back gives the fetched book: decimalizing loses no
   * price, no amount and no order.
   */
  lemma DecimalizeRecovers(book: OrderBook, dec: real -> real, back: real -> real)
    requires forall x :: back(dec(x)) == x
    ensures Decimalize(Decimalize(book, dec), back) == book
  {
    DecimalizeLinesRecovers(book.bids, dec, back);
    DecimalizeLinesRecovers(book.asks, dec, back);
  }

  /** The keys `ensure_exchange_market` returns. */
  datatype MarketRef = MarketRef(exchangeId: int, marketId: int, baseTokenId: int, quoteTokenId: int)

  /** What the registry already holds for (exchange, base, quote): the queries of `ensure_exchange_market`. */
  function Lookup(t: Tables, exchange: string, base: string, quote: string): (r: Option<MarketRef>)
    ensures r.Some? ==> exists i :: 0 <= i < |t.exchanges| && t.exchanges[i] == Exchange(r.value.exchangeId, exchange)
    ensures r.Some? ==> exists i :: 0 <= i < |t.tokens| && t.tokens[i] == Token(r.value.baseTokenId, base)
    ensures r.Some? ==> exists i :: 0 <= i < |t.tokens| && t.tokens[i] == Token(r.value.quoteTokenId, quote)
    ensures r.Some? ==> exists i :: 0 <= i < |t.markets| && t.markets[i].exchangeMarketId == r.value.marketId
                          && MarketTriple(t.markets[i]) == (r.value.exchangeId, r.value.baseTokenId, r.value.quoteTokenId)
  {
    match ExchangeIndex(t.exchanges, exchange)
    case None => None
    case Some(i) =>
      match TokenIndex(t.tokens, base)
      case None => None
      case Some(j) =>
        match TokenIndex(t.tokens, quote)
        case None => None
        case Some(k) =>
          var e, b, q := t.exchanges[i].exchangeId, t.tokens[j].tokenId, t.tokens[k].tokenId;
          match MarketIndex(t.markets, e, b, q)
          case None => None
          case Some(m) => Some(MarketRef(e, t.markets[m].exchangeMarketId, b, q))
  }

  lemma LookupFound(t: Tables, exchange: string, base: string, quote: string, i: nat, j: nat, k: nat, m: nat)
    requires ExchangeIndex(t.exchanges, exchange) == Some(i)
    requires TokenIndex(t.tokens, base) == Some(j) && TokenIndex(t.tokens, quote) == Some(k)
    requires MarketIndex(t.markets, t.exchanges[i].exchangeId, t.tokens[j].tokenId, t.tokens[k].tokenId) == Some(m)
    ensures Lookup(t, exchange, base, quote) ==
              Some(MarketRef(t.exchanges[i].exchangeId, t.markets[m].exchangeMarketId, t.tokens[j].tokenId, t.tokens[k].tokenId))
  {
  }

  lemma ExchangeIndexAppend(rows: seq<Exchange>, x: Exchange, symbol: string)
    ensures ExchangeIndex(rows + [x], symbol) ==
      if ExchangeIndex(rows, symbol).Some? then ExchangeIndex(rows, symbol)
      else if x.symbol == symbol then Some(|rows|) else None
  {
    var rs := rows + [x];
    var a, b := ExchangeIndex(rows, symbol), ExchangeIndex(rs, symbol);
    if a.Some? {
      assert rs[a.value] == rows[a.value];
    } else if x.symbol == symbol {
      assert rs[|rows|] == x;
    } else {
      forall j | 0 <= j < |rs| ensures rs[j].symbol != symbol {
        if j < |rows| { assert rs[j] == rows[j]; }
      }
    }
  }

  lemma TokenIndexAppend(rows: seq<Token>, x: Token, symbol: string)
    ensures TokenIndex(rows + [x], symbol) ==
      if TokenIndex(rows, symbol).Some? then TokenIndex(rows, symbol)
      else if x.symbol == symbol then Some(|rows|) else None
  {
    var rs := rows + [x];
    var a, b := TokenIndex(rows, symbol), TokenIndex(rs, symbol);
    if a.Some? {
      assert rs[a.value] == rows[a.value];
    } else if x.symbol == symbol {
      assert rs[|rows|] == x;
    } else {
      forall j | 0 <= j < |rs| ensures rs[j].symbol != symbol {
        if j < |rows| { assert rs[j] == rows[j]; }
      }
    }
  }

  lemma MarketIndexAppend(rows: seq<ExchangeMarket>, x: ExchangeMarket, e: int, b: int, q: int)
    ensures MarketIndex(rows + [x], e, b, q) ==
      if MarketIndex(rows, e, b, q).Some? then MarketIndex(rows, e, b, q)
      else if MarketTriple(x) == (e, b, q) then Some(|rows|) else None
  {
    var rs := rows + [x];
    var i, k := MarketIndex(rows, e, b, q), MarketIndex(rs, e, b, q);
    if i.Some? {
      assert rs[i.value] == rows[i.value];
    } else if MarketTriple(x) == (e, b, q) {
      assert rs[|rows|] == x;
    } else {
      forall j | 0 <= j < |rs| ensures MarketTriple(rs[j]) != (e, b, q) {
        if j < |rows| { assert rs[j] == rows[j]; }
      }
    }
  }


  /** Lookups in a list read earlier find the same row in the current table. */
  lemma TokenIndexPrefix(tokens: seq<Token>, all: seq<Token>, symbol: string)
    requires tokens <= all && TokenIndex(tokens, symbol).Some?
    ensures TokenIndex(all, symbol) == TokenIndex(tokens, symbol)
  {
    var j := TokenIndex(tokens, symbol).value;
    assert all[j] == tokens[j];
  }

  // The steps of `ensure_exchange_market`, each a get-or-create.

  /** `t'` differs from `t` only by rows appended to the registry tables. */
  ghost predicate RegistryExtends(t: Tables, t': Tables) {
    && t.exchanges <= t'.exchanges && t.tokens <= t'.tokens && t.markets <= t'.markets
    && t.nextId <= t'.nextId
    && t' == t.(exchanges := t'.exchanges, tokens := t'.tokens, markets := t'.markets, nextId := t'.nextId)
  }

  function RegisterExchange(t: Tables, exchange: string): (r: (Tables, int))
    ensures RegistryExtends(t, r.0)
  {
    match ExchangeIndex(t.exchanges, exchange)
    case Some(i) => (t, t.exchanges[i].exchangeId)
    case None => (InsertExchange(t, exchange), t.nextId)
  }

  /** A token looked up in `tokens`, the list read at the start of the token steps. */
  function TokenStep(t: Tables, tokens: seq<Token>, symbol: string): (r: (Tables, Result<int, DbError>))
    ensures RegistryExtends(t, r.0)
  {
    match TokenIndex(tokens, symbol)
    case Some(j) => (t, Success(tokens[j].tokenId))
    case None => TryInsertToken(t, symbol)
  }

  function RegisterMarket(t: Tables, e: int, b: int, q: int): (r: (Tables, MarketRef))
    ensures RegistryExtends(t, r.0)
  {
    match MarketIndex(t.markets, e, b, q)
    case Some(m) => (t, MarketRef(e, t.markets[m].exchangeMarketId, b, q))
    case None => (InsertMarket(t, e, b, q), MarketRef(e, t.nextId, b, q))
  }

  /**
   * The two token steps of `ensure_exchange_market`. Both lookups use the
   * list read once before the base token's insert; the base insert cannot fail.
   */
  function RegisterTokens(t: Tables, base: string, quote: string): (r: (Tables, Result<(int, int), DbError>))
    ensures RegistryExtends(t, r.0)
  {
    var tokens := t.tokens;
    var (t1, bt) := TokenStep(t, tokens, base);
    var (t2, qt) := TokenStep(t1, tokens, quote);
    if qt.Failure? then (t2, Failure(qt.error)) else (t2, Success((bt.value, qt.value)))
  }

  /** `ensure_exchange_market` on the tables. */
  function Register(t: Tables, exchange: string, base: string, quote: string): (r: (Tables, Result<MarketRef, DbError>))
    ensures RegistryExtends(t, r.0)
  {
    var (t1, e) := RegisterExchange(t, exchange);
    var (t2, ids) := RegisterTokens(t1, base, quote);
    if ids.Failure? then (t2, Failure(ids.error))
    else
      var (t3, m) := RegisterMarket(t2, e, ids.value.0, ids.value.1);
      (t3, Success(m))
  }

  lemma ExchangeStep(t: Tables, exchange: string)
    requires TablesValid(t)
    ensures var (t1, e) := RegisterExchange(t, exchange);
            && TablesValid(t1) && t1 == t.(exchanges := t1.exchanges, nextId := t1.nextId)
            && t.exchanges <= t1.exchanges && |t1.exchanges| <= |t.exchanges| + 1
            && ExchangeIndex(t1.exchanges, exchange).Some?
            && t1.exchanges[ExchangeIndex(t1.exchanges, exchange).value].exchangeId == e
            && e in KeySet(t1.exchanges, ExchangeKey)
            && (ExchangeIndex(t.exchanges, exchange).Some? ==> t1 == t)
  {
    var (t1, e) := RegisterExchange(t, exchange);
    if ExchangeIndex(t.exchanges, exchange).None? {
      ExchangeAdded(t, exchange);
      ExchangeIndexAppend(t.exchanges, Exchange(t.nextId, exchange), exchange);
    }
    var i := ExchangeIndex(t1.exchanges, exchange).value;
    assert ExchangeKey(t1.exchanges[i]) == e;
  }

  lemma TokenStepEffect(t: Tables, tokens: seq<Token>, symbol: string, other: string)
    requires TablesValid(t) && tokens <= t.tokens
    ensures var (t1, r) := TokenStep(t, tokens, symbol);
            && TablesValid(t1) && t1 == t.(tokens := t1.tokens, nextId := t1.nextId)
            && t.tokens <= t1.tokens && |t1.tokens| <= |t.tokens| + 1
            && (r.Failure? <==> TokenIndex(tokens, symbol).None? && TokenIndex(t.tokens, symbol).Some?)
            && (r.Failure? || TokenIndex(tokens, symbol).Some? ==> t1 == t)
            && (r.Success? ==> TokenIndex(t1.tokens, symbol).Some?
                               && t1.tokens[TokenIndex(t1.tokens, symbol).value].tokenId == r.value
                               && r.value in KeySet(t1.tokens, TokenKey))
            && (other != symbol && TokenIndex(t.tokens, other).Some? ==>
                  TokenIndex(t1.tokens, other) == TokenIndex(t.tokens, other))
  {
    var (t1, r) := TokenStep(t, tokens, symbol);
    TokenAdded(t, symbol);
    if TokenIndex(tokens, symbol).Some? {
      TokenIndexPrefix(tokens, t.tokens, symbol);
    } else if TokenIndex(t.tokens, symbol).None? {
      TokenIndexAppend(t.tokens, Token(t.nextId, symbol), symbol);
      TokenIndexAppend(t.tokens, Token(t.nextId, symbol), other);
    }
    if r.Success? {
      var j := TokenIndex(t1.tokens, symbol).value;
      assert TokenKey(t1.tokens[j]) == r.value;
    }
  }

  lemma TokensStage(t: Tables, base: string, quote: string)
    requires TablesValid(t)
    ensures var (t2, ids) := RegisterTokens(t, base, quote);
            && TablesValid(t2) && t2 == t.(tokens := t2.tokens, nextId := t2.nextId)
            && t.tokens <= t2.tokens && |t2.tokens| <= |t.tokens| + 2
            && (ids.Failure? <==> base == quote && TokenIndex(t.tokens, base).None?)
            && (ids.Success? ==>
                  && TokenIndex(t2.tokens, base).Some? && TokenIndex(t2.tokens, quote).Some?
                  && t2.tokens[TokenIndex(t2.tokens, base).value].tokenId == ids.value.0
                  && t2.tokens[TokenIndex(t2.tokens, quote).value].tokenId == ids.value.1
                  && ids.value.0 in KeySet(t2.tokens, TokenKey) && ids.value.1 in KeySet(t2.tokens, TokenKey))
  {
    var tokens := t.tokens;
    var (t1, bt) := TokenStep(t, tokens, base);
    TokenStepEffect(t, tokens, base, quote);
    var (t2, qt) := TokenStep(t1, tokens, quote);
    TokenStepEffect(t1, tokens, quote, base);
    if qt.Success? {
      var j := TokenIndex(t2.tokens, base).value;
      assert TokenKey(t2.tokens[j]) == bt.value;
    }
  }

  lemma MarketStep(t: Tables, e: int, b: int, q: int)
    requires TablesValid(t) && e in KeySet(t.exchanges, ExchangeKey)
    requires b in KeySet(t.tokens, TokenKey) && q in KeySet(t.tokens, TokenKey)
    ensures var (t1, m) := RegisterMarket(t, e, b, q);
            && TablesValid(t1) && t1 == t.(markets := t1.markets, nextId := t1.nextId)
            && t.markets <= t1.markets && |t1.markets| <= |t.markets| + 1
            && m.exchangeId == e && m.baseTokenId == b && m.quoteTokenId == q
            && MarketIndex(t1.markets, e, b, q).Some?
            && t1.markets[MarketIndex(t1.markets, e, b, q).value].exchangeMarketId == m.marketId
            && (MarketIndex(t.markets, e, b, q).Some? ==> t1 == t)
  {
    if MarketIndex(t.markets, e, b, q).None? {
      MarketAdded(t, e, b, q);
      MarketIndexAppend(t.markets, ExchangeMarket(t.nextId, e, b, q, None), e, b, q);
    }
  }

  /**
   * `ensure_exchange_market` keeps the schema's constraints, only appends to
   * the exchange, token and market tables (at most one row each, two tokens),
   * fails exactly when base and quote are the same symbol not yet stored,
   * and on success returns the rows the registry now holds for its arguments.
   */
  lemma RegisterCorrect(t: Tables, exchange: string, base: string, quote: string)
    requires TablesValid(t)
    ensures var (t', r) := Register(t, exchange, base, quote);
            && TablesValid(t')
            && t.exchanges <= t'.exchanges && |t'.exchanges| <= |t.exchanges| + 1
            && t.tokens <= t'.tokens && |t'.tokens| <= |t.tokens| + 2
            && t.markets <= t'.markets && |t'.markets| <= |t.markets| + 1
            && t'.snaps == t.snaps && t'.stats == t.stats && t'.bids == t.bids && t'.asks == t.asks
            && t'.trades == t.trades
            && (r.Failure? <==> base == quote && TokenIndex(t.tokens, base).None?)
            && (r.Success? ==> Lookup(t', exchange, base, quote) == Some(r.value))
  {
    var x := RegisterExchange(t, exchange);
    ExchangeStep(t, exchange);
    var y := RegisterTokens(x.0, base, quote);
    TokensStage(x.0, base, quote);
    if y.1.Success? {
      var ids := y.1.value;
      var t3 := RegisterMarket(y.0, x.1, ids.0, ids.1).0;
      MarketStep(y.0, x.1, ids.0, ids.1);
      var i := ExchangeIndex(t3.exchanges, exchange).value;
      var j := TokenIndex(t3.tokens, base).value;
      var k := TokenIndex(t3.tokens, quote).value;
      var mm := MarketIndex(t3.markets, x.1, ids.0, ids.1).value;
      LookupFound(t3, exchange, base, quote, i, j, k, mm);
    }
  }

  /** A registry that already holds the market is left as it is, and its keys are returned. */
  lemma RegisterIdempotent(t: Tables, exchange: string, base: string, quote: string)
    requires Lookup(t, exchange, base, quote).Some?
    ensures Register(t, exchange, base, quote) == (t, Success(Lookup(t, exchange, base, quote).value))
  {
  }

  /** A second call with the same arguments creates nothing and returns the same keys. */
  lemma RegisterTwice(t: Tables, exchange: string, base: string, quote: string)
    requires TablesValid(t) && Register(t, exchange, base, quote).1.Success?
    ensures var (t', r) := Register(t, exchange, base, quote);
            Register(t', exchange, base, quote) == (t', r)
  {
    RegisterCorrect(t, exchange, base, quote);
    var (t', r) := Register(t, exchange, base, quote);
    RegisterIdempotent(t', exchange, base, quote);
  }

  method GetOrAddExchange(db: Database, exchange: string) returns (e: int)
    modifies db
    ensures (db.tables, e) == RegisterExchange(old(db.tables), exchange)
  {
    var ei := ExchangeIndex(db.tables.exchanges, exchange);
    if ei.None? {
      e := db.AddExchange(exchange);
    } else {
      e := db.tables.exchanges[ei.value].exchangeId;
    }
  }

  method GetOrAddTokens(db: Database, base: string, quote: string) returns (r: Result<(int, int), DbError>)
    modifies db
    ensures (db.tables, r) == RegisterTokens(old(db.tables), base, quote)
  {
    var tokens := db.tables.tokens;
    var bi := TokenIndex(tokens, base);
    var bt: Result<int, DbError>;
    if bi.None? {
      bt := db.AddToken(base);
    } else {
      bt := Success(tokens[bi.value].tokenId);
    }
    var qi := TokenIndex(tokens, quote);
    var qt: Result<int, DbError>;
    if qi.None? {
      qt := db.AddToken(quote);
    } else {
      qt := Success(tokens[qi.value].tokenId);
    }
    if qt.Failure? {
      return Failure(qt.error);
    }
    r := Success((bt.value, qt.value));
  }

  method GetOrAddMarket(db: Database, e: int, b: int, q: int) returns (m: MarketRef)
    modifies db
    ensures (db.tables, m) == RegisterMarket(old(db.tables), e, b, q)
  {
    var mi := MarketIndex(db.tables.markets, e, b, q);
    if mi.None? {
      var id := db.AddMarket(e, b, q);
      m := MarketRef(e, id, b, q);
    } else {
      m := MarketRef(e, db.tables.markets[mi.value].exchangeMarketId, b, q);
    }
  }

  /** `ensure_exchange_market`: get or create the exchange, the two tokens and the market. */
  method EnsureExchangeMarket(db: Database, exchange: string, base: string, quote: string)
    returns (r: Result<MarketRef, DbError>)
    requires db.Valid()
    modifies db
    ensures db.Valid() && (db.tables, r) == Register(old(db.tables), exchange, base, quote)
  {
    RegisterCorrect(db.tables, exchange, base, quote);
    var e := GetOrAddExchange(db, exchange);
    var ids := GetOrAddTokens(db, base, quote);
    if ids.Failure? {
      return Failure(ids.error);
    }
    var m := GetOrAddMarket(db, e, ids.value.0, ids.value.1);
    r := Success(m);
  }

  /** How a `snap_market_book` call ends. */
  datatype SnapOutcome =
    | Taken(sid: int)              // a new snapshot with its lines was committed
    | AlreadyTaken                 // a snapshot for (market, ts) exists: nothing written
    | FetchFailed                  // the order-book call raised: the uncommitted header is dropped
    | RegistryFailed(error: DbError)  // `ensure_exchange_market` raised

  /** The market symbol passed to `fetch_order_book`. */
  function MarketSymbol(base: string, quote: string): (r: string)
    ensures |r| == |base| + 1 + |quote| && r[|base|] == '/'
    ensures r[..|base|] == base && r[|base| + 1..] == quote
  {
    base + "/" + quote
  }

  /** The line rows `AddLines` appends: consecutive keys from `next`, the pairs in the book's order. */
  function NewLines(next: int, sid: int, lines: seq<(real, real)>): (r: seq<BookLine>)
    ensures |r| == |lines|
  {
    seq(|lines|, i requires 0 <= i < |lines| => BookLine(next + i, sid, lines[i].0, lines[i].1))
  }

  /** The lines appended to one side of snapshot `sid`, in the book's order. */
  function AddLines(t: Tables, side: BookSide, sid: int, lines: seq<(real, real)>): (r: Tables)
    ensures r.nextId == t.nextId + |lines|
    ensures side == Bid ==> r.bids == t.bids + NewLines(t.nextId, sid, lines) && r.asks == t.asks
    ensures side == Ask ==> r.asks == t.asks + NewLines(t.nextId, sid, lines) && r.bids == t.bids
    ensures r == t.(bids := r.bids, asks := r.asks, nextId := r.nextId)
    decreases |lines|
  {
    if |lines| == 0 then t
    else
      var (p, a) := lines[|lines| - 1];
      var init := lines[..|lines| - 1];
      NewLinesLast(t.nextId, sid, lines);
      InsertLine(AddLines(t, side, sid, init), side, sid, p, a)
  }

  /** The rows for `lines` are those for all but its last pair, then one row for it. */
  lemma NewLinesLast(next: int, sid: int, lines: seq<(real, real)>)
    requires |lines| > 0
    ensures var n := |lines| - 1;
            NewLines(next, sid, lines) == NewLines(next, sid, lines[..n]) + [BookLine(next + n, sid, lines[n].0, lines[n].1)]
  {
  }

  /** The new rows carry exactly `lines` for `sid`, and nothing for any other snapshot. */
  lemma {:induction false} LinesOfNew(next: int, sid: int, lines: seq<(real, real)>, s: int)
    ensures LinesOf(NewLines(next, sid, lines), s) == if s == sid then lines else []
    decreases |lines|
  {
    if |lines| > 0 {
      var n := |lines| - 1;
      NewLinesLast(next, sid, lines);
      LinesOfNew(next, sid, lines[..n], s);
      LinesOfAppend(NewLines(next, sid, lines[..n]), BookLine(next + n, sid, lines[n].0, lines[n].1), s);
      if s == sid {
        assert lines == lines[..n] + [lines[n]];
      }
    }
  }

  /**
   * The snapshot's lines on that side gain exactly `lines`, in order; every
   * other snapshot's lines, on both sides, stay as they were.
   */
  lemma AddLinesEffect(t: Tables, side: BookSide, sid: int, lines: seq<(real, real)>)
    ensures side == Bid ==> LinesOf(AddLines(t, side, sid, lines).bids, sid) == LinesOf(t.bids, sid) + lines
    ensures side == Ask ==> LinesOf(AddLines(t, side, sid, lines).asks, sid) == LinesOf(t.asks, sid) + lines
    ensures forall s :: s != sid ==> LinesOf(AddLines(t, side, sid, lines).bids, s) == LinesOf(t.bids, s)
    ensures forall s :: s != sid ==> LinesOf(AddLines(t, side, sid, lines).asks, s) == LinesOf(t.asks, s)
  {
    var rows := if side == Bid then t.bids else t.asks;
    forall s ensures LinesOf(rows + NewLines(t.nextId, sid, lines), s) == LinesOf(rows, s) + (if s == sid then lines else []) {
      LinesOfNew(t.nextId, sid, lines, s);
      LinesOfConcat(rows, NewLines(t.nextId, sid, lines), s);
    }
  }

  /** Lines of a stored snapshot keep the constraints. */
  lemma {:induction false} AddLinesValid(t: Tables, side: BookSide, sid: int, lines: seq<(real, real)>)
    requires TablesValid(t) && sid in KeySet(t.snaps, SnapKey)
    ensures TablesValid(AddLines(t, side, sid, lines))
    decreases |lines|
  {
    if |lines| > 0 {
      var init := lines[..|lines| - 1];
      var (p, a) := lines[|lines| - 1];
      AddLinesValid(t, side, sid, init);
      AddLinesEffect(t, side, sid, init);
      LineAdded(AddLines(t, side, sid, init), side, sid, p, a);
    }
  }

  /**
   * `snap_market_book` on the tables. The book is fetched before the header
   * is added, which is the same as the code's order: the header is not
   * committed before the fetch, and a failed fetch drops it.
   */
  function SnapBook(t: Tables, ts: int, exchange: string, base: string, quote: string,
                    fetch: (string, nat) -> Option<OrderBook>, dec: real -> real): (r: (Tables, SnapOutcome))
    ensures r.0.stats == t.stats && r.0.trades == t.trades
    ensures !r.1.Taken? ==> r.0.snaps == t.snaps && r.0.bids == t.bids && r.0.asks == t.asks
    ensures r.1.Taken? ==> t.snaps <= r.0.snaps && |r.0.snaps| == |t.snaps| + 1 && r.0.snaps[|t.snaps|].bookSnapId == r.1.sid
  {
    var (t1, reg) := Register(t, exchange, base, quote);
    if reg.Failure? then (t1, RegistryFailed(reg.error))
    else if SnapIndex(t1.snaps, reg.value.marketId, ts).Some? then (t1, AlreadyTaken)
    else match fetch(MarketSymbol(base, quote), BookLimit(exchange))
      case None => (t1, FetchFailed)
      case Some(book) =>
        (WriteSnap(t1, reg.value.marketId, ts, Decimalize(book, dec)), Taken(t1.nextId))
  }

  /** The header, then its bid lines, then its ask lines. */
  function WriteSnap(t: Tables, market: int, ts: int, book: OrderBook): (r: Tables)
    ensures t.snaps <= r.snaps && |r.snaps| == |t.snaps| + 1 && r.snaps[|t.snaps|].bookSnapId == t.nextId
    ensures t.bids <= r.bids && |r.bids| == |t.bids| + |book.bids|
    ensures t.asks <= r.asks && |r.asks| == |t.asks| + |book.asks|
    ensures r.nextId == t.nextId + 1 + |book.bids| + |book.asks|
    ensures r == t.(snaps := r.snaps, bids := r.bids, asks := r.asks, nextId := r.nextId)
  {
    var sid := t.nextId;
    var t1 := InsertSnap(t, market, ts);
    AddLines(AddLines(t1, Bid, sid, book.bids), Ask, sid, book.asks)
  }

  /** The header is a new snapshot under a fresh key, and the tables keep their constraints. */
  lemma WriteSnapEffect(t: Tables, market: int, ts: int, book: OrderBook)
    requires TablesValid(t) && market in KeySet(t.markets, MarketKey)
    ensures var t' := WriteSnap(t, market, ts, book);
            && TablesValid(t')
            && t.nextId !in KeySet(t.snaps, SnapKey)
            && t'.snaps == t.snaps + [BookSnap(t.nextId, market, ts, None)]
  {
    var sid := t.nextId;
    NextKeyFresh(t.snaps, SnapKey, sid);
    var t1 := InsertSnap(t, market, ts);
    SnapAdded(t, market, ts);
    AddLinesValid(t1, Bid, sid, book.bids);
    AddLinesValid(AddLines(t1, Bid, sid, book.bids), Ask, sid, book.asks);
  }

  /** The new snapshot's lines are the book's, in order; every other snapshot's lines stay as they were. */
  lemma WriteSnapLines(t: Tables, market: int, ts: int, book: OrderBook)
    requires TablesValid(t)
    ensures var t' := WriteSnap(t, market, ts, book);
            && LinesOf(t'.bids, t.nextId) == book.bids && LinesOf(t'.asks, t.nextId) == book.asks
            && (forall s :: s != t.nextId ==> LinesOf(t'.bids, s) == LinesOf(t.bids, s) && LinesOf(t'.asks, s) == LinesOf(t.asks, s))
  {
    var sid := t.nextId;
    NextKeyFresh(t.snaps, SnapKey, sid);
    LinesOfAbsent(t.bids, t.snaps, sid);
    LinesOfAbsent(t.asks, t.snaps, sid);
    var t1 := InsertSnap(t, market, ts);
    AddLinesEffect(t1, Bid, sid, book.bids);
    AddLinesEffect(AddLines(t1, Bid, sid, book.bids), Ask, sid, book.asks);
  }

  /** A market `ensure_exchange_market` returns is stored in the market table. */
  lemma RegisteredMarket(t: Tables, exchange: string, base: string, quote: string)
    requires TablesValid(t) && Register(t, exchange, base, quote).1.Success?
    ensures var (t1, reg) := Register(t, exchange, base, quote);
            TablesValid(t1) && reg.value.marketId in KeySet(t1.markets, MarketKey)
  {
    var (t1, reg) := Register(t, exchange, base, quote);
    RegisterCorrect(t, exchange, base, quote);
    var m := reg.value;
    var i :| 0 <= i < |t1.markets| && t1.markets[i].exchangeMarketId == m.marketId
             && MarketTriple(t1.markets[i]) == (m.exchangeId, m.baseTokenId, m.quoteTokenId);
    assert MarketKey(t1.markets[i]) == m.marketId;
  }

  /**
   * `snap_market_book` keeps the constraints; it writes a snapshot exactly
   * when the registry succeeds, no snapshot for (market, ts) exists and the
   * book is fetched; otherwise only the registry's commits remain.
   */
  lemma SnapBookValid(t: Tables, ts: int, exchange: string, base: string, quote: string,
                      fetch: (string, nat) -> Option<OrderBook>, dec: real -> real)
    requires TablesValid(t)
    ensures var (t', o) := SnapBook(t, ts, exchange, base, quote, fetch, dec);
            var (t1, reg) := Register(t, exchange, base, quote);
            && TablesValid(t')
            && (o.Taken? <==> reg.Success? && SnapIndex(t1.snaps, reg.value.marketId, ts).None?
                              && fetch(MarketSymbol(base, quote), BookLimit(exchange)).Some?)
            && (!o.Taken? ==> t' == t1)
  {
    var (t1, reg) := Register(t, exchange, base, quote);
    RegisterCorrect(t, exchange, base, quote);
    if reg.Success? {
      RegisteredMarket(t, exchange, base, quote);
      if SnapIndex(t1.snaps, reg.value.marketId, ts).None? {
        match fetch(MarketSymbol(base, quote), BookLimit(exchange))
        case None =>
        case Some(book) => WriteSnapEffect(t1, reg.value.marketId, ts, Decimalize(book, dec));
      }
    }
  }

  /** A snapshot is taken exactly when the market registers, has none for the tick, and the book is fetched; it is then written as given. */
  lemma SnapBookWrites(t: Tables, ts: int, exchange: string, base: string, quote: string,
                       fetch: (string, nat) -> Option<OrderBook>, dec: real -> real)
    requires SnapBook(t, ts, exchange, base, quote, fetch, dec).1.Taken?
    ensures var (t1, reg) := Register(t, exchange, base, quote);
            var ob := fetch(MarketSymbol(base, quote), BookLimit(exchange));
            && reg.Success? && SnapIndex(t1.snaps, reg.value.marketId, ts).None? && ob.Some?
            && SnapBook(t, ts, exchange, base, quote, fetch, dec)
               == (WriteSnap(t1, reg.value.marketId, ts, Decimalize(ob.value, dec)), Taken(t1.nextId))
  {
  }

  /**
   * The new snapshot: one header under a fresh key, one line row per pair of
   * the book on each side, and no other row in any table.
   */
  lemma SnapBookTaken(t: Tables, ts: int, exchange: string, base: string, quote: string,
                      fetch: (string, nat) -> Option<OrderBook>, dec: real -> real)
    requires TablesValid(t) && SnapBook(t, ts, exchange, base, quote, fetch, dec).1.Taken?
    ensures var (t', o) := SnapBook(t, ts, exchange, base, quote, fetch, dec);
            var (t1, reg) := Register(t, exchange, base, quote);
            var ob := fetch(MarketSymbol(base, quote), BookLimit(exchange));
            && reg.Success? && ob.Some? && o.sid !in KeySet(t1.snaps, SnapKey)
            && t'.snaps == t1.snaps + [BookSnap(o.sid, reg.value.marketId, ts, None)]
            && t1.bids <= t'.bids && |t'.bids| == |t1.bids| + |ob.value.bids|
            && t1.asks <= t'.asks && |t'.asks| == |t1.asks| + |ob.value.asks|
            && t'.stats == t1.stats && t'.trades == t1.trades
            && t'.exchanges == t1.exchanges && t'.tokens == t1.tokens && t'.markets == t1.markets
  {
    var (t1, reg) := Register(t, exchange, base, quote);
    SnapBookWrites(t, ts, exchange, base, quote, fetch, dec);
    RegisteredMarket(t, exchange, base, quote);
    var book := Decimalize(fetch(MarketSymbol(base, quote), BookLimit(exchange)).value, dec);
    WriteSnapEffect(t1, reg.value.marketId, ts, book);
  }

  /** The new snapshot's lines are the decimalized book's pairs in the same order; no other snapshot gains a line. */
  lemma SnapBookLines(t: Tables, ts: int, exchange: string, base: string, quote: string,
                      fetch: (string, nat) -> Option<OrderBook>, dec: real -> real)
    requires TablesValid(t) && SnapBook(t, ts, exchange, base, quote, fetch, dec).1.Taken?
    ensures var (t', o) := SnapBook(t, ts, exchange, base, quote, fetch, dec);
            var t1 := Register(t, exchange, base, quote).0;
            var ob := fetch(MarketSymbol(base, quote), BookLimit(exchange));
            && ob.Some?
            && LinesOf(t'.bids, o.sid) == Decimalize(ob.value, dec).bids
            && LinesOf(t'.asks, o.sid) == Decimalize(ob.value, dec).asks
            && (forall s :: s != o.sid ==> LinesOf(t'.bids, s) == LinesOf(t1.bids, s) && LinesOf(t'.asks, s) == LinesOf(t1.asks, s))
  {
    var (t1, reg) := Register(t, exchange, base, quote);
    SnapBookWrites(t, ts, exchange, base, quote, fetch, dec);
    RegisteredMarket(t, exchange, base, quote);
    var book := Decimalize(fetch(MarketSymbol(base, quote), BookLimit(exchange)).value, dec);
    WriteSnapLines(t1, reg.value.marketId, ts, book);
  }

  /** With a snapshot for (market, ts) already stored, `snap_market_book` changes nothing. */
  lemma SnapBookExisting(t: Tables, ts: int, exchange: string, base: string, quote: string,
                         fetch: (string, nat) -> Option<OrderBook>, dec: real -> real)
    requires Lookup(t, exchange, base, quote).Some?
    requires SnapIndex(t.snaps, Lookup(t, exchange, base, quote).value.marketId, ts).Some?
    ensures SnapBook(t, ts, exchange, base, quote, fetch, dec) == (t, AlreadyTaken)
  {
    RegisterIdempotent(t, exchange, base, quote);
  }

  /** Once a snapshot is taken, a second call for the same tick writes nothing, whatever the book. */
  lemma SnapBookTwice(t: Tables, ts: int, exchange: string, base: string, quote: string,
                      fetch: (string, nat) -> Option<OrderBook>, fetch': (string, nat) -> Option<OrderBook>,
                      dec: real -> real)
    requires TablesValid(t) && SnapBook(t, ts, exchange, base, quote, fetch, dec).1.Taken?
    ensures var t' := SnapBook(t, ts, exchange, base, quote, fetch, dec).0;
            SnapBook(t', ts, exchange, base, quote, fetch', dec) == (t', AlreadyTaken)
  {
    var (t', o) := SnapBook(t, ts, exchange, base, quote, fetch, dec);
    var (t1, reg) := Register(t, exchange, base, quote);
    SnapBookTaken(t, ts, exchange, base, quote, fetch, dec);
    RegisterCorrect(t, exchange, base, quote);
    var m := reg.value;
    assert Lookup(t1, exchange, base, quote) == Some(m);
    assert Lookup(t', exchange, base, quote) == Some(m);
    RegisterIdempotent(t', exchange, base, quote);
    assert t'.snaps[|t1.snaps|] == BookSnap(o.sid, m.marketId, ts, None);
  }

  method AppendLines(db: Database, side: BookSide, sid: int, lines: seq<(real, real)>)
    modifies db
    ensures db.tables == AddLines(old(db.tables), side, sid, lines)
  {
    ghost var t0 := db.tables;
    var k := 0;
    while k < |lines|
      invariant 0 <= k <= |lines|
      invariant db.tables == AddLines(t0, side, sid, lines[..k])
    {
      var (p, a) := lines[k];
      AddLinesStep(t0, side, sid, lines, k);
      var _ := db.AddBookLine(side, sid, p, a);
      k := k + 1;
    }
    assert lines[..k] == lines;
  }

  /** One more pair is one more line insert. */
  lemma AddLinesStep(t: Tables, side: BookSide, sid: int, lines: seq<(real, real)>, k: int)
    requires 0 <= k < |lines|
    ensures AddLines(t, side, sid, lines[..k + 1]) == InsertLine(AddLines(t, side, sid, lines[..k]), side, sid, lines[k].0, lines[k].1)
  {
    assert lines[..k + 1][..k] == lines[..k];
  }

  /** `snap_market_book` at tick `ts`. */
  method SnapMarketBook(db: Database, ts: int, exchange: string, base: string, quote: string,
                        fetch: (string, nat) -> Option<OrderBook>, dec: real -> real)
    returns (o: SnapOutcome)
    requires db.Valid()
    modifies db
    ensures db.Valid() && (db.tables, o) == SnapBook(old(db.tables), ts, exchange, base, quote, fetch, dec)
  {
    SnapBookValid(db.tables, ts, exchange, base, quote, fetch, dec);
    var reg := EnsureExchangeMarket(db, exchange, base, quote);
    if reg.Failure? {
      return RegistryFailed(reg.error);
    }
    var m := reg.value.marketId;
    if SnapIndex(db.tables.snaps, m, ts).Some? {
      return AlreadyTaken;
    }
    var fetched := fetch(MarketSymbol(base, quote), BookLimit(exchange));
    if fetched.None? {
      return FetchFailed;
    }
    var book := Decimalize(fetched.value, dec);
    o := Taken(db.tables.nextId);
    var sid := db.AddBookSnap(m, ts);
    AppendLines(db, Bid, sid, book.bids);
    AppendLines(db, Ask, sid, book.asks);
  }
}
