/**
 * One pass of the auto watcher (`autoscan_loop`) for one subscriber: the
 * eligibility gate, the `last_scan` stamp, the scan of the watchlist for the
 * best opportunity, the threshold filter and the de-duplication on
 * `pair|bx|sx`.
 */
module Watcher {
  import opened Wrappers
  import opened Pairs
  import opened Quotes
  import opened Spread
  import opened Ranking
  import opened Sessions

  /** `SCAN_PERIOD`: seconds between two scans of one chat. */
  const SCAN_PERIOD: real := 30.0

  /** The running best's starting value, `(0.0, "", "", "", 0.0, 0.0)`. */
  const NO_LINE: Line := Line(0.0, "", "", "", 0.0, 0.0)

  /** The outcome of a watchlist scan: the best line and, once one is positive, its rows. */
  datatype Sweep = Sweep(best: Line, rows: Option<seq<Row>>)

  /** What one watchlist pair offers: its best line and the rows it came from. */
  datatype Offer = Offer(line: Line, rows: seq<Row>)

  /** `fetch_all(pair)` and `best_spread` of it, as the watcher pairs them. */
  function OfferOf(quote: Quoter, pair: string): Offer
    requires OneSlash(pair)
  {
    Offer(LineOf(pair, BestOf(quote, pair)), Responding(quote, pair, EXCHS))
  }

  /** The offers of `pairs`, in order. */
  function Offers(quote: Quoter, pairs: seq<string>): seq<Offer>
    requires Renderable(pairs)
  {
    if pairs == [] then []
    else Offers(quote, pairs[..|pairs| - 1]) + [OfferOf(quote, pairs[|pairs| - 1])]
  }

  /** The running best after visiting `offers` in order: only a strictly greater pct replaces it. */
  function Pick(offers: seq<Offer>): Sweep {
    if offers == [] then Sweep(NO_LINE, None)
    else
      var prev := Pick(offers[..|offers| - 1]);
      var o := offers[|offers| - 1];
      if o.line.pct > prev.best.pct then Sweep(o.line, Some(o.rows)) else prev
  }

  /** The watcher's scan of `pairs`. */
  function WatchScan(quote: Quoter, pairs: seq<string>): Sweep
    requires Renderable(pairs)
  {
    Pick(Offers(quote, pairs))
  }

  /** The scanning loop of the watcher: `fetch_all` and `best_spread` on each pair. */
  method ScanWatchlist(quote: Quoter, pairs: seq<string>) returns (best: Line, bestRows: Option<seq<Row>>)
    requires Renderable(pairs)
    ensures Sweep(best, bestRows) == WatchScan(quote, pairs)
  {
    best, bestRows := NO_LINE, None;
    for k := 0 to |pairs|
      invariant Sweep(best, bestRows) == Pick(Offers(quote, pairs[..k]))
    {
      var pair := pairs[k];
      assert pairs[..k + 1][..k] == pairs[..k];
      ghost var offers := Offers(quote, pairs[..k + 1]);
      assert offers[..|offers| - 1] == Offers(quote, pairs[..k]);
      var rows := FetchAll(quote, pair);
      var sp := BestSpread(rows);
      if sp.pct > best.pct {
        best := Line(sp.pct, pair, sp.buy, sp.sell, sp.buyPrice, sp.sellPrice);
        bestRows := Some(rows);
      }
    }
    assert pairs[..|pairs|] == pairs;
  }

  /** Offer k is the first with the greatest pct, and the sweep holds it. */
  predicate FirstBest(offers: seq<Offer>, sc: Sweep, k: nat)
    requires k < |offers|
  {
    && sc == Sweep(offers[k].line, Some(offers[k].rows))
    && (forall m :: 0 <= m < k ==> offers[m].line.pct < sc.best.pct)
  }

  /**
   * The running best: its pct is never negative and no offer beats it; rows
   * are kept exactly when it is positive, and it is then the first offer
   * with the greatest pct; otherwise it is the starting value.
   */
  lemma {:induction false} PickIsFirstBest(offers: seq<Offer>)
    ensures var sc := Pick(offers);
      && sc.best.pct >= 0.0
      && (forall k :: 0 <= k < |offers| ==> offers[k].line.pct <= sc.best.pct)
      && (sc.rows.Some? <==> sc.best.pct > 0.0)
      && (sc.rows.None? ==> sc.best == NO_LINE)
      && (sc.rows.Some? ==> exists k :: 0 <= k < |offers| && FirstBest(offers, sc, k))
  {
    if offers != [] {
      var init := offers[..|offers| - 1];
      PickIsFirstBest(init);
      var prev := Pick(init);
      var last := |offers| - 1;
      assert forall k :: 0 <= k < |init| ==> init[k] == offers[k];
      if offers[last].line.pct > prev.best.pct {
        assert FirstBest(offers, Pick(offers), last);
      } else if prev.rows.Some? {
        var k :| 0 <= k < |init| && FirstBest(init, prev, k);
        assert FirstBest(offers, prev, k);
      }
    }
  }

  /** Offer k is pair k's: its line is that pair's best spread, its rows that pair's quotes. */
  lemma {:induction false} OffersOfPairs(quote: Quoter, pairs: seq<string>)
    requires Renderable(pairs)
    ensures |Offers(quote, pairs)| == |pairs|
    ensures forall k :: 0 <= k < |pairs| ==> Offers(quote, pairs)[k] == OfferOf(quote, pairs[k])
  {
    if pairs != [] {
      var init := pairs[..|pairs| - 1];
      OffersOfPairs(quote, init);
      assert forall k :: 0 <= k < |init| ==> init[k] == pairs[k];
    }
  }

  /**
   * An offer with a positive pct names its pair and has rows behind it,
   * since no rows give no spread.
   */
  lemma OfferFacts(quote: Quoter, pair: string)
    requires OneSlash(pair)
    ensures OfferOf(quote, pair).line.pair == pair
    ensures OfferOf(quote, pair).line.pct > 0.0 ==> OfferOf(quote, pair).rows != []
  {
    BestOfNothing();
  }

  /**
   * The watcher's candidate in terms of the pairs: no pair's best spread
   * beats it; when it is positive it is the line of the first pair reaching
   * the greatest pct, with that pair's (non-empty) rows.
   */
  lemma WatchScanIsFirstBest(quote: Quoter, pairs: seq<string>)
    requires Renderable(pairs)
    ensures var sc := WatchScan(quote, pairs);
      && (forall k :: 0 <= k < |pairs| ==> BestOf(quote, pairs[k]).pct <= sc.best.pct)
      && (sc.rows.Some? <==> sc.best.pct > 0.0)
      && (sc.rows.None? ==> sc.best == NO_LINE)
      && (sc.rows.Some? ==> exists k :: 0 <= k < |pairs| && PairFirstBest(quote, pairs, sc, k))
  {
    var offers := Offers(quote, pairs);
    PickIsFirstBest(offers);
    OffersOfPairs(quote, pairs);
    var sc := Pick(offers);
    assert forall k :: 0 <= k < |pairs| ==> offers[k].line.pct == BestOf(quote, pairs[k]).pct;
    if sc.rows.Some? {
      var k :| 0 <= k < |offers| && FirstBest(offers, sc, k);
      OfferFacts(quote, pairs[k]);
      assert PairFirstBest(quote, pairs, sc, k);
    }
  }

  /** Pair k is the first whose best spread is greatest, and the sweep holds its line and rows. */
  predicate PairFirstBest(quote: Quoter, pairs: seq<string>, sc: Sweep, k: nat)
    requires Renderable(pairs) && k < |pairs|
  {
    && sc.best == LineOf(pairs[k], BestOf(quote, pairs[k]))
    && sc.rows == Some(Responding(quote, pairs[k], EXCHS))
    && sc.rows.value != []
    && (forall m :: 0 <= m < k ==> BestOf(quote, pairs[m]).pct < sc.best.pct)
  }

  /** The watcher's scan of `WATCHLIST`. */
  function Watched(quote: Quoter): Sweep {
    WatchlistRenderable();
    WatchScan(quote, WATCHLIST)
  }

  /** The watcher's loop over `WATCHLIST`. */
  method WatchlistSweep(quote: Quoter) returns (best: Line, bestRows: Option<seq<Row>>)
    ensures Sweep(best, bestRows) == Watched(quote)
  {
    WatchlistRenderable();
    best, bestRows := ScanWatchlist(quote, WATCHLIST);
  }

  /** The de-duplication key `pair|bx|sx`. */
  function Fingerprint(l: Line): string {
    l.pair + "|" + l.buy + "|" + l.sell
  }

  /** Whether the chat is scanned in this pass: auto on and `SCAN_PERIOD` elapsed since the last scan. */
  predicate Due(s: Session, now: real) {
    s.auto && !(now - s.lastScan < SCAN_PERIOD)
  }

  /** The chat's new session and the messages the pass sends it. */
  datatype TickResult = TickResult(session: Session, alerts: seq<Outgoing>)

  /**
   * What a due chat's pass decides once its record is stamped and the
   * watchlist is swept: nothing below the threshold or without rows,
   * nothing for the key sent last, and otherwise the opportunity and its
   * table, remembering the key.
   */
  function Alert(s: Session, sc: Sweep): (r: TickResult)
    // only the key may change, exactly when the two messages go out, and only at or above the threshold
    ensures r.session == s.(autoLastKey := r.session.autoLastKey)
    ensures r.alerts == [] <==> r.session.autoLastKey == s.autoLastKey
    ensures r.alerts != [] ==> |r.alerts| == 2 && sc.best.pct >= s.threshold
  {
    if sc.best.pct < s.threshold || sc.rows.None? || sc.rows.value == [] then TickResult(s, [])
    else
      var key := Fingerprint(sc.best);
      if key == s.autoLastKey then TickResult(s, [])
      else
        var s' := s.(autoLastKey := key);
        TickResult(s', [Plain(s', NewOpp(sc.best)), Plain(s', Table(sc.best.pair, sc.rows.value))])
  }

  /** One pass of `autoscan_loop` over one chat, with the watchlist scanned through `quote`. */
  function Tick(s: Session, now: real, quote: Quoter): (r: TickResult)
    // only the watcher's two fields may change, and only a due chat hears anything
    ensures r.session == s.(lastScan := r.session.lastScan, autoLastKey := r.session.autoLastKey)
    ensures r.alerts != [] ==> Due(s, now)
  {
    if !s.auto then TickResult(s, [])
    else if now - s.lastScan < SCAN_PERIOD then TickResult(s, [])
    else Alert(s.(lastScan := now), Watched(quote))
  }

  /** A chat that is not due is left exactly as it was and hears nothing. */
  lemma TickNotDue(s: Session, now: real, quote: Quoter)
    requires !Due(s, now)
    ensures Tick(s, now, quote) == TickResult(s, [])
  {
  }

  /**
   * A due chat is stamped with `now` whatever follows; the pass changes
   * nothing but `last_scan` and, when it alerts, `auto_last_key`.
   */
  lemma TickStamps(s: Session, now: real, quote: Quoter)
    requires Due(s, now)
    ensures var r := Tick(s, now, quote);
      && r.session.lastScan == now
      && r.session == s.(lastScan := now, autoLastKey := r.session.autoLastKey)
      && (r.alerts == [] <==> r.session.autoLastKey == s.autoLastKey)
  {
  }

  /**
   * An alert goes out exactly when the chat is due, the watchlist's best
   * pct reaches the threshold with rows behind it, and its key differs from
   * the last one sent; it is the opportunity and then its table, and the
   * key is remembered.
   */
  lemma TickAlertIff(s: Session, now: real, quote: Quoter)
    ensures var sc, r := Watched(quote), Tick(s, now, quote);
      && (r.alerts != [] <==>
            Due(s, now) && sc.best.pct >= s.threshold && sc.rows.Some? && sc.rows.value != []
            && Fingerprint(sc.best) != s.autoLastKey)
      && (r.alerts != [] ==>
            && r.session.autoLastKey == Fingerprint(sc.best)
            && r.alerts == [Plain(r.session, NewOpp(sc.best)), Plain(r.session, Table(sc.best.pair, sc.rows.value))])
  {
  }

  /**
   * A key once sent is not sent again by the next pass, however the pct
   * has moved, as long as the best opportunity keeps the same key.
   */
  lemma TickNoRepeat(s: Session, now1: real, now2: real, quote1: Quoter, quote2: Quoter)
    requires Tick(s, now1, quote1).alerts != []
    ensures Fingerprint(Watched(quote2).best) == Fingerprint(Watched(quote1).best) ==>
      Tick(Tick(s, now1, quote1).session, now2, quote2).alerts == []
  {
    TickAlertIff(s, now1, quote1);
    TickAlertIff(Tick(s, now1, quote1).session, now2, quote2);
  }

  /**
   * Three successive decisions for one chat: BTC/USDT bought on binance and
   * sold on okx at 1.0 % alerts; the same crossing at 1.5 % is not repeated;
   * a new crossing (sold on bybit) at 0.8 % alerts again although its pct is
   * lower than the first.
   */
  lemma AlertSequenceExample(s: Session, rows: seq<Row>)
    requires s.threshold == 0.10 && s.autoLastKey == "" && rows != []
    ensures var r1 := Alert(s, Sweep(Line(1.0, "BTC/USDT", "binance", "okx", 100.0, 101.0), Some(rows)));
      var r2 := Alert(r1.session, Sweep(Line(1.5, "BTC/USDT", "binance", "okx", 100.0, 101.5), Some(rows)));
      var r3 := Alert(r2.session, Sweep(Line(0.8, "BTC/USDT", "binance", "bybit", 100.0, 100.8), Some(rows)));
      && |r1.alerts| == 2 && r2.alerts == [] && |r3.alerts| == 2
      && r3.session.autoLastKey == "BTC/USDT|binance|bybit"
  {
    assert Fingerprint(Line(1.0, "BTC/USDT", "binance", "okx", 100.0, 101.0)) == "BTC/USDT|binance|okx";
    assert Fingerprint(Line(0.8, "BTC/USDT", "binance", "bybit", 100.0, 100.8)) == "BTC/USDT|binance|bybit";
    assert "BTC/USDT|binance|okx" != "BTC/USDT|binance|bybit" by {
      assert "BTC/USDT|binance|okx"[18] != "BTC/USDT|binance|bybit"[18];
    }
  }

  /** A chat whose auto is off stays silent and unchanged through any sequence of passes. */
  lemma {:induction false} SilentWhenOff(s: Session, nows: seq<real>, quote: Quoter)
    requires !s.auto
    ensures Ticks(s, nows, quote) == TickResult(s, [])
    decreases |nows|
  {
    if nows != [] {
      SilentWhenOff(s, nows[1..], quote);
    }
  }

  /** Successive passes at the times `nows`, all scanning through `quote`. */
  function Ticks(s: Session, nows: seq<real>, quote: Quoter): TickResult
    decreases |nows|
  {
    if nows == [] then TickResult(s, [])
    else
      var first := Tick(s, nows[0], quote);
      var rest := Ticks(first.session, nows[1..], quote);
      TickResult(rest.session, first.alerts + rest.alerts)
  }
}
