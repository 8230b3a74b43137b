/**
 * The data part of "Top Opportunities" (`do_top`): the best spread of every
 * watchlist pair, the positive ones kept as `(pct, pair, bx, sx, bp, sp)`
 * tuples, sorted in descending tuple order and cut to five.
 */
module Ranking {
  import opened Text
  import opened Pairs
  import opened Quotes
  import opened Spread

  /** A ranked opportunity: the tuple `(pct, pair, bx, sx, bp, sp)`. */
  datatype Line = Line(pct: real, pair: string, buy: string, sell: string, buyPrice: real, sellPrice: real)

  /** The line for `pair` with best spread `sp`. */
  function LineOf(pair: string, sp: Spread): Line {
    Line(sp.pct, pair, sp.buy, sp.sell, sp.buyPrice, sp.sellPrice)
  }

  /** `WATCHLIST`, in the order listed. */
  const WATCHLIST: seq<string> := [
    "BTC/USDT", "ETH/USDT", "BNB/USDT", "SOL/USDT", "XRP/USDT",
    "TON/USDT", "DOGE/USDT", "ADA/USDT", "TRX/USDT", "ZIL/USDT"
  ]

  /** Pairs every exchange can render: exactly one slash each. */
  predicate Renderable(pairs: seq<string>) {
    forall k :: 0 <= k < |pairs| ==> OneSlash(pairs[k])
  }

  /** Every watchlist pair has exactly one slash. */
  lemma WatchlistRenderable()
    ensures Renderable(WATCHLIST)
  {
    var bases := ["BTC", "ETH", "BNB", "SOL", "XRP", "TON", "DOGE", "ADA", "TRX", "ZIL"];
    forall k | 0 <= k < |WATCHLIST|
      ensures OneSlash(WATCHLIST[k])
    {
      assert WATCHLIST[k] == bases[k] + "/USDT";
      UsdtPairSlash(bases[k]);
    }
  }

  /** Python's `<` on these tuples: lexicographic, field by field. */
  predicate Less(a: Line, b: Line) {
    || a.pct < b.pct
    || (a.pct == b.pct && StrLess(a.pair, b.pair))
    || (a.pct == b.pct && a.pair == b.pair && StrLess(a.buy, b.buy))
    || (a.pct == b.pct && a.pair == b.pair && a.buy == b.buy && StrLess(a.sell, b.sell))
    || (a.pct == b.pct && a.pair == b.pair && a.buy == b.buy && a.sell == b.sell && a.buyPrice < b.buyPrice)
    || (a.pct == b.pct && a.pair == b.pair && a.buy == b.buy && a.sell == b.sell && a.buyPrice == b.buyPrice
        && a.sellPrice < b.sellPrice)
  }

  lemma LessIrreflexive(a: Line)
    ensures !Less(a, a)
  {
    StrLessIrreflexive(a.pair);
    StrLessIrreflexive(a.buy);
    StrLessIrreflexive(a.sell);
  }

  lemma LessTransitive(a: Line, b: Line, c: Line)
    requires Less(a, b) && Less(b, c)
    ensures Less(a, c)
  {
    if a.pct == b.pct == c.pct {
      if StrLess(a.pair, b.pair) && StrLess(b.pair, c.pair) {
        StrLessTransitive(a.pair, b.pair, c.pair);
      } else if a.pair == b.pair == c.pair {
        if StrLess(a.buy, b.buy) && StrLess(b.buy, c.buy) {
          StrLessTransitive(a.buy, b.buy, c.buy);
        } else if a.buy == b.buy == c.buy && StrLess(a.sell, b.sell) && StrLess(b.sell, c.sell) {
          StrLessTransitive(a.sell, b.sell, c.sell);
        }
      }
    }
  }

  /** Any two tuples are ordered one way or the other, or equal. */
  lemma LessTotal(a: Line, b: Line)
    ensures Less(a, b) || a == b || Less(b, a)
  {
    StrLessTotal(a.pair, b.pair);
    StrLessTotal(a.buy, b.buy);
    StrLessTotal(a.sell, b.sell);
  }

  lemma LessAsymmetric(a: Line, b: Line)
    requires Less(a, b)
    ensures !Less(b, a)
  {
    if Less(b, a) {
      LessTransitive(a, b, a);
      LessIrreflexive(a);
    }
  }

  /** Non-increasing in tuple order, as `sort(reverse=True)` leaves a list. */
  predicate SortedDesc(xs: seq<Line>) {
    forall i, j :: 0 <= i < j < |xs| ==> !Less(xs[i], xs[j])
  }

  /** `x` put in front of the first element it is not smaller than. */
  function Insert(x: Line, xs: seq<Line>): (r: seq<Line>)
    ensures multiset(r) == multiset(xs) + multiset{x}
  {
    if xs == [] then [x]
    else if !Less(x, xs[0]) then [x] + xs
    else
      assert xs == [xs[0]] + xs[1..];
      [xs[0]] + Insert(x, xs[1..])
  }

  /** Descending tuple sort. */
  function SortDesc(xs: seq<Line>): (r: seq<Line>)
    ensures multiset(r) == multiset(xs)
  {
    if xs == [] then []
    else
      assert xs == [xs[0]] + xs[1..];
      Insert(xs[0], SortDesc(xs[1..]))
  }

  lemma {:induction false} InsertSorted(x: Line, xs: seq<Line>)
    requires SortedDesc(xs)
    ensures SortedDesc(Insert(x, xs))
  {
    if xs != [] {
      if !Less(x, xs[0]) {
        var r := [x] + xs;
        forall j | 0 < j < |r|
          ensures !Less(x, r[j])
        {
          if Less(x, r[j]) {
            LessTotal(x, xs[0]);
            if j > 1 {
              assert !Less(xs[0], xs[j - 1]);
              LessTotal(xs[0], xs[j - 1]);
              if Less(xs[j - 1], xs[0]) {
                LessTransitive(x, xs[j - 1], xs[0]);
              }
            }
          }
        }
      } else {
        InsertSorted(x, xs[1..]);
        var tail := Insert(x, xs[1..]);
        forall j | 0 <= j < |tail|
          ensures !Less(xs[0], tail[j])
        {
          assert tail[j] in multiset(tail);
          assert tail[j] in multiset(xs[1..]) || tail[j] == x;
          if tail[j] != x {
            var m :| 0 <= m < |xs[1..]| && xs[1..][m] == tail[j];
            assert xs[m + 1] == tail[j];
          } else {
            LessAsymmetric(x, xs[0]);
          }
        }
      }
    }
  }

  lemma {:induction false} SortDescSorted(xs: seq<Line>)
    ensures SortedDesc(SortDesc(xs))
  {
    if xs != [] {
      SortDescSorted(xs[1..]);
      InsertSorted(xs[0], SortDesc(xs[1..]));
    }
  }

  /**
   * A descending list is determined by its elements: `SortDesc` gives the
   * one list Python's stable reverse sort can produce from `xs`.
   */
  lemma {:induction false} SortedDescUnique(xs: seq<Line>, ys: seq<Line>)
    requires SortedDesc(xs) && SortedDesc(ys) && multiset(xs) == multiset(ys)
    ensures xs == ys
  {
    if xs != [] {
      assert xs[0] in multiset(ys);
      SortedHeadsEqual(xs, ys);
      assert xs == [xs[0]] + xs[1..] && ys == [ys[0]] + ys[1..];
      assert multiset(xs) == multiset{xs[0]} + multiset(xs[1..]);
      assert multiset(ys) == multiset{ys[0]} + multiset(ys[1..]);
      assert multiset(xs[1..]) == multiset(xs) - multiset{xs[0]};
      assert multiset(ys[1..]) == multiset(ys) - multiset{ys[0]};
      SortedTail(xs);
      SortedTail(ys);
      SortedDescUnique(xs[1..], ys[1..]);
    } else {
      assert |ys| == |multiset(ys)| == 0;
    }
  }

  /** Two descending lists with the same elements start alike: each head is at least the other. */
  lemma SortedHeadsEqual(xs: seq<Line>, ys: seq<Line>)
    requires SortedDesc(xs) && SortedDesc(ys) && multiset(xs) == multiset(ys) && xs != [] && ys != []
    ensures xs[0] == ys[0]
  {
    assert xs[0] in multiset(ys) && ys[0] in multiset(xs);
    var k :| 0 <= k < |ys| && ys[k] == xs[0];
    var m :| 0 <= m < |xs| && xs[m] == ys[0];
    LessTotal(xs[0], ys[0]);
    LessIrreflexive(xs[0]);
    if m > 0 {
      assert !Less(xs[0], xs[m]);
    }
    if k > 0 {
      assert !Less(ys[0], ys[k]);
    }
  }

  lemma SortedTail(xs: seq<Line>)
    requires SortedDesc(xs) && xs != []
    ensures SortedDesc(xs[1..])
  {
    forall i, j | 0 <= i < j < |xs[1..]|
      ensures !Less(xs[1..][i], xs[1..][j])
    {
      assert xs[1..][i] == xs[i + 1] && xs[1..][j] == xs[j + 1];
    }
  }

  /** The lines `do_top` collects from `pairs`: one per pair whose best spread is positive. */
  function Candidates(quote: Quoter, pairs: seq<string>): seq<Line>
    requires Renderable(pairs)
  {
    if pairs == [] then []
    else
      var init := pairs[..|pairs| - 1];
      var pair := pairs[|pairs| - 1];
      var sp := BestOf(quote, pair);
      Candidates(quote, init) + (if sp.pct > 0.0 then [LineOf(pair, sp)] else [])
  }

  /** `lines[:5]`. */
  function TakeFive(xs: seq<Line>): (r: seq<Line>)
    ensures |r| <= 5
  {
    if |xs| <= 5 then xs else xs[..5]
  }

  /** The lines "Top Opportunities" lists. */
  function Top(quote: Quoter, pairs: seq<string>): (r: seq<Line>)
    requires Renderable(pairs)
    ensures |r| <= 5
  {
    TakeFive(SortDesc(Candidates(quote, pairs)))
  }

  /**
   * `do_top`'s loop, sort and cut: the best spread of each pair, the
   * positive ones as tuples, sorted descending, the first five kept.
   */
  method TopLines(quote: Quoter, pairs: seq<string>) returns (top: seq<Line>)
    requires Renderable(pairs)
    ensures top == Top(quote, pairs)
  {
    var lines := [];
    for k := 0 to |pairs|
      invariant lines == Candidates(quote, pairs[..k])
    {
      var pair := pairs[k];
      assert pairs[..k + 1][..k] == pairs[..k];
      var rows := FetchAll(quote, pair);
      var sp := BestSpread(rows);
      if sp.pct > 0.0 {
        lines := lines + [Line(sp.pct, pair, sp.buy, sp.sell, sp.buyPrice, sp.sellPrice)];
      }
    }
    assert pairs[..|pairs|] == pairs;
    lines := SortDesc(lines);
    top := if |lines| <= 5 then lines else lines[..5];
  }

  /** The ranking `do_top` shows: the watchlist's best five. */
  function WatchTop(quote: Quoter): seq<Line> {
    WatchlistRenderable();
    Top(quote, WATCHLIST)
  }

  /** `do_top`'s loop over `WATCHLIST`. */
  method WatchlistTop(quote: Quoter) returns (top: seq<Line>)
    ensures top == WatchTop(quote)
  {
    WatchlistRenderable();
    top := TopLines(quote, WATCHLIST);
  }

  /** A line is a candidate exactly when it is the positive best spread of one of the pairs. */
  lemma {:induction false} CandidatesMembers(quote: Quoter, pairs: seq<string>, l: Line)
    requires Renderable(pairs)
    ensures l in Candidates(quote, pairs) <==>
      exists k :: 0 <= k < |pairs| && Positive(quote, pairs[k]) && l == LineOf(pairs[k], BestOf(quote, pairs[k]))
  {
    if pairs != [] {
      var init := pairs[..|pairs| - 1];
      CandidatesMembers(quote, init, l);
      assert pairs == init + [pairs[|pairs| - 1]];
    }
  }

  /** The best spread of `pair` across the exchanges. */
  function BestOf(quote: Quoter, pair: string): Spread
    requires OneSlash(pair)
  {
    Best(Responding(quote, pair, EXCHS))
  }

  /** Whether `pair` has a positive spread somewhere. */
  predicate Positive(quote: Quoter, pair: string)
    requires OneSlash(pair)
  {
    BestOf(quote, pair).pct > 0.0
  }

  /** Every candidate is positive, and there are no more candidates than pairs. */
  lemma {:induction false} CandidatesPositive(quote: Quoter, pairs: seq<string>)
    requires Renderable(pairs)
    ensures forall k :: 0 <= k < |Candidates(quote, pairs)| ==> Candidates(quote, pairs)[k].pct > 0.0
    ensures |Candidates(quote, pairs)| <= |pairs|
  {
    if pairs != [] {
      CandidatesPositive(quote, pairs[..|pairs| - 1]);
    }
  }

  /** No two entries are equal, as in the watchlist. */
  predicate Distinct(pairs: seq<string>) {
    forall i, j :: 0 <= i < j < |pairs| ==> pairs[i] != pairs[j]
  }

  /** No two lines name the same pair. */
  predicate OnePerPair(lines: seq<Line>) {
    forall i, j :: 0 <= i < j < |lines| ==> lines[i].pair != lines[j].pair
  }

  /** No pair is listed twice in the watchlist. */
  lemma WatchlistDistinct()
    ensures Distinct(WATCHLIST)
  {
  }

  /** Each collected line names one of the pairs. */
  lemma {:induction false} CandidatesNamed(quote: Quoter, pairs: seq<string>)
    requires Renderable(pairs)
    ensures forall l :: l in Candidates(quote, pairs) ==> l.pair in pairs
  {
    if pairs != [] {
      var init, last := pairs[..|pairs| - 1], pairs[|pairs| - 1];
      CandidatesNamed(quote, init);
      assert pairs == init + [last];
    }
  }

  /** A list of distinct pairs (as the watchlist is) gives lines naming distinct pairs: one line per pair. */
  lemma {:induction false} CandidatesOnePerPair(quote: Quoter, pairs: seq<string>)
    requires Renderable(pairs)
    ensures Distinct(pairs) ==> OnePerPair(Candidates(quote, pairs))
  {
    if pairs != [] && Distinct(pairs) {
      var init, last := pairs[..|pairs| - 1], pairs[|pairs| - 1];
      var prev := Candidates(quote, init);
      CandidatesNamed(quote, init);
      var sp := BestOf(quote, last);
      assert Distinct(init) by {
        forall i, j | 0 <= i < j < |init|
          ensures init[i] != init[j]
        {
          assert init[i] == pairs[i] && init[j] == pairs[j];
        }
      }
      assert last !in init by {
        assert forall k :: 0 <= k < |init| ==> init[k] == pairs[k];
      }
      CandidatesOnePerPair(quote, init);
      if sp.pct > 0.0 {
        AppendOnePerPair(prev, LineOf(last, sp), init);
      }
    }
  }

  /** Appending a line for a pair not yet named keeps one line per pair. */
  lemma AppendOnePerPair(prev: seq<Line>, x: Line, names: seq<string>)
    requires OnePerPair(prev) && x.pair !in names
    requires forall l :: l in prev ==> l.pair in names
    ensures OnePerPair(prev + [x])
  {
    var c := prev + [x];
    forall i, j | 0 <= i < j < |c|
      ensures c[i].pair != c[j].pair
    {
      assert c[i] == prev[i] && prev[i] in prev;
    }
  }

  /** The first five of a descending list: descending, drawn from it, and beating everything cut. */
  lemma TakeFiveOfSorted(sorted: seq<Line>)
    requires SortedDesc(sorted)
    ensures var top := TakeFive(sorted);
      && SortedDesc(top)
      && |top| == (if |sorted| < 5 then |sorted| else 5)
      && multiset(top) <= multiset(sorted)
      && (forall x, y :: x in multiset(sorted) - multiset(top) && y in top ==> !Less(y, x))
  {
    var top := TakeFive(sorted);
    var k := |top|;
    assert top == sorted[..k];
    var rest := sorted[k..];
    assert sorted == top + rest;
    assert multiset(sorted) - multiset(top) == multiset(rest);
    PrefixBeatsRest(sorted, k);
  }

  /** In a descending list, nothing after position k beats anything before it. */
  lemma PrefixBeatsRest(sorted: seq<Line>, k: nat)
    requires SortedDesc(sorted) && k <= |sorted|
    ensures forall x, y :: x in multiset(sorted[k..]) && y in sorted[..k] ==> !Less(y, x)
  {
    forall x, y | x in multiset(sorted[k..]) && y in sorted[..k]
      ensures !Less(y, x)
    {
      var m :| 0 <= m < |sorted[k..]| && sorted[k..][m] == x;
      var n :| 0 <= n < k && sorted[..k][n] == y;
      assert sorted[n] == y && sorted[k + m] == x;
    }
  }

  /**
   * What "Top Opportunities" lists: positive spreads only, in descending
   * tuple order, five of them or all if fewer, drawn from the candidates,
   * and none left out that beats one listed.
   */
  lemma TopIsBestFive(quote: Quoter, pairs: seq<string>)
    requires Renderable(pairs)
    ensures var cands, top := Candidates(quote, pairs), Top(quote, pairs);
      && (forall k :: 0 <= k < |top| ==> top[k].pct > 0.0)
      && SortedDesc(top)
      && |top| == (if |cands| < 5 then |cands| else 5)
      && multiset(top) <= multiset(cands)
      && (forall x, y :: x in multiset(cands) - multiset(top) && y in top ==> !Less(y, x))
  {
    var cands := Candidates(quote, pairs);
    var top := Top(quote, pairs);
    CandidatesPositive(quote, pairs);
    SortDescSorted(cands);
    TakeFiveOfSorted(SortDesc(cands));
    forall k | 0 <= k < |top|
      ensures top[k].pct > 0.0
    {
      assert top[k] in multiset(cands);
    }
  }

  /** "No positive spreads right now" is shown exactly when no pair has a positive spread. */
  lemma TopEmptyIff(quote: Quoter, pairs: seq<string>)
    requires Renderable(pairs)
    ensures Top(quote, pairs) == [] <==> forall k :: 0 <= k < |pairs| ==> !Positive(quote, pairs[k])
  {
    var cands := Candidates(quote, pairs);
    if cands != [] {
      CandidatesMembers(quote, pairs, cands[0]);
      assert SortDesc(cands) != [] by {
        assert |multiset(SortDesc(cands))| == |cands|;
      }
    } else {
      forall k | 0 <= k < |pairs|
        ensures !Positive(quote, pairs[k])
      {
        CandidatesMembers(quote, pairs, LineOf(pairs[k], BestOf(quote, pairs[k])));
      }
    }
  }
}
