/**
 * The spread calculator (`best_spread`): over every ordered pair of rows
 * (b, s), self-pairs included, the percentage gained by buying at s's ask
 * and selling at b's bid; the first strictly greatest positive one wins,
 * and `(0, "", "", 0, 0)` stands for "no positive spread".
 */
module Spread {
  import opened Quotes

  /** `(pct, buy exchange, sell exchange, buy price, sell price)`. */
  datatype Spread = Spread(pct: real, buy: string, sell: string, buyPrice: real, sellPrice: real)

  /** The running best's starting value and the answer when nothing is positive. */
  const NONE: Spread := Spread(0.0, "", "", 0.0, 0.0)

  /** Percentage gained selling at `b`'s bid what was bought at `s`'s ask. */
  function Pct(b: Row, s: Row): real
    requires s.ask > 0.0
  {
    (b.bid - s.ask) / s.ask * 100.0
  }

  /** The opportunity of the ordered pair (b, s): buy on s, sell on b. */
  function Cross(b: Row, s: Row): Spread
    requires s.ask > 0.0
  {
    Spread(Pct(b, s), s.name, b.name, s.ask, b.bid)
  }

  /** One comparison of the inner loop: a strictly better pair replaces the best. */
  function Step(best: Spread, b: Row, s: Row): Spread
    requires s.ask > 0.0
  {
    if Pct(b, s) > best.pct then Cross(b, s) else best
  }

  /** The best after the inner loop for `b` has visited `rows[..j]`. */
  function Inner(best: Spread, b: Row, rows: seq<Row>, j: nat): Spread
    requires Priced(rows) && j <= |rows|
  {
    if j == 0 then best else Step(Inner(best, b, rows, j - 1), b, rows[j - 1])
  }

  /** The best after the outer loop has visited `rows[..i]`. */
  function Outer(rows: seq<Row>, i: nat): Spread
    requires Priced(rows) && i <= |rows|
  {
    if i == 0 then NONE else Inner(Outer(rows, i - 1), rows[i - 1], rows, |rows|)
  }

  /** What `best_spread` returns. */
  function Best(rows: seq<Row>): Spread
    requires Priced(rows)
  {
    Outer(rows, |rows|)
  }

  /** `best_spread`: the nested loop over (outer b, inner s). */
  method BestSpread(rows: seq<Row>) returns (best: Spread)
    requires Priced(rows)
    ensures best == Best(rows)
  {
    if rows == [] {
      return NONE;
    }
    best := NONE;
    for i := 0 to |rows|
      invariant best == Outer(rows, i)
    {
      var b := rows[i];
      for j := 0 to |rows|
        invariant best == Inner(Outer(rows, i), b, rows, j)
      {
        var s := rows[j];
        var pct := (b.bid - s.ask) / s.ask * 100.0;
        if pct > best.pct {
          best := Spread(pct, s.name, b.name, s.ask, b.bid);
        }
      }
    }
  }

  /** (i, j) comes before (I, J) in the loops' visiting order. */
  predicate Before(i: int, j: int, I: int, J: int) {
    i < I || (i == I && j < J)
  }

  /**
   * What the loops keep true once they have visited exactly the ordered
   * pairs before (I, J): `best` is NONE or the first visited pair with the
   * greatest percentage, which is positive, and no visited pair beats it.
   */
  predicate Inv(rows: seq<Row>, best: Spread, I: int, J: int)
    requires Priced(rows)
  {
    && best.pct >= 0.0
    && Bounded(rows, best, I, J)
    && (best.pct == 0.0 ==> best == NONE)
    && (best.pct > 0.0 ==> Attained(rows, best, I, J))
  }

  /** No pair visited before (I, J) beats `best`. */
  predicate Bounded(rows: seq<Row>, best: Spread, I: int, J: int)
    requires Priced(rows)
  {
    forall i, j :: 0 <= i < |rows| && 0 <= j < |rows| && Before(i, j, I, J) ==> Pct(rows[i], rows[j]) <= best.pct
  }

  /** Some pair visited before (I, J) is the first to reach `best`. */
  predicate Attained(rows: seq<Row>, best: Spread, I: int, J: int)
    requires Priced(rows)
  {
    exists i, j :: 0 <= i < |rows| && 0 <= j < |rows| && Before(i, j, I, J) && FirstMax(rows, best, i, j)
  }

  /** (i, j) gives `best`, and every pair before it is strictly worse. */
  predicate FirstMax(rows: seq<Row>, best: Spread, i: nat, j: nat)
    requires Priced(rows) && i < |rows| && j < |rows|
  {
    && best == Cross(rows[i], rows[j])
    && (forall i', j' :: 0 <= i' < |rows| && 0 <= j' < |rows| && Before(i', j', i, j) ==> Pct(rows[i'], rows[j']) < best.pct)
  }

  /** Visiting the pair (I, J) keeps the invariant, now up to the next pair. */
  lemma StepKeepsInv(rows: seq<Row>, best: Spread, I: nat, J: nat)
    requires Priced(rows) && I < |rows| && J < |rows|
    requires Inv(rows, best, I, J)
    ensures Inv(rows, Step(best, rows[I], rows[J]), I, J + 1)
  {
    if Pct(rows[I], rows[J]) > best.pct {
      StepImproves(rows, best, I, J);
    } else {
      StepKeeps(rows, best, I, J);
    }
  }

  /** A strictly better pair becomes the first maximum. */
  lemma StepImproves(rows: seq<Row>, best: Spread, I: nat, J: nat)
    requires Priced(rows) && I < |rows| && J < |rows|
    requires Inv(rows, best, I, J) && Pct(rows[I], rows[J]) > best.pct
    ensures Inv(rows, Cross(rows[I], rows[J]), I, J + 1)
  {
    assert FirstMax(rows, Cross(rows[I], rows[J]), I, J);
  }

  /** A pair that is not better leaves the best and its witness in place. */
  lemma StepKeeps(rows: seq<Row>, best: Spread, I: nat, J: nat)
    requires Priced(rows) && I < |rows| && J < |rows|
    requires Inv(rows, best, I, J) && Pct(rows[I], rows[J]) <= best.pct
    ensures Inv(rows, best, I, J + 1)
  {
    BoundedStep(rows, best, I, J);
    if best.pct > 0.0 {
      AttainedStep(rows, best, I, J);
    }
  }

  lemma BoundedStep(rows: seq<Row>, best: Spread, I: nat, J: nat)
    requires Priced(rows) && I < |rows| && J < |rows|
    requires Bounded(rows, best, I, J) && Pct(rows[I], rows[J]) <= best.pct
    ensures Bounded(rows, best, I, J + 1)
  {
  }

  lemma AttainedStep(rows: seq<Row>, best: Spread, I: nat, J: nat)
    requires Priced(rows) && I < |rows| && J < |rows|
    requires Attained(rows, best, I, J)
    ensures Attained(rows, best, I, J + 1)
  {
    var i, j :| 0 <= i < |rows| && 0 <= j < |rows| && Before(i, j, I, J) && FirstMax(rows, best, i, j);
    assert Before(i, j, I, J + 1);
  }

  /** The inner loop keeps the invariant. */
  lemma {:induction false} InnerKeepsInv(rows: seq<Row>, best: Spread, I: nat, J: nat)
    requires Priced(rows) && I < |rows| && J <= |rows|
    requires Inv(rows, best, I, 0)
    ensures Inv(rows, Inner(best, rows[I], rows, J), I, J)
  {
    if J > 0 {
      var prev := Inner(best, rows[I], rows, J - 1);
      InnerKeepsInv(rows, best, I, J - 1);
      StepKeepsInv(rows, prev, I, J - 1);
      assert Inner(best, rows[I], rows, J) == Step(prev, rows[I], rows[J - 1]);
    }
  }

  /** The same pairs are visited "before (I, |rows|)" and "before (I + 1, 0)". */
  lemma InvNextRow(rows: seq<Row>, best: Spread, I: nat)
    requires Priced(rows) && I < |rows|
    requires Inv(rows, best, I, |rows|)
    ensures Inv(rows, best, I + 1, 0)
  {
    if best.pct > 0.0 {
      var i, j :| 0 <= i < |rows| && 0 <= j < |rows| && Before(i, j, I, |rows|) && FirstMax(rows, best, i, j);
      assert Before(i, j, I + 1, 0);
    }
    assert Bounded(rows, best, I + 1, 0) by {
      forall i, j | 0 <= i < |rows| && 0 <= j < |rows| && Before(i, j, I + 1, 0)
        ensures Pct(rows[i], rows[j]) <= best.pct
      {
        assert Before(i, j, I, |rows|);
      }
    }
  }

  /** The outer loop keeps the invariant. */
  lemma {:induction false} OuterKeepsInv(rows: seq<Row>, I: nat)
    requires Priced(rows) && I <= |rows|
    ensures Inv(rows, Outer(rows, I), I, 0)
  {
    if I > 0 {
      var prev := Outer(rows, I - 1);
      OuterKeepsInv(rows, I - 1);
      InnerKeepsInv(rows, prev, I - 1, |rows|);
      assert Outer(rows, I) == Inner(prev, rows[I - 1], rows, |rows|);
      InvNextRow(rows, Outer(rows, I), I - 1);
    }
  }

  /**
   * `best_spread` characterised: its pct is never negative and is the
   * largest percentage over all ordered pairs; when that is not positive the
   * answer is `(0, "", "", 0, 0)`, and otherwise it is the opportunity of the
   * first pair in (outer b, inner s) order reaching the maximum.
   */
  lemma BestIsFirstMax(rows: seq<Row>)
    requires Priced(rows)
    ensures Best(rows).pct >= 0.0
    ensures forall i, j :: 0 <= i < |rows| && 0 <= j < |rows| ==> Pct(rows[i], rows[j]) <= Best(rows).pct
    ensures Best(rows).pct == 0.0 ==> Best(rows) == NONE
    ensures Best(rows).pct > 0.0 ==>
      exists i, j :: 0 <= i < |rows| && 0 <= j < |rows| && FirstMax(rows, Best(rows), i, j)
  {
    OuterKeepsInv(rows, |rows|);
  }

  /** No rows, no spread. */
  lemma BestOfNothing()
    ensures Best([]) == NONE
  {
  }

  /**
   * The answer is NONE exactly when no ordered pair has a positive
   * percentage; otherwise it is positive and reached by some pair.
   */
  lemma BestNoneIff(rows: seq<Row>)
    requires Priced(rows)
    ensures Best(rows) == NONE <==>
      forall i, j :: 0 <= i < |rows| && 0 <= j < |rows| ==> Pct(rows[i], rows[j]) <= 0.0
  {
    BestIsFirstMax(rows);
    if Best(rows) != NONE {
      var i, j :| 0 <= i < |rows| && 0 <= j < |rows| && FirstMax(rows, Best(rows), i, j);
      assert Pct(rows[i], rows[j]) > 0.0;
    }
  }

  /** Rows A (bid 100, ask 101) and B (bid 105, ask 106): buy on A at 101, sell on B at 105, 400/101 %. */
  lemma BestExample()
    ensures var a, b := Row("A", 100.0, 101.0), Row("B", 105.0, 106.0);
      Best([a, b]) == Spread(400.0 / 101.0, "A", "B", 101.0, 105.0)
  {
    var a, b := Row("A", 100.0, 101.0), Row("B", 105.0, 106.0);
    var rows := [a, b];
    assert Pct(a, a) < 0.0 && Pct(a, b) < 0.0;
    assert Pct(b, a) == 400.0 / 101.0;
    assert Pct(b, b) < 0.0;
    assert Inner(NONE, a, rows, 1) == NONE;
    assert Inner(NONE, a, rows, 2) == NONE;
    assert Outer(rows, 1) == NONE;
    assert Inner(NONE, b, rows, 1) == Cross(b, a);
    assert Inner(NONE, b, rows, 2) == Cross(b, a);
  }
}
