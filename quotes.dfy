/**
 * Quote aggregation (`fetch_all`): the fixed list of exchanges and the
 * filter that keeps, in list order, every exchange whose adapter answered
 * with a positive bid and a positive ask.
 *
 * The adapters themselves (HTTP requests and JSON parsing) are outside the
 * model: a `Quoter` stands for them, mapping an exchange key and the pair in
 * that exchange's native syntax to the adapter's outcome, where `None` is an
 * exception or a missing price.
 */
module Quotes {
  import opened Wrappers
  import opened Pairs

  /** An entry of `EXCHS`: its label (`name`, shown to the user) and the key selecting the adapter. */
  datatype Exchange = Exchange(name: string, key: string)

  /** `EXCHS`, in the order the exchanges are queried. */
  const EXCHS: seq<Exchange> := [
    Exchange("🟡 binance", "binance"),
    Exchange("🔵 bitget", "bitget"),
    Exchange("🟢 mexc", "mexc"),
    Exchange("🔴 htx", "htx"),
    Exchange("🟠 kucoin", "kucoin"),
    Exchange("🟤 bybit", "bybit"),
    Exchange("⚫ okx", "okx"),
    Exchange("🔷 gate", "gate")
  ]

  /** One row of `fetch_all`'s result: `(label, bid, ask)`, the label kept as `name`. */
  datatype Row = Row(name: string, bid: real, ask: real)

  /** The adapters: exchange key and native symbol to the best bid and ask, if any. */
  type Quoter = (string, string) -> Option<(real, real)>

  /** What the adapter of `e` answers for `pair`, asked in `e`'s own symbol syntax. */
  function Ask(quote: Quoter, pair: string, e: Exchange): Option<(real, real)>
    requires OneSlash(pair)
  {
    quote(e.key, NormPairForExch(pair, e.key))
  }

  /** Whether the adapter of `e` yields a usable quote: both prices present and positive. */
  predicate Responds(quote: Quoter, pair: string, e: Exchange)
    requires OneSlash(pair)
  {
    Ask(quote, pair, e).Some? && Ask(quote, pair, e).value.0 > 0.0 && Ask(quote, pair, e).value.1 > 0.0
  }

  /** The row `e` contributes when it responds. */
  function RowOf(quote: Quoter, pair: string, e: Exchange): Row
    requires OneSlash(pair) && Responds(quote, pair, e)
  {
    Row(e.name, Ask(quote, pair, e).value.0, Ask(quote, pair, e).value.1)
  }

  /** The rows `fetch_all` collects from the exchanges `xs`, in order. */
  function Responding(quote: Quoter, pair: string, xs: seq<Exchange>): (rows: seq<Row>)
    requires OneSlash(pair)
    ensures |rows| <= |xs| && Priced(rows)
  {
    if xs == [] then []
    else
      var rest := Responding(quote, pair, xs[..|xs| - 1]);
      var e := xs[|xs| - 1];
      if Responds(quote, pair, e) then rest + [RowOf(quote, pair, e)] else rest
  }

  /** Rows whose prices are positive, as every row of `fetch_all` is. */
  predicate Priced(rows: seq<Row>) {
    forall k :: 0 <= k < |rows| ==> rows[k].bid > 0.0 && rows[k].ask > 0.0
  }

  /**
   * `fetch_all`: asks every exchange in turn and keeps the rows with a
   * positive bid and ask. A failing adapter is skipped, never fatal.
   */
  method FetchAll(quote: Quoter, pair: string) returns (rows: seq<Row>)
    requires OneSlash(pair)
    ensures rows == Responding(quote, pair, EXCHS)
    ensures Priced(rows) && |rows| <= |EXCHS|
  {
    rows := FetchFrom(quote, pair, EXCHS);
  }

  /** The loop of `fetch_all`, over any list of exchanges. */
  method FetchFrom(quote: Quoter, pair: string, xs: seq<Exchange>) returns (rows: seq<Row>)
    requires OneSlash(pair)
    ensures rows == Responding(quote, pair, xs)
  {
    rows := [];
    for n := 0 to |xs|
      invariant rows == Responding(quote, pair, xs[..n])
    {
      var e := xs[n];
      assert xs[..n + 1][..n] == xs[..n];
      var answer := Ask(quote, pair, e);
      if answer.Some? {
        var (bid, ask) := answer.value;
        if bid > 0.0 && ask > 0.0 {
          rows := rows + [Row(e.name, bid, ask)];
        }
      }
    }
    assert xs[..|xs|] == xs;
  }

  /** Strictly increasing indices. */
  predicate Increasing(ix: seq<nat>) {
    forall a, b :: 0 <= a < b < |ix| ==> ix[a] < ix[b]
  }

  /** The positions in `xs` of the exchanges that respond, in order. */
  ghost function Origins(quote: Quoter, pair: string, xs: seq<Exchange>): seq<nat>
    requires OneSlash(pair)
  {
    if xs == [] then []
    else
      var rest := Origins(quote, pair, xs[..|xs| - 1]);
      if Responds(quote, pair, xs[|xs| - 1]) then rest + [|xs| - 1] else rest
  }

  /**
   * The filter exactly: row k of the result comes from the responding
   * exchange at position `Origins[k]`, the positions increase (list order is
   * kept), and every responding exchange has its position among them.
   */
  lemma RespondingOrigins(quote: Quoter, pair: string, xs: seq<Exchange>)
    requires OneSlash(pair)
    ensures var rows, ix := Responding(quote, pair, xs), Origins(quote, pair, xs);
      && |rows| == |ix| <= |xs|
      && Increasing(ix)
      && (forall k :: 0 <= k < |ix| ==>
            ix[k] < |xs| && Responds(quote, pair, xs[ix[k]]) && rows[k] == RowOf(quote, pair, xs[ix[k]]))
      && (forall n :: 0 <= n < |xs| && Responds(quote, pair, xs[n]) ==> n in ix)
      && Priced(rows)
  {
    OriginsShape(quote, pair, xs);
    OriginsComplete(quote, pair, xs);
    var rows, ix := Responding(quote, pair, xs), Origins(quote, pair, xs);
    forall k | 0 <= k < |ix|
      ensures ix[k] < |xs| && Responds(quote, pair, xs[ix[k]]) && rows[k] == RowOf(quote, pair, xs[ix[k]])
    {
      OriginRowAt(quote, pair, xs, k);
    }
  }

  /** One position per row, increasing and within `xs`. */
  lemma {:induction false} OriginsShape(quote: Quoter, pair: string, xs: seq<Exchange>)
    requires OneSlash(pair)
    ensures var rows, ix := Responding(quote, pair, xs), Origins(quote, pair, xs);
      && |rows| == |ix| <= |xs|
      && Increasing(ix)
      && (forall k :: 0 <= k < |ix| ==> ix[k] < |xs|)
  {
    if xs != [] {
      OriginsShape(quote, pair, xs[..|xs| - 1]);
    }
  }

  /** Row k of the result is the one the exchange at position k of the origins responded with. */
  ghost predicate RowFrom(quote: Quoter, pair: string, xs: seq<Exchange>, k: nat)
    requires OneSlash(pair)
  {
    var rows, ix := Responding(quote, pair, xs), Origins(quote, pair, xs);
    k < |rows| && k < |ix| && ix[k] < |xs| && Responds(quote, pair, xs[ix[k]]) && rows[k] == RowOf(quote, pair, xs[ix[k]])
  }

  /** Row k, for one k, is the one the exchange at position k of the origins responded with. */
  lemma {:induction false} OriginRowAt(quote: Quoter, pair: string, xs: seq<Exchange>, k: nat)
    requires OneSlash(pair) && k < |Origins(quote, pair, xs)|
    ensures RowFrom(quote, pair, xs, k)
  {
    OriginsShape(quote, pair, xs);
    var init := xs[..|xs| - 1];
    OriginsShape(quote, pair, init);
    if k < |Origins(quote, pair, init)| {
      OriginRowAt(quote, pair, init, k);
      assert xs[Origins(quote, pair, init)[k]] == init[Origins(quote, pair, init)[k]];
    }
  }

  /** Every responding exchange's position is among the origins. */
  lemma OriginsComplete(quote: Quoter, pair: string, xs: seq<Exchange>)
    requires OneSlash(pair)
    ensures forall n :: 0 <= n < |xs| && Responds(quote, pair, xs[n]) ==> n in Origins(quote, pair, xs)
  {
    forall n | 0 <= n < |xs| && Responds(quote, pair, xs[n])
      ensures n in Origins(quote, pair, xs)
    {
      OriginAt(quote, pair, xs, n);
    }
  }

  /** The position of one responding exchange is among the origins. */
  lemma {:induction false} OriginAt(quote: Quoter, pair: string, xs: seq<Exchange>, n: nat)
    requires OneSlash(pair) && n < |xs| && Responds(quote, pair, xs[n])
    ensures n in Origins(quote, pair, xs)
  {
    var init := xs[..|xs| - 1];
    if n < |init| {
      assert xs[n] == init[n];
      OriginAt(quote, pair, init, n);
    }
  }

  /** A row is in the result exactly when some exchange of `xs` responded with it. */
  lemma RespondingMembers(quote: Quoter, pair: string, xs: seq<Exchange>, r: Row)
    requires OneSlash(pair)
    ensures r in Responding(quote, pair, xs) <==>
      exists n :: 0 <= n < |xs| && Responds(quote, pair, xs[n]) && r == RowOf(quote, pair, xs[n])
  {
    RespondingOrigins(quote, pair, xs);
    var rows, ix := Responding(quote, pair, xs), Origins(quote, pair, xs);
    if r in rows {
      var k :| 0 <= k < |rows| && rows[k] == r;
      assert Responds(quote, pair, xs[ix[k]]);
    }
    if exists n :: 0 <= n < |xs| && Responds(quote, pair, xs[n]) && r == RowOf(quote, pair, xs[n]) {
      var n :| 0 <= n < |xs| && Responds(quote, pair, xs[n]) && r == RowOf(quote, pair, xs[n]);
      assert n in ix;
      var k :| 0 <= k < |ix| && ix[k] == n;
      assert rows[k] == r;
    }
  }

  /** When no adapter answers, `fetch_all` is empty; when all answer, it has one row per exchange. */
  lemma {:induction false} RespondingExtremes(quote: Quoter, pair: string, xs: seq<Exchange>)
    requires OneSlash(pair)
    ensures (forall n :: 0 <= n < |xs| ==> !Responds(quote, pair, xs[n])) ==> Responding(quote, pair, xs) == []
    ensures (forall n :: 0 <= n < |xs| ==> Responds(quote, pair, xs[n])) ==> |Responding(quote, pair, xs)| == |xs|
  {
    if xs != [] {
      var init := xs[..|xs| - 1];
      RespondingExtremes(quote, pair, init);
      assert forall n :: 0 <= n < |init| ==> xs[n] == init[n];
    }
  }
}
