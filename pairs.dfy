/**
 * Pair utilities of the bot: turning user text into a `BASE/USDT` pair
 * (`to_usdt_pair`) and rendering a `BASE/QUOTE` pair in each exchange's
 * native symbol syntax (`norm_pair_for_exch`).
 */
module Pairs {
  import opened Text

  /** What `split("/")` can unpack into exactly two parts: a slash, and none after the first. */
  predicate OneSlash(pair: string) {
    '/' in pair && '/' !in pair[IndexOf(pair, '/') + 1..]
  }

  /** The upper-cased, stripped form of user text that `to_usdt_pair` works on. */
  function Canon(symbol: string): string {
    Upper(Strip(symbol))
  }

  /** The base of a pair that ends in "/USDT". */
  function BaseOf(p: string): string
    requires |p| >= 5
  {
    p[..|p| - 5]
  }

  /** `base + "/USDT"` is a well-formed USDT pair whose base is `base`. */
  lemma UsdtPairShape(base: string)
    requires '/' !in base
    ensures EndsWith(base + "/USDT", "/USDT") && BaseOf(base + "/USDT") == base
    ensures IndexOf(base + "/USDT", '/') == |base|
    ensures OneSlash(base + "/USDT")
  {
    UsdtPairSlash(base);
    UsdtPairIndex(base);
  }

  lemma UsdtPairSlash(base: string)
    requires '/' !in base
    ensures OneSlash(base + "/USDT")
  {
    assert (base + "/USDT")[|base|] == '/';
  }

  lemma UsdtPairIndex(base: string)
    requires '/' !in base
    ensures IndexOf(base + "/USDT", '/') == |base|
  {
    var p := base + "/USDT";
    assert p[..|base|] == base;
    IndexOfFirst(p, '/', |base|);
  }

  /** The shape promised for every accepted text, for the pair built from `base`. */
  lemma AcceptedShape(s: string, base: string)
    requires StartsWith(s, base) && '/' !in base
    ensures var r := base + "/USDT";
      && EndsWith(r, "/USDT") && OneSlash(r)
      && StartsWith(s, BaseOf(r)) && '/' !in BaseOf(r)
  {
    UsdtPairShape(base);
  }

  /** With a slash in `s`, the text before the first slash is a slash-free prefix. */
  lemma SlashSplit(s: string)
    requires '/' in s
    ensures var b := s[..IndexOf(s, '/')];
      '/' !in b && StartsWith(s, b + "/") && StartsWith(s, b)
  {
    var i := IndexOf(s, '/');
    assert s[..i + 1] == s[..i] + "/";
  }

  /**
   * `to_usdt_pair`: strip and upper-case the text, then decide on the result.
   * A button label gives ""; anything accepted is BASE/USDT with one slash,
   * BASE a prefix of the canonical text.
   */
  function ToUsdtPair(symbol: string, uiWords: set<string>): (r: string)
    ensures Canon(symbol) in uiWords ==> r == ""
    ensures r != "" ==>
      && EndsWith(r, "/USDT") && OneSlash(r)
      && StartsWith(Canon(symbol), BaseOf(r)) && '/' !in BaseOf(r)
  {
    UsdtPairOf(Canon(symbol), uiWords)
  }

  /**
   * The decision `to_usdt_pair` takes on canonical text `s`: "" when it is
   * rejected, otherwise a pair ending in "/USDT" whose base is a slash-free
   * prefix of `s`. The quote typed after a slash is dropped, and the base is
   * checked only when `s` has neither a slash nor a "USDT" ending.
   */
  function UsdtPairOf(s: string, uiWords: set<string>): (r: string)
    // a button label is never a pair
    ensures s in uiWords ==> r == ""
    // every accepted text gives BASE/USDT with BASE a slash-free prefix of the text
    ensures r != "" ==>
      && EndsWith(r, "/USDT") && OneSlash(r)
      && StartsWith(s, BaseOf(r)) && '/' !in BaseOf(r)
  {
    if s in uiWords then ""
    else if '/' in s then
      var base := s[..IndexOf(s, '/')];
      SlashSplit(s);
      AcceptedShape(s, base);
      base + "/USDT"
    else if EndsWith(s, "USDT") then
      var base := s[..|s| - 4];
      AcceptedShape(s, base);
      base + "/USDT"
    else if 2 <= |s| <= 12 && IsAlpha(s) then
      AcceptedShape(s, s);
      s + "/USDT"
    else ""
  }

  /** Text with a slash is always accepted; its base is everything before the first slash. */
  lemma UsdtPairWithSlash(s: string, uiWords: set<string>)
    requires s !in uiWords && '/' in s
    ensures var r := UsdtPairOf(s, uiWords);
      r != "" && StartsWith(s, BaseOf(r) + "/")
  {
    var base := s[..IndexOf(s, '/')];
    SlashSplit(s);
    UsdtPairShape(base);
  }

  /** Text ending in "USDT" (and without a slash) is always accepted; its base is the rest. */
  lemma UsdtPairWithUsdtEnding(s: string, uiWords: set<string>)
    requires s !in uiWords && '/' !in s && EndsWith(s, "USDT")
    ensures var r := UsdtPairOf(s, uiWords);
      r != "" && BaseOf(r) + "USDT" == s
  {
    var base := s[..|s| - 4];
    UsdtPairShape(base);
    assert base + "USDT" == s;
  }

  /** BASE followed by "USDT" becomes BASE/USDT. */
  lemma UsdtEndingSplit(base: string, uiWords: set<string>)
    requires '/' !in base && base + "USDT" !in uiWords
    ensures UsdtPairOf(base + "USDT", uiWords) == base + "/USDT"
  {
    var s := base + "USDT";
    assert s[|s| - 4..] == "USDT" && s[..|s| - 4] == base;
    assert '/' !in s;
  }

  /** Empty text is never a pair. */
  lemma EmptyRejected(uiWords: set<string>)
    ensures UsdtPairOf("", uiWords) == ""
  {
  }

  /** Any other text is accepted exactly when it is 2 to 12 letters, and is then the base itself. */
  lemma UsdtPairPlain(s: string, uiWords: set<string>)
    requires s !in uiWords && '/' !in s && !EndsWith(s, "USDT")
    ensures var r := UsdtPairOf(s, uiWords);
      && (r != "" <==> 2 <= |s| <= 12 && IsAlpha(s))
      && (r != "" ==> BaseOf(r) == s)
  {
    if 2 <= |s| <= 12 && IsAlpha(s) {
      UsdtPairShape(s);
    }
  }

  /** Canonical text is upper case and has no whitespace at its ends. */
  lemma CanonChars(symbol: string)
    ensures var s := Canon(symbol);
      && (forall k :: 0 <= k < |s| ==> UpperChar(s[k]) == s[k])
      && (s == [] || (!IsSpace(s[0]) && !IsSpace(s[|s| - 1])))
  {
    var t := Strip(symbol);
    var s := Canon(symbol);
    assert |s| == |t|;
    assert forall k :: 0 <= k < |s| ==> s[k] == UpperChar(t[k]);
  }

  /** Text that is upper case and has no whitespace at its ends is canonical already. */
  lemma CanonKeeps(x: string)
    requires forall k :: 0 <= k < |x| ==> UpperChar(x[k]) == x[k]
    requires x == [] || (!IsSpace(x[0]) && !IsSpace(x[|x| - 1]))
    ensures Canon(x) == x
  {
    StripKeeps(x);
  }

  /** An accepted pair is already upper case with no whitespace at its ends. */
  lemma AcceptedIsCanonical(symbol: string, uiWords: set<string>)
    requires ToUsdtPair(symbol, uiWords) != ""
    ensures Canon(ToUsdtPair(symbol, uiWords)) == ToUsdtPair(symbol, uiWords)
  {
    var r := ToUsdtPair(symbol, uiWords);
    var base := BaseOf(r);
    assert r == base + "/USDT";
    CanonPrefixPair(symbol, base);
  }

  /** BASE/USDT is canonical when BASE is a prefix of some canonical text. */
  lemma CanonPrefixPair(symbol: string, base: string)
    requires StartsWith(Canon(symbol), base)
    ensures Canon(base + "/USDT") == base + "/USDT"
  {
    CanonChars(symbol);
    PrefixPairCanonical(Canon(symbol), base);
  }

  /** BASE/USDT is canonical when BASE is a prefix of canonical text. */
  lemma PrefixPairCanonical(s: string, base: string)
    requires StartsWith(s, base)
    requires forall k :: 0 <= k < |s| ==> UpperChar(s[k]) == s[k]
    requires s == [] || !IsSpace(s[0])
    ensures Canon(base + "/USDT") == base + "/USDT"
  {
    var r := base + "/USDT";
    forall k | 0 <= k < |r|
      ensures UpperChar(r[k]) == r[k]
    {
      if k < |base| {
        assert r[k] == s[k];
      } else {
        assert r[k] == "/USDT"[k - |base|];
      }
    }
    if |base| > 0 {
      assert r[0] == s[0];
    }
    CanonKeeps(r);
  }

  /** Canonical text BASE/USDT that is no button label normalises to itself. */
  lemma UsdtPairFixed(x: string, base: string, uiWords: set<string>)
    requires x == base + "/USDT" && '/' !in base
    requires Canon(x) == x && x !in uiWords
    ensures ToUsdtPair(x, uiWords) == x
  {
    UsdtPairShape(base);
  }

  /**
   * An accepted pair is accepted again unchanged (as long as no button label
   * contains a slash): normalising twice is normalising once.
   */
  lemma ToUsdtPairIdempotent(symbol: string, uiWords: set<string>)
    requires forall w :: w in uiWords ==> '/' !in w
    requires ToUsdtPair(symbol, uiWords) != ""
    ensures ToUsdtPair(ToUsdtPair(symbol, uiWords), uiWords) == ToUsdtPair(symbol, uiWords)
  {
    var r := ToUsdtPair(symbol, uiWords);
    var base := BaseOf(r);
    assert r == base + "/USDT";
    AcceptedIsCanonical(symbol, uiWords);
    assert r !in uiWords by {
      assert r[|base|] == '/';
    }
    UsdtPairFixed(r, base, uiWords);
  }

  /** The exchanges that write a pair as BASE followed by QUOTE. */
  const CONCAT_KEYS: set<string> := {"binance", "mexc", "bitget", "bybit"}
  /** The exchanges that write a pair as BASE-QUOTE. */
  const DASH_KEYS: set<string> := {"okx", "kucoin"}

  /**
   * `norm_pair_for_exch`: the pair in the native syntax of exchange `exch`.
   * The source unpacks `pair.split("/")` into two names, which raises unless
   * the pair has exactly one slash; that is this function's precondition.
   */
  function NormPairForExch(pair: string, exch: string): (r: string)
    requires OneSlash(pair)
    // the concatenating keys drop the slash; every other key keeps the length
    ensures exch in CONCAT_KEYS || exch == "htx" ==> |r| + 1 == |pair|
    ensures exch !in CONCAT_KEYS && exch != "htx" ==> |r| == |pair|
  {
    var i := IndexOf(pair, '/');
    var base, quote := pair[..i], pair[i + 1..];
    if exch in CONCAT_KEYS then base + quote
    else if exch in DASH_KEYS then base + "-" + quote
    else if exch == "gate" then base + "_" + quote
    else if exch == "htx" then Lower(base + quote)
    else pair
  }

  /**
   * What `norm_pair_for_exch` does to the pair's characters, exchange by
   * exchange, in terms of the position of its slash.
   */
  lemma NormPairForExchShape(pair: string, exch: string)
    requires OneSlash(pair)
    ensures var r, i := NormPairForExch(pair, exch), IndexOf(pair, '/');
      // concatenated: the slash is dropped, all else kept in order
      && (exch in CONCAT_KEYS ==>
            |r| + 1 == |pair| && '/' !in r && r[..i] == pair[..i] && r[i..] == pair[i + 1..])
      // hyphenated and underscored: the slash is replaced in place
      && (exch in DASH_KEYS ==> r == pair[i := '-'])
      && (exch == "gate" ==> r == pair[i := '_'])
      // htx: the concatenated form in lower case
      && (exch == "htx" ==> |r| + 1 == |pair| && r[..i] == Lower(pair[..i]) && r[i..] == Lower(pair[i + 1..]))
      // any other key: unchanged
      && (exch !in CONCAT_KEYS && exch !in DASH_KEYS && exch != "gate" && exch != "htx" ==> r == pair)
  {
    var i := IndexOf(pair, '/');
    if exch in CONCAT_KEYS {
      Joined(pair, i);
    } else if exch in DASH_KEYS {
      Replaced(pair, i, '-');
    } else if exch == "gate" {
      Replaced(pair, i, '_');
    } else if exch == "htx" {
      HtxShape(pair);
    }
  }

  /** On htx the pair is concatenated and lower-cased. */
  lemma HtxShape(pair: string)
    requires OneSlash(pair)
    ensures var r, i := NormPairForExch(pair, "htx"), IndexOf(pair, '/');
      |r| + 1 == |pair| && r[..i] == Lower(pair[..i]) && r[i..] == Lower(pair[i + 1..])
  {
    var i := IndexOf(pair, '/');
    assert "htx" !in CONCAT_KEYS && "htx" !in DASH_KEYS;
    Joined(pair, i);
    LowerJoined(pair[..i], pair[i + 1..]);
  }

  /** Dropping the only slash, at `i`, keeps everything else in order. */
  lemma Joined(pair: string, i: nat)
    requires OneSlash(pair) && i < |pair| && pair[i] == '/'
    ensures var r := pair[..i] + pair[i + 1..];
      |r| + 1 == |pair| && '/' !in r && r[..i] == pair[..i] && r[i..] == pair[i + 1..]
  {
    var r := pair[..i] + pair[i + 1..];
    assert r[..i] == pair[..i] && r[i..] == pair[i + 1..];
  }

  /** Writing `c` around the split at `i` is replacing the character at `i`. */
  lemma Replaced(pair: string, i: nat, c: char)
    requires i < |pair|
    ensures pair[..i] + [c] + pair[i + 1..] == pair[i := c]
  {
  }

  /** Lower-casing a concatenation lower-cases each part. */
  lemma LowerJoined(a: string, b: string)
    ensures |Lower(a + b)| == |a| + |b|
    ensures Lower(a + b)[..|a|] == Lower(a) && Lower(a + b)[|a|..] == Lower(b)
  {
  }

  /**
   * The renderings of a pair accepted by `to_usdt_pair`, in terms of its base:
   * the normaliser's output is always something every exchange can render.
   */
  lemma UsdtPairRenderings(symbol: string, uiWords: set<string>)
    requires ToUsdtPair(symbol, uiWords) != ""
    ensures var p := ToUsdtPair(symbol, uiWords);
      && OneSlash(p)
      && NormPairForExch(p, "binance") == BaseOf(p) + "USDT"
      && NormPairForExch(p, "okx") == BaseOf(p) + "-USDT"
      && NormPairForExch(p, "gate") == BaseOf(p) + "_USDT"
      && NormPairForExch(p, "htx") == Lower(BaseOf(p)) + "usdt"
  {
    AcceptedRenderings(ToUsdtPair(symbol, uiWords));
  }

  /** The renderings of a pair ending in "/USDT" with a slash-free base. */
  lemma AcceptedRenderings(p: string)
    requires EndsWith(p, "/USDT") && '/' !in BaseOf(p)
    ensures
      && OneSlash(p)
      && NormPairForExch(p, "binance") == BaseOf(p) + "USDT"
      && NormPairForExch(p, "okx") == BaseOf(p) + "-USDT"
      && NormPairForExch(p, "gate") == BaseOf(p) + "_USDT"
      && NormPairForExch(p, "htx") == Lower(BaseOf(p)) + "usdt"
  {
    var base := BaseOf(p);
    assert p == base + "/USDT";
    RenderingsOf(base);
  }

  /** The renderings of BASE/USDT. */
  lemma RenderingsOf(base: string)
    requires '/' !in base
    ensures var p := base + "/USDT";
      && OneSlash(p)
      && NormPairForExch(p, "binance") == base + "USDT"
      && NormPairForExch(p, "okx") == base + "-USDT"
      && NormPairForExch(p, "gate") == base + "_USDT"
      && NormPairForExch(p, "htx") == Lower(base) + "usdt"
  {
    UsdtPairShape(base);
    ConcatRendering(base);
    DashRendering(base);
    UnderscoreRendering(base);
    LowerRendering(base);
  }

  lemma ConcatRendering(base: string)
    requires '/' !in base
    ensures NormPairForExch(base + "/USDT", "binance") == base + "USDT"
  {
    var p := base + "/USDT";
    UsdtPairShape(base);
    assert p[..|base|] == base && p[|base| + 1..] == "USDT";
  }

  lemma DashRendering(base: string)
    requires '/' !in base
    ensures NormPairForExch(base + "/USDT", "okx") == base + "-USDT"
  {
    var p := base + "/USDT";
    UsdtPairShape(base);
    assert p[..|base|] == base && p[|base| + 1..] == "USDT";
  }

  lemma UnderscoreRendering(base: string)
    requires '/' !in base
    ensures NormPairForExch(base + "/USDT", "gate") == base + "_USDT"
  {
    var p := base + "/USDT";
    UsdtPairShape(base);
    assert p[..|base|] == base && p[|base| + 1..] == "USDT";
  }

  lemma LowerRendering(base: string)
    requires '/' !in base
    ensures NormPairForExch(base + "/USDT", "htx") == Lower(base) + "usdt"
  {
    var p := base + "/USDT";
    UsdtPairShape(base);
    assert p[..|base|] == base && p[|base| + 1..] == "USDT";
    assert Lower(base + "USDT") == Lower(base) + "usdt";
  }

  /** BTC/USDT in the concatenated style. */
  lemma NormPairExample()
    ensures OneSlash("BTC/USDT") && NormPairForExch("BTC/USDT", "binance") == "BTCUSDT"
  {
    UsdtPairShape("BTC");
    ConcatRendering("BTC");
    assert "BTC" + "/USDT" == "BTC/USDT";
    assert "BTC" + "USDT" == "BTCUSDT";
  }

  /** Lower-case letters typed alone become BASE/USDT. */
  lemma ToUsdtPairExampleWord(uiWords: set<string>)
    requires "BTC" !in uiWords
    ensures ToUsdtPair("btc", uiWords) == "BTC/USDT"
  {
    BtcCanonical();
    BtcSplit(uiWords);
  }

  lemma BtcSplit(uiWords: set<string>)
    requires "BTC" !in uiWords
    ensures UsdtPairOf("BTC", uiWords) == "BTC/USDT"
  {
    assert IsAlpha("BTC") && !EndsWith("BTC", "USDT");
    WordSplit("BTC", uiWords);
  }

  lemma BtcCanonical()
    ensures Canon("btc") == "BTC"
  {
    StripKeeps("btc");
    assert Upper("btc") == "BTC";
  }

  /** A word of 2 to 12 letters becomes WORD/USDT. */
  lemma WordSplit(s: string, uiWords: set<string>)
    requires 2 <= |s| <= 12 && IsAlpha(s) && !EndsWith(s, "USDT") && s !in uiWords
    ensures UsdtPairOf(s, uiWords) == s + "/USDT"
  {
  }

  /** A symbol ending in USDT is split before the USDT. */
  lemma ToUsdtPairExampleUsdtEnding(uiWords: set<string>)
    requires "ETHUSDT" !in uiWords
    ensures ToUsdtPair("ETHUSDT", uiWords) == "ETH/USDT"
  {
    EthUsdtCanonical();
    EthUsdtSplit(uiWords);
  }

  lemma EthUsdtSplit(uiWords: set<string>)
    requires "ETHUSDT" !in uiWords
    ensures UsdtPairOf("ETHUSDT", uiWords) == "ETH/USDT"
  {
    assert "ETH" + "USDT" == "ETHUSDT";
    UsdtEndingSplit("ETH", uiWords);
    assert "ETH" + "/USDT" == "ETH/USDT";
  }

  lemma EthUsdtCanonical()
    ensures Canon("ETHUSDT") == "ETHUSDT"
  {
    CanonKeeps("ETHUSDT");
  }

  /** Digits are not a symbol, even with the whitespace stripped. */
  lemma ToUsdtPairExampleDigits(uiWords: set<string>)
    requires "12345" !in uiWords
    ensures ToUsdtPair(" 12345 ", uiWords) == ""
  {
    DigitsCanonical();
    DigitsRejected(uiWords);
  }

  lemma DigitsRejected(uiWords: set<string>)
    requires "12345" !in uiWords
    ensures UsdtPairOf("12345", uiWords) == ""
  {
    assert !IsAlpha("12345") by {
      assert !IsAsciiLetter("12345"[0]);
    }
    UsdtPairPlain("12345", uiWords);
  }

  lemma DigitsCanonical()
    ensures Canon(" 12345 ") == "12345"
  {
    assert TrimLeft(" 12345 ") == "12345 " by {
      assert " 12345 "[1..] == "12345 ";
    }
    assert TrimRight("12345 ") == "12345" by {
      assert "12345 "[..5] == "12345";
    }
    assert Upper("12345") == "12345";
  }

  /** The quote typed after the slash is dropped. */
  lemma ToUsdtPairExampleSlash(uiWords: set<string>)
    requires "XRP/USD" !in uiWords
    ensures ToUsdtPair("xrp/usd", uiWords) == "XRP/USDT"
  {
    XrpCanonical();
    XrpSplit(uiWords);
  }

  lemma XrpSplit(uiWords: set<string>)
    requires "XRP/USD" !in uiWords
    ensures UsdtPairOf("XRP/USD", uiWords) == "XRP/USDT"
  {
    assert "XRP/USD"[..3] == "XRP";
    IndexOfFirst("XRP/USD", '/', 3);
    assert "XRP" + "/USDT" == "XRP/USDT";
  }

  lemma XrpCanonical()
    ensures Canon("xrp/usd") == "XRP/USD"
  {
    StripKeeps("xrp/usd");
    assert Upper("xrp/usd") == "XRP/USD";
  }

  /** Text with nothing before the slash gives an empty base. */
  lemma ToUsdtPairExampleBareSlash(uiWords: set<string>)
    requires "/" !in uiWords
    ensures ToUsdtPair("/", uiWords) == "/USDT"
  {
    CanonKeeps("/");
    BareSlashSplit(uiWords);
  }

  lemma BareSlashSplit(uiWords: set<string>)
    requires "/" !in uiWords
    ensures UsdtPairOf("/", uiWords) == "/USDT"
  {
    assert IndexOf("/", '/') == 0;
    assert "/"[..0] + "/USDT" == "/USDT";
  }

  /** "USDT" alone also gives an empty base. */
  lemma ToUsdtPairExampleBareUsdt(uiWords: set<string>)
    requires "USDT" !in uiWords
    ensures ToUsdtPair("USDT", uiWords) == "/USDT"
  {
    CanonKeeps("USDT");
    BareUsdtSplit(uiWords);
  }

  lemma BareUsdtSplit(uiWords: set<string>)
    requires "USDT" !in uiWords
    ensures UsdtPairOf("USDT", uiWords) == "/USDT"
  {
    assert "" + "USDT" == "USDT";
    UsdtEndingSplit("", uiWords);
  }
}
