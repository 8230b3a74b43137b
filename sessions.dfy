/**
 * Per-chat sessions and what one inbound text does to a session
 * (`handle_text` with `do_change_pair`, `toggle_auto`,
 * `set_language_by_button` and the other command handlers).
 *
 * Messages are described, not rendered: a `Msg` names the template the bot
 * fills and the data it fills it with, `lang` says which language's
 * template, and `kb` which keyboard goes with it.
 */
module Sessions {
  import opened Text
  import opened Pairs
  import opened Quotes
  import opened Ranking

  datatype Lang = En | Ru | Uz

  /** What the next text is taken as: a command, a pair, or a language button. */
  datatype Awaiting = Idle | PairInput | LangInput

  /** The session record of one chat. */
  datatype Session = Session(
    pair: string,
    auto: bool,
    lastScan: real,
    threshold: real,
    lang: Lang,
    awaiting: Awaiting,
    autoLastKey: string)

  const DEFAULT_PAIR: string := "BTC/USDT"

  /** The record `st` creates for a chat it has not seen. */
  const DEFAULT_SESSION: Session := Session(DEFAULT_PAIR, false, 0.0, 0.10, En, Idle, "")

  /** The command button labels of one language. */
  datatype Labels = Labels(
    scanNow: string,
    changePair: string,
    top: string,
    autoOn: string,
    autoOff: string,
    back: string,
    language: string,
    newTokens: string)

  /** The button labels of `lang`. */
  function Tr(lang: Lang): Labels {
    match lang
    case En => Labels("Scan Now", "Change Pair", "Top Opportunities", "Auto: ON", "Auto: OFF",
                      "Back", "Language", "New Tokens")
    case Ru => Labels("Сканировать", "Пара", "Топ возможностей", "Авто: ВКЛ", "Авто: ВЫКЛ",
                      "Назад", "Язык", "Новые токены")
    case Uz => Labels("Skan Qil", "Juftlik", "Eng yaxshi imkoniyatlar", "Avto: YOQILGAN", "Avto: O‘CHIRILGAN",
                      "Orqaga", "Til", "Yangi tokenlar")
  }

  /** The language buttons, the same in every language. */
  const LANG_EN: string := "English"
  const LANG_RU: string := "Русский"
  const LANG_UZ: string := "Oʻzbekcha"

  /**
   * `UI_WORDS`: the command labels of every language and the three language
   * buttons, upper-cased as Python's `str.upper` does (Cyrillic included).
   */
  const UI_WORDS: set<string> := UI_WORDS_EN + UI_WORDS_RU + UI_WORDS_UZ + UI_WORDS_LANG

  const UI_WORDS_EN: set<string> :=
    {"SCAN NOW", "CHANGE PAIR", "TOP OPPORTUNITIES", "AUTO: ON", "AUTO: OFF", "BACK", "LANGUAGE", "NEW TOKENS"}
  const UI_WORDS_RU: set<string> :=
    {"СКАНИРОВАТЬ", "ПАРА", "ТОП ВОЗМОЖНОСТЕЙ", "АВТО: ВКЛ", "АВТО: ВЫКЛ", "НАЗАД", "ЯЗЫК", "НОВЫЕ ТОКЕНЫ"}
  const UI_WORDS_LANG: set<string> := {"ENGLISH", "РУССКИЙ", "OʻZBEKCHA"}
  const UI_WORDS_UZ: set<string> :=
    {"SKAN QIL", "JUFTLIK", "ENG YAXSHI IMKONIYATLAR", "AVTO: YOQILGAN", "AVTO: O‘CHIRILGAN", "ORQAGA", "TIL",
     "YANGI TOKENLAR"}

  /** The keyboard sent with a message: the main menu (showing the auto state) or the language buttons. */
  datatype Keyboard = MainKb(auto: bool) | LangKb

  /** The message templates and their data. */
  datatype Msg =
    | Home(pair: string)
    | Table(pair: string, rows: seq<Row>)
    | NoQuotes(pair: string)
    | AskPair
    | BadPair
    | PairSet(pair: string)
    | NoSpreads
    | TopList(lines: seq<Line>)
    | AutoNow(on: bool)
    | LangPick
    | NewTokens
    | Info(symbol: string)
    | NewOpp(line: Line)

  /** One message to a chat: template language, message and keyboard. */
  datatype Outgoing = Outgoing(lang: Lang, msg: Msg, kb: Keyboard)

  /** A handler's outcome: the chat's new session and the one message it sends. */
  datatype Reply = Reply(session: Session, out: Outgoing)

  /** A message with the main keyboard, in the session's language. */
  function Plain(s: Session, msg: Msg): Outgoing {
    Outgoing(s.lang, msg, MainKb(s.auto))
  }

  /** `show_home`. */
  function ShowHome(s: Session): Reply {
    Reply(s, Plain(s, Home(s.pair)))
  }

  /** `do_scan`: the table of quotes for the session's pair, or "no quotes". */
  function Scan(s: Session, quote: Quoter): Reply
    requires OneSlash(s.pair)
  {
    var rows := Responding(quote, s.pair, EXCHS);
    Reply(s, Plain(s, if rows != [] then Table(s.pair, rows) else NoQuotes(s.pair)))
  }

  /**
   * `do_change_pair`: without text, ask for a pair and wait for it; with
   * text, set the pair if `to_usdt_pair` accepts it, otherwise complain and
   * leave the session as it was.
   */
  function ChangePair(s: Session, txt: string): (r: Reply)
    // only the pair and the wait change, and the pair only to what `to_usdt_pair` accepts
    ensures Kept(s, r.session) && r.session.auto == s.auto && r.session.lang == s.lang
    ensures r.session.pair == s.pair || r.session.pair == ToUsdtPair(txt, UI_WORDS)
    // the button (no text) starts waiting for a pair and asks for one
    ensures txt == "" ==> r.session == s.(awaiting := PairInput) && r.out.msg == AskPair
    // an accepted text is set, ends the wait and is confirmed
    ensures txt != "" && ToUsdtPair(txt, UI_WORDS) != "" ==>
      && r.session == s.(pair := ToUsdtPair(txt, UI_WORDS), awaiting := Idle)
      && r.out.msg == PairSet(ToUsdtPair(txt, UI_WORDS))
    // a rejected text leaves the session as it was and is answered with a complaint
    ensures txt != "" && ToUsdtPair(txt, UI_WORDS) == "" ==> r.session == s && r.out.msg == BadPair
  {
    if txt == "" then
      var s' := s.(awaiting := PairInput);
      Reply(s', Plain(s', AskPair))
    else
      var p := ToUsdtPair(txt, UI_WORDS);
      if p == "" then Reply(s, Plain(s, BadPair))
      else
        var s' := s.(pair := p, awaiting := Idle);
        Reply(s', Plain(s', PairSet(p)))
  }

  /** `do_top`: the ranked watchlist, or "no positive spreads". */
  function TopReply(s: Session, quote: Quoter): Reply {
    var lines := WatchTop(quote);
    Reply(s, Plain(s, if lines == [] then NoSpreads else TopList(lines)))
  }

  /** `toggle_auto`. */
  function ToggleAuto(s: Session): (r: Reply)
    // `auto` flips, nothing else changes, and the keyboard shows the new state
    ensures r.session.auto != s.auto && r.session == s.(auto := r.session.auto)
    ensures r.out.kb == MainKb(r.session.auto)
    ensures r.out.msg == AutoNow(r.session.auto)
  {
    var s' := s.(auto := !s.auto);
    Reply(s', Plain(s', AutoNow(s'.auto)))
  }

  /** `ask_language`. */
  function AskLanguage(s: Session): (r: Reply)
    // starts waiting for a language and shows the language buttons, nothing else changes
    ensures r.session == s.(awaiting := LangInput)
    ensures r.out.lang == s.lang && r.out.kb == LangKb
    ensures r.out.msg == LangPick
  {
    Reply(s.(awaiting := LangInput), Outgoing(s.lang, LangPick, LangKb))
  }

  /** `set_language_by_button`: a language button switches, anything else keeps the language. */
  function SetLanguage(s: Session, t: string): (r: Reply)
    // the wait ends; only a language button changes the language; the reply uses the new one
    ensures r.session == s.(lang := r.session.lang, awaiting := Idle)
    ensures r.session.lang != s.lang ==> t in {LANG_EN, LANG_RU, LANG_UZ}
    ensures r.out.lang == r.session.lang
  {
    var lang :=
      if t == LANG_EN then En
      else if t == LANG_RU then Ru
      else if t == LANG_UZ then Uz
      else s.lang;
    ShowHome(s.(lang := lang, awaiting := Idle))
  }

  /** What no handler touches: the watcher's fields; and the pair keeps one slash. */
  predicate Kept(s: Session, s': Session) {
    && s'.lastScan == s.lastScan
    && s'.threshold == s.threshold
    && s'.autoLastKey == s.autoLastKey
    && (OneSlash(s.pair) ==> OneSlash(s'.pair))
  }

  /** What a text means when neither a pair nor a language is awaited. */
  datatype Command =
    | Start
    | GoBack
    | ScanNow
    | ChangePairCmd
    | TopCmd
    | LanguageCmd
    | NewTokensCmd
    | AutoCmd
    | InfoCmd(symbol: string)
    | Typed(text: string)

  /**
   * The command checks of `handle_text`, in its order: "/start" in any
   * case, the labels of the session's language, "info SYMBOL" (with "info"
   * in any case), and otherwise plain text.
   */
  function Classify(tr: Labels, t: string): (r: Command)
    // a button of the session's language is never taken for a typed pair
    ensures t in {tr.back, tr.scanNow, tr.changePair, tr.top, tr.language, tr.newTokens, tr.autoOn, tr.autoOff} ==>
      !r.Typed? && !r.InfoCmd?
    ensures r.Typed? ==> r.text == t
  {
    if Upper(t) == "/START" then Start
    else if t == tr.back then GoBack
    else if t == tr.scanNow then ScanNow
    else if t == tr.changePair then ChangePairCmd
    else if t == tr.top then TopCmd
    else if t == tr.language then LanguageCmd
    else if t == tr.newTokens then NewTokensCmd
    else if t == tr.autoOn || t == tr.autoOff then AutoCmd
    else if StartsWith(Lower(t), "info ") then InfoCmd(Strip(t[5..]))
    else Typed(t)
  }

  /** The last resort of `handle_text`: a pair typed directly, or a prompt for one. */
  function TypedPair(s: Session, t: string): (r: Reply)
    // the session changes only to take an accepted pair, ending any wait
    ensures Kept(s, r.session) && r.session.auto == s.auto && r.session.lang == s.lang
    ensures r.session != s ==> r.session.pair == ToUsdtPair(t, UI_WORDS) != "" && r.session.awaiting == Idle
    // an accepted pair is stored and confirmed; anything else keeps the session and asks for a pair
    ensures ToUsdtPair(t, UI_WORDS) != "" ==>
      r.session == s.(pair := ToUsdtPair(t, UI_WORDS), awaiting := Idle) && r.out.msg == PairSet(ToUsdtPair(t, UI_WORDS))
    ensures ToUsdtPair(t, UI_WORDS) == "" ==> r.session == s && r.out.msg == AskPair
  {
    var cand := ToUsdtPair(t, UI_WORDS);
    if cand != "" then
      var s' := s.(pair := cand, awaiting := Idle);
      Reply(s', Plain(s', PairSet(cand)))
    else Reply(s, Plain(s, AskPair))
  }

  /**
   * `handle_text`: the stripped text is a language button or a pair when
   * one is awaited, and otherwise a command.
   */
  function Dispatch(s: Session, text: string, quote: Quoter): (r: Reply)
    requires OneSlash(s.pair)
    ensures Kept(s, r.session)
  {
    var t := Strip(text);
    if s.awaiting == LangInput then SetLanguage(s, t)
    else if s.awaiting == PairInput then ChangePair(s, t)
    else Execute(s, Classify(Tr(s.lang), t), quote)
  }

  /** The handler each command runs. */
  function Execute(s: Session, c: Command, quote: Quoter): (r: Reply)
    requires OneSlash(s.pair)
    ensures Kept(s, r.session)
  {
    match c
      case Start => ShowHome(s)
      case GoBack => ShowHome(s)
      case ScanNow => Scan(s, quote)
      case ChangePairCmd => ChangePair(s, "")
      case TopCmd => TopReply(s, quote)
      case LanguageCmd => AskLanguage(s)
      case NewTokensCmd => Reply(s, Plain(s, NewTokens))
      case AutoCmd => ToggleAuto(s)
      case InfoCmd(symbol) => Reply(s, Plain(s, Info(symbol)))
      case Typed(t) => TypedPair(s, t)
  }

  /**
   * Waiting for a language: the text picks English, Russian or Uzbek only
   * when it is exactly that button, the wait ends whatever the text, and
   * the home screen is shown in the (possibly new) language.
   */
  lemma DispatchLanguage(s: Session, text: string, quote: Quoter)
    requires OneSlash(s.pair) && s.awaiting == LangInput
    ensures var t, r := Strip(text), Dispatch(s, text, quote);
      && r.session.lang == (if t == LANG_EN then En else if t == LANG_RU then Ru else if t == LANG_UZ then Uz else s.lang)
      && r.session == s.(lang := r.session.lang, awaiting := Idle)
      && r.out == Outgoing(r.session.lang, Home(s.pair), MainKb(s.auto))
  {
  }

  /**
   * Waiting for a pair: text `to_usdt_pair` accepts becomes the pair and
   * ends the wait; any other text (a button label among them) leaves the
   * session exactly as it was, and the bot asks again when the text is empty
   * and complains otherwise.
   */
  lemma DispatchPairInput(s: Session, text: string, quote: Quoter)
    requires OneSlash(s.pair) && s.awaiting == PairInput
    ensures var p, r := ToUsdtPair(Strip(text), UI_WORDS), Dispatch(s, text, quote);
      && (p != "" ==> r.session == s.(pair := p, awaiting := Idle) && r.out.msg == PairSet(p))
      && (p == "" ==> r.session == s && r.out.msg == (if Strip(text) == "" then AskPair else BadPair))
  {
    var t := Strip(text);
    assert Dispatch(s, text, quote) == ChangePair(s, t);
    if t == "" {
      assert Canon(t) == "";
      EmptyRejected(UI_WORDS);
    }
  }

  /** The Change Pair button of the session's language starts waiting for a pair and asks for one. */
  lemma DispatchChangePairButton(s: Session, quote: Quoter)
    requires OneSlash(s.pair) && s.awaiting == Idle
    ensures var r := Dispatch(s, Tr(s.lang).changePair, quote);
      r.session == s.(awaiting := PairInput) && r.out == Outgoing(s.lang, AskPair, MainKb(s.auto))
  {
    MenuLabels(s.lang);
    assert Dispatch(s, Tr(s.lang).changePair, quote) == Execute(s, ChangePairCmd, quote);
  }

  /** The Language button of the session's language starts waiting for a language and shows its buttons. */
  lemma DispatchLanguageButton(s: Session, quote: Quoter)
    requires OneSlash(s.pair) && s.awaiting == Idle
    ensures var r := Dispatch(s, Tr(s.lang).language, quote);
      r.session == s.(awaiting := LangInput) && r.out == Outgoing(s.lang, LangPick, LangKb)
  {
    MenuLabels(s.lang);
    assert Dispatch(s, Tr(s.lang).language, quote) == Execute(s, LanguageCmd, quote);
  }

  /** Each language's Change Pair and Language labels are stripped already and read as their commands. */
  lemma MenuLabels(lang: Lang)
    ensures var tr := Tr(lang);
      && Strip(tr.changePair) == tr.changePair && Classify(tr, tr.changePair) == ChangePairCmd
      && Strip(tr.language) == tr.language && Classify(tr, tr.language) == LanguageCmd
  {
    var tr := Tr(lang);
    CommandLabel(tr.changePair);
    CommandLabel(tr.language);
    ChangePairLabel(tr);
    LanguageLabel(tr);
  }

  /** A Change Pair label that no earlier command check catches. */
  lemma ChangePairLabel(tr: Labels)
    requires Upper(tr.changePair) != "/START" && tr.changePair !in {tr.back, tr.scanNow}
    ensures Classify(tr, tr.changePair) == ChangePairCmd
  {
  }

  /** A Language label that no earlier command check catches. */
  lemma LanguageLabel(tr: Labels)
    requires Upper(tr.language) != "/START" && tr.language !in {tr.back, tr.scanNow, tr.changePair, tr.top}
    ensures Classify(tr, tr.language) == LanguageCmd
  {
  }

  /**
   * Change Pair followed by a text `to_usdt_pair` accepts: the pair is the
   * new one and the session is otherwise as it was before the button.
   */
  lemma ChangePairRoundTrip(s: Session, text: string, quote: Quoter)
    requires OneSlash(s.pair) && s.awaiting == Idle
    requires ToUsdtPair(Strip(text), UI_WORDS) != ""
    ensures var s1 := Dispatch(s, Tr(s.lang).changePair, quote).session;
      OneSlash(s1.pair) && Dispatch(s1, text, quote).session == s.(pair := ToUsdtPair(Strip(text), UI_WORDS))
  {
    DispatchChangePairButton(s, quote);
    var s1 := Dispatch(s, Tr(s.lang).changePair, quote).session;
    DispatchPairInput(s1, text, quote);
  }

  /**
   * Language followed by a language button: the language is the chosen one
   * and the session is otherwise as it was before the first button.
   */
  lemma LanguageRoundTrip(s: Session, quote: Quoter)
    requires OneSlash(s.pair) && s.awaiting == Idle
    ensures var s1 := Dispatch(s, Tr(s.lang).language, quote).session;
      && OneSlash(s1.pair)
      && Dispatch(s1, LANG_EN, quote).session == s.(lang := En)
      && Dispatch(s1, LANG_RU, quote).session == s.(lang := Ru)
      && Dispatch(s1, LANG_UZ, quote).session == s.(lang := Uz)
  {
    DispatchLanguageButton(s, quote);
    var s1 := Dispatch(s, Tr(s.lang).language, quote).session;
    LanguageChosen(s1, LANG_EN, En, quote);
    LanguageChosen(s1, LANG_RU, Ru, quote);
    LanguageChosen(s1, LANG_UZ, Uz, quote);
  }

  /** While a language is awaited, its button switches to that language and ends the wait. */
  lemma LanguageChosen(s: Session, btn: string, lang: Lang, quote: Quoter)
    requires OneSlash(s.pair) && s.awaiting == LangInput
    requires (btn == LANG_EN && lang == En) || (btn == LANG_RU && lang == Ru) || (btn == LANG_UZ && lang == Uz)
    ensures Dispatch(s, btn, quote).session == s.(lang := lang, awaiting := Idle)
  {
    StripKeeps(btn);
    DispatchLanguage(s, btn, quote);
  }

  /** A pair once typed and stored is kept when it is typed again. */
  lemma TypedPairStable(s: Session, t: string)
    requires ToUsdtPair(t, UI_WORDS) != ""
    ensures var s1 := TypedPair(s, t).session;
      TypedPair(s1, s1.pair).session == s1
  {
    var r := ToUsdtPair(t, UI_WORDS);
    var base := BaseOf(r);
    assert r == base + "/USDT";
    AcceptedIsCanonical(t, UI_WORDS);
    assert r !in UI_WORDS by {
      NoneEndsInT(UI_WORDS_EN);
      NoneEndsInT(UI_WORDS_RU);
      NoneEndsInT(UI_WORDS_UZ);
      NoneEndsInT(UI_WORDS_LANG);
      assert r[|r| - 1] == 'T';
    }
    UsdtPairFixed(r, base, UI_WORDS);
  }

  /** The labels of one language, or the language buttons: none is empty or ends in 'T', as a pair does. */
  lemma NoneEndsInT(words: set<string>)
    requires words in {UI_WORDS_EN, UI_WORDS_RU, UI_WORDS_UZ, UI_WORDS_LANG}
    ensures forall w :: w in words ==> w != [] && w[|w| - 1] != 'T'
  {
  }

  /** A label that starts with no slash and has no surrounding blanks is not stripped and is not "/start". */
  lemma CommandLabel(btn: string)
    requires |btn| > 0 && btn[0] != '/' && !IsSpace(btn[0]) && !IsSpace(btn[|btn| - 1])
    ensures Strip(btn) == btn && Upper(btn) != "/START"
  {
    StripKeeps(btn);
    assert Upper(btn)[0] != '/';
  }

  /** Either Auto button of the session's language flips `auto` and changes nothing else. */
  lemma DispatchToggle(s: Session, btn: string, quote: Quoter)
    requires OneSlash(s.pair) && s.awaiting == Idle
    requires btn == Tr(s.lang).autoOn || btn == Tr(s.lang).autoOff
    ensures var r := Dispatch(s, btn, quote);
      r.session == s.(auto := !s.auto) && r.out == Outgoing(s.lang, AutoNow(!s.auto), MainKb(!s.auto))
  {
    AutoLabels(s.lang);
    DispatchAuto(s, btn, quote);
  }

  /** Text read as the Auto command toggles. */
  lemma DispatchAuto(s: Session, text: string, quote: Quoter)
    requires OneSlash(s.pair) && s.awaiting == Idle
    requires Classify(Tr(s.lang), Strip(text)) == AutoCmd
    ensures Dispatch(s, text, quote) == ToggleAuto(s)
  {
    assert Dispatch(s, text, quote) == Execute(s, AutoCmd, quote);
  }

  /** Each language's Auto labels are stripped already and are read as the Auto command. */
  lemma AutoLabels(lang: Lang)
    ensures var tr := Tr(lang);
      && Strip(tr.autoOn) == tr.autoOn && Classify(tr, tr.autoOn) == AutoCmd
      && Strip(tr.autoOff) == tr.autoOff && Classify(tr, tr.autoOff) == AutoCmd
  {
    var tr := Tr(lang);
    AutoLabel(tr, tr.autoOn);
    AutoLabel(tr, tr.autoOff);
  }

  /** An Auto label that no other command check catches first. */
  lemma AutoLabel(tr: Labels, btn: string)
    requires btn == tr.autoOn || btn == tr.autoOff
    requires |btn| > 0 && btn[0] != '/' && !IsSpace(btn[0]) && !IsSpace(btn[|btn| - 1])
    requires btn !in {tr.back, tr.scanNow, tr.changePair, tr.top, tr.language, tr.newTokens}
    ensures Strip(btn) == btn && Classify(tr, btn) == AutoCmd
  {
    StripKeeps(btn);
    assert Upper(btn)[0] != '/';
  }

  /** `auto` changes only through the Auto button, and then only when nothing is awaited. */
  lemma DispatchAutoOnlyByButton(s: Session, text: string, quote: Quoter)
    requires OneSlash(s.pair)
    requires Dispatch(s, text, quote).session.auto != s.auto
    ensures s.awaiting == Idle && Classify(Tr(s.lang), Strip(text)) == AutoCmd
  {
    var t := Strip(text);
    if s.awaiting == Idle {
      var c := Classify(Tr(s.lang), t);
      assert c.AutoCmd? by {
        if !c.AutoCmd? {
          AutoStays(s, t, c, quote);
        }
      }
    }
  }

  /** Every command but Auto leaves `auto` alone. */
  lemma AutoStays(s: Session, t: string, c: Command, quote: Quoter)
    requires OneSlash(s.pair) && !c.AutoCmd?
    ensures
      match c
      case Start => ShowHome(s).session.auto == s.auto
      case GoBack => ShowHome(s).session.auto == s.auto
      case ScanNow => Scan(s, quote).session.auto == s.auto
      case ChangePairCmd => ChangePair(s, "").session.auto == s.auto
      case TopCmd => TopReply(s, quote).session.auto == s.auto
      case LanguageCmd => AskLanguage(s).session.auto == s.auto
      case InfoCmd(_) => true
      case NewTokensCmd => true
      case AutoCmd => true
      case Typed(t) => TypedPair(s, t).session.auto == s.auto
  {
  }

  /** The default pair has exactly one slash. */
  lemma DefaultPairRenderable()
    ensures OneSlash(DEFAULT_SESSION.pair)
  {
    UsdtPairSlash("BTC");
    assert "BTC" + "/USDT" == DEFAULT_PAIR;
  }
}
