/**
 * The bot's mutable state: the session store `STATE` with `st`, the command
 * handlers that update a chat's record and send it a message, `handle_text`,
 * and one pass of the auto watcher over every chat.
 *
 * Sending is recorded, not performed: every message the bot would send is
 * appended to the ghost `log` together with its chat.
 */
module Bot {
  import opened Text
  import opened Pairs
  import opened Quotes
  import opened Ranking
  import opened Sessions
  import opened Watcher

  /** One message sent to one chat. */
  datatype Outbound = Outbound(chat: int, out: Outgoing)

  /** The record `st` yields for `chat`: the stored one, or a fresh default. */
  function SessionOf(m: map<int, Session>, chat: int): Session {
    if chat in m then m[chat] else DEFAULT_SESSION
  }

  /** `outs`, each addressed to `chat`. */
  function Addressed(chat: int, outs: seq<Outgoing>): (r: seq<Outbound>)
    ensures |r| == |outs|
    ensures forall i :: 0 <= i < |r| ==> r[i] == Outbound(chat, outs[i])
  {
    if outs == [] then [] else [Outbound(chat, outs[0])] + Addressed(chat, outs[1..])
  }

  /** The messages one watcher pass sends, chat by chat in `chats` order. */
  function Alerts(m: map<int, Session>, chats: seq<int>, now: real, quote: Quoter): seq<Outbound>
    requires forall c :: c in chats ==> c in m
  {
    if chats == [] then []
    else
      var c := chats[|chats| - 1];
      Alerts(m, chats[..|chats| - 1], now, quote) + Addressed(c, Tick(m[c], now, quote).alerts)
  }

  /** The store after one watcher pass has ticked the chats of `chats`, in order. */
  function Ticked(m: map<int, Session>, chats: seq<int>, now: real, quote: Quoter): map<int, Session>
    requires forall c :: c in chats ==> c in m
    decreases |chats|
  {
    if chats == [] then m
    else
      var c := chats[|chats| - 1];
      Ticked(m, chats[..|chats| - 1], now, quote)[c := Tick(m[c], now, quote).session]
  }

  /**
   * After a pass over `chats`, every chat keeps its place in the store; a
   * chat of `chats` holds its ticked record and any other chat its old one.
   */
  lemma {:induction false} TickedAt(m: map<int, Session>, chats: seq<int>, now: real, quote: Quoter)
    requires forall c :: c in chats ==> c in m
    ensures Ticked(m, chats, now, quote).Keys == m.Keys
    ensures forall c :: c in m ==>
      Ticked(m, chats, now, quote)[c] == if c in chats then Tick(m[c], now, quote).session else m[c]
    decreases |chats|
  {
    if chats != [] {
      var init := chats[..|chats| - 1];
      TickedAt(m, init, now, quote);
      assert chats == init + [chats[|chats| - 1]];
    }
  }

  /**
   * Ticking the next chat of a store's order: it still holds its old record,
   * and the pass and its alerts grow by that chat's tick.
   */
  lemma TickedNext(m: map<int, Session>, order: seq<int>, k: nat, now: real, quote: Quoter)
    requires Stored(m, order) && k < |order|
    ensures order[k] in m
    ensures Ticked(m, order[..k], now, quote).Keys == m.Keys
    ensures Ticked(m, order[..k], now, quote)[order[k]] == m[order[k]]
    ensures Ticked(m, order[..k + 1], now, quote) == Ticked(m, order[..k], now, quote)[order[k] := Tick(m[order[k]], now, quote).session]
    ensures Alerts(m, order[..k + 1], now, quote) == Alerts(m, order[..k], now, quote) + Addressed(order[k], Tick(m[order[k]], now, quote).alerts)
  {
    assert order[k] in order;
    assert order[..k + 1][..k] == order[..k];
    assert order[k] !in order[..k];
    TickedAt(m, order[..k], now, quote);
  }

  /**
   * Every alert of a pass goes to a chat of `chats` that was due (auto on,
   * `SCAN_PERIOD` elapsed), and carries that chat's language and its
   * main keyboard with auto on.
   */
  lemma {:induction false} AlertsFromDueChats(m: map<int, Session>, chats: seq<int>, now: real, quote: Quoter)
    requires forall c :: c in chats ==> c in m
    ensures forall o :: o in Alerts(m, chats, now, quote) ==>
      o.chat in chats && Due(m[o.chat], now) && o.out.lang == m[o.chat].lang && o.out.kb == MainKb(true)
  {
    if chats != [] {
      var init := chats[..|chats| - 1];
      var c := chats[|chats| - 1];
      AlertsFromDueChats(m, init, now, quote);
      ChatAlerts(m[c], c, now, quote);
    }
  }

  /** The alerts of one chat's pass: due, in its language, with auto on. */
  lemma ChatAlerts(s: Session, c: int, now: real, quote: Quoter)
    ensures forall o :: o in Addressed(c, Tick(s, now, quote).alerts) ==>
      o.chat == c && Due(s, now) && o.out.lang == s.lang && o.out.kb == MainKb(true)
  {
    var r := Tick(s, now, quote);
    if r.alerts != [] {
      AlertMessages(s.(lastScan := now), Watched(quote));
    }
  }

  /** Both messages of an alert carry the chat's language and its main keyboard. */
  lemma AlertMessages(s: Session, sc: Sweep)
    ensures forall o :: o in Alert(s, sc).alerts ==> o.lang == s.lang && o.kb == MainKb(s.auto)
  {
  }

  /** What one handler does to the store: `chat`'s record becomes `r.session` and `r.out` is sent to it. */
  ghost predicate Did(bot: ArbBot, chat: int, r: Reply, m0: map<int, Session>, order0: seq<int>, log0: seq<Outbound>)
    reads bot
  {
    && bot.sessions == m0[chat := r.session]
    && bot.order == (if chat in m0 then order0 else order0 + [chat])
    && bot.log == log0 + [Outbound(chat, r.out)]
  }

  /** Every chat is stored once, in `order`, and every stored pair has exactly one slash. */
  ghost predicate Stored(m: map<int, Session>, order: seq<int>) {
    && (forall c :: c in m <==> c in order)
    && (forall i, j :: 0 <= i < j < |order| ==> order[i] != order[j])
    && (forall c :: c in m ==> OneSlash(m[c].pair))
  }

  /** Replacing a stored record by one with a one-slash pair keeps the store well formed. */
  lemma StoredPut(m: map<int, Session>, order: seq<int>, chat: int, s: Session)
    requires Stored(m, order) && chat in m && OneSlash(s.pair)
    ensures Stored(m[chat := s], order)
  {
  }

  /** A new chat joins at the end of `order` with the default record. */
  lemma StoredAdd(m: map<int, Session>, order: seq<int>, chat: int)
    requires Stored(m, order) && chat !in m
    ensures Stored(m[chat := DEFAULT_SESSION], order + [chat])
  {
    DefaultPairRenderable();
  }

  /** Appending to the log in two steps or in one gives the same log. */
  lemma Associative(a: seq<Outbound>, b: seq<Outbound>, c: seq<Outbound>)
    ensures a + b + c == a + (b + c)
  {
  }

  /** A second write to the same chat overrides the first. */
  lemma PutPut(m: map<int, Session>, chat: int, a: Session, b: Session)
    ensures m[chat := a][chat := b] == m[chat := b]
  {
  }

  /** The bot: `STATE`, the order in which its chats were first seen, and what has been sent. */
  class ArbBot {
    var sessions: map<int, Session>
    var order: seq<int>
    ghost var log: seq<Outbound>

    /** The store is well formed. */
    ghost predicate Valid()
      reads this
    {
      Stored(sessions, order)
    }

    /** An empty store; nothing sent. */
    constructor()
      ensures Valid() && sessions == map[] && order == [] && log == []
    {
      sessions, order, log := map[], [], [];
    }

    /** `st`: the chat's record, created with the defaults on first contact. */
    method St(chat: int) returns (s: Session)
      requires Valid()
      modifies this
      ensures Valid() && chat in sessions
      ensures s == SessionOf(old(sessions), chat)
      ensures sessions == old(sessions)[chat := s]
      ensures order == (if chat in old(sessions) then old(order) else old(order) + [chat])
      ensures log == old(log)
    {
      if chat !in sessions {
        StoredAdd(sessions, order, chat);
        sessions := sessions[chat := DEFAULT_SESSION];
        order := order + [chat];
      }
      s := sessions[chat];
    }

    /** Assigning the fields of a stored chat's record. */
    method Put(chat: int, s: Session)
      requires Valid() && chat in sessions && OneSlash(s.pair)
      modifies this
      ensures Valid()
      ensures sessions == old(sessions)[chat := s] && order == old(order) && log == old(log)
    {
      StoredPut(sessions, order, chat, s);
      sessions := sessions[chat := s];
    }

    /** `send`: the message goes out to the chat and nothing else changes. */
    method Send(chat: int, out: Outgoing)
      modifies this
      ensures log == old(log) + [Outbound(chat, out)]
      ensures sessions == old(sessions) && order == old(order)
    {
      log := log + [Outbound(chat, out)];
    }

    /** `show_home`. */
    method ShowHome(chat: int)
      requires Valid()
      modifies this
      ensures Valid()
      ensures Did(this, chat, Sessions.ShowHome(SessionOf(old(sessions), chat)), old(sessions), old(order), old(log))
    {
      var s := St(chat);
      Send(chat, Plain(s, Home(s.pair)));
    }

    /** `do_scan`. */
    method DoScan(chat: int, quote: Quoter)
      requires Valid()
      modifies this
      ensures Valid()
      ensures OneSlash(SessionOf(old(sessions), chat).pair)
      ensures Did(this, chat, Sessions.Scan(SessionOf(old(sessions), chat), quote), old(sessions), old(order), old(log))
    {
      var s := St(chat);
      var rows := FetchAll(quote, s.pair);
      Send(chat, Plain(s, if rows != [] then Table(s.pair, rows) else NoQuotes(s.pair)));
    }

    /** `do_change_pair`. */
    method DoChangePair(chat: int, txt: string)
      requires Valid()
      modifies this
      ensures Valid()
      ensures Did(this, chat, Sessions.ChangePair(SessionOf(old(sessions), chat), txt), old(sessions), old(order), old(log))
    {
      var s := St(chat);
      ghost var s0 := s;
      var out: Outgoing;
      if txt == "" {
        s := s.(awaiting := PairInput);
        Put(chat, s);
        out := Plain(s, AskPair);
      } else {
        var p := ToUsdtPair(txt, UI_WORDS);
        if p == "" {
          out := Plain(s, BadPair);
        } else {
          s := s.(pair := p, awaiting := Idle);
          Put(chat, s);
          out := Plain(s, PairSet(p));
        }
      }
      PutPut(old(sessions), chat, s0, s);
      Send(chat, out);
    }

    /** `do_top`. */
    method DoTop(chat: int, quote: Quoter)
      requires Valid()
      modifies this
      ensures Valid()
      ensures Did(this, chat, TopReply(SessionOf(old(sessions), chat), quote), old(sessions), old(order), old(log))
    {
      var s := St(chat);
      var lines := WatchlistTop(quote);
      Send(chat, Plain(s, if lines == [] then NoSpreads else TopList(lines)));
    }

    /** `toggle_auto`. */
    method ToggleAuto(chat: int)
      requires Valid()
      modifies this
      ensures Valid()
      ensures Did(this, chat, Sessions.ToggleAuto(SessionOf(old(sessions), chat)), old(sessions), old(order), old(log))
    {
      var s := St(chat);
      ghost var s0 := s;
      s := s.(auto := !s.auto);
      Put(chat, s);
      PutPut(old(sessions), chat, s0, s);
      Send(chat, Plain(s, AutoNow(s.auto)));
    }

    /** `ask_language`. */
    method AskLanguage(chat: int)
      requires Valid()
      modifies this
      ensures Valid()
      ensures Did(this, chat, Sessions.AskLanguage(SessionOf(old(sessions), chat)), old(sessions), old(order), old(log))
    {
      var s := St(chat);
      Put(chat, s.(awaiting := LangInput));
      PutPut(old(sessions), chat, s, s.(awaiting := LangInput));
      Send(chat, Outgoing(s.lang, LangPick, LangKb));
    }

    /** `set_language_by_button`, which ends by showing the home screen. */
    method SetLanguageByButton(chat: int, text: string)
      requires Valid()
      modifies this
      ensures Valid()
      ensures Did(this, chat, SetLanguage(SessionOf(old(sessions), chat), text), old(sessions), old(order), old(log))
    {
      var s := St(chat);
      ghost var s0 := s;
      if text == LANG_EN {
        s := s.(lang := En);
      } else if text == LANG_RU {
        s := s.(lang := Ru);
      } else if text == LANG_UZ {
        s := s.(lang := Uz);
      }
      s := s.(awaiting := Idle);
      Put(chat, s);
      PutPut(old(sessions), chat, s0, s);
      ShowHome(chat);
    }

    /** `do_new_tokens` (the listing itself comes from outside and is not modelled). */
    method DoNewTokens(chat: int)
      requires Valid()
      modifies this
      ensures Valid()
      ensures var s := SessionOf(old(sessions), chat); Did(this, chat, Reply(s, Plain(s, NewTokens)), old(sessions), old(order), old(log))
    {
      var s := St(chat);
      Send(chat, Plain(s, NewTokens));
    }

    /**
     * `handle_text`: one inbound text, taken atomically. Only the sender's
     * record changes (created first if new), exactly one message is sent to
     * it, and both are what `Dispatch` prescribes.
     */
    method HandleText(chat: int, text: string, quote: Quoter)
      requires Valid()
      modifies this
      ensures Valid()
      ensures OneSlash(SessionOf(old(sessions), chat).pair)
      ensures Did(this, chat, Dispatch(SessionOf(old(sessions), chat), text, quote), old(sessions), old(order), old(log))
    {
      var s := St(chat);
      var t := Strip(text);
      ghost var r := Dispatch(s, text, quote);
      if s.awaiting == LangInput {
        assert r == SetLanguage(s, t);
        SetLanguageByButton(chat, t);
      } else if s.awaiting == PairInput {
        assert r == ChangePair(s, t);
        DoChangePair(chat, t);
      } else {
        assert r == Sessions.Execute(s, Classify(Tr(s.lang), t), quote);
        Execute(chat, Classify(Tr(s.lang), t), quote);
      }
      PutPut(old(sessions), chat, s, r.session);
    }

    /** The command branches of `handle_text`, for a chat already stored. */
    method Execute(chat: int, c: Command, quote: Quoter)
      requires Valid() && chat in sessions
      modifies this
      ensures Valid()
      ensures Did(this, chat, Sessions.Execute(old(sessions)[chat], c, quote), old(sessions), old(order), old(log))
    {
      var s := sessions[chat];
      ghost var r := Sessions.Execute(s, c, quote);
      match c {
        case Start =>
          assert r == Sessions.ShowHome(s);
          ShowHome(chat);
        case GoBack =>
          assert r == Sessions.ShowHome(s);
          ShowHome(chat);
        case ScanNow =>
          assert r == Sessions.Scan(s, quote);
          DoScan(chat, quote);
        case ChangePairCmd =>
          assert r == Sessions.ChangePair(s, "");
          DoChangePair(chat, "");
        case TopCmd =>
          assert r == TopReply(s, quote);
          DoTop(chat, quote);
        case LanguageCmd =>
          assert r == Sessions.AskLanguage(s);
          AskLanguage(chat);
        case NewTokensCmd =>
          assert r == Reply(s, Plain(s, NewTokens));
          DoNewTokens(chat);
        case AutoCmd =>
          assert r == Sessions.ToggleAuto(s);
          ToggleAuto(chat);
        case InfoCmd(symbol) =>
          assert r == Reply(s, Plain(s, Info(symbol)));
          Send(chat, Plain(s, Info(symbol)));
        case Typed(typed) =>
          assert r == Sessions.TypedPair(s, typed);
          TypedPair(chat, typed);
      }
    }

    /** The last resort of `handle_text`: a pair typed directly, or a prompt for one. */
    method TypedPair(chat: int, t: string)
      requires Valid() && chat in sessions
      modifies this
      ensures Valid()
      ensures Did(this, chat, Sessions.TypedPair(old(sessions)[chat], t), old(sessions), old(order), old(log))
    {
      var s := sessions[chat];
      var cand := ToUsdtPair(t, UI_WORDS);
      if cand != "" {
        s := s.(pair := cand, awaiting := Idle);
        Put(chat, s);
      }
      Send(chat, Plain(s, if cand != "" then PairSet(cand) else AskPair));
    }

    /** One iteration of the watcher's loop over `STATE`: the pass for one stored chat. */
    method TickChat(chat: int, now: real, quote: Quoter)
      requires chat in sessions
      modifies this
      ensures order == old(order)
      ensures sessions == old(sessions)[chat := Tick(old(sessions)[chat], now, quote).session]
      ensures log == old(log) + Addressed(chat, Tick(old(sessions)[chat], now, quote).alerts)
    {
      var s := sessions[chat];
      if !s.auto {
        TickNotDue(s, now, quote);
        return;
      }
      if now - s.lastScan < SCAN_PERIOD {
        TickNotDue(s, now, quote);
        return;
      }
      ScanFor(chat, now, quote);
    }

    /** A due chat's pass: stamp `last_scan`, sweep the watchlist, then alert or not. */
    method ScanFor(chat: int, now: real, quote: Quoter)
      requires chat in sessions
      modifies this
      ensures order == old(order)
      ensures var r := Alert(old(sessions)[chat].(lastScan := now), Watched(quote));
        sessions == old(sessions)[chat := r.session] && log == old(log) + Addressed(chat, r.alerts)
    {
      sessions := sessions[chat := sessions[chat].(lastScan := now)];
      var best, bestRows := WatchlistSweep(quote);
      AlertChat(chat, Sweep(best, bestRows));
      PutPut(old(sessions), chat, old(sessions)[chat].(lastScan := now), sessions[chat]);
    }

    /** The rest of the pass for a stamped chat, given the sweep of the watchlist. */
    method AlertChat(chat: int, sc: Sweep)
      requires chat in sessions
      modifies this
      ensures order == old(order)
      ensures sessions == old(sessions)[chat := Alert(old(sessions)[chat], sc).session]
      ensures log == old(log) + Addressed(chat, Alert(old(sessions)[chat], sc).alerts)
    {
      var s := sessions[chat];
      if sc.best.pct < s.threshold || sc.rows.None? || sc.rows.value == [] {
        assert sessions == sessions[chat := s];
        return;
      }
      var key := Fingerprint(sc.best);
      if key == s.autoLastKey {
        assert sessions == sessions[chat := s];
        return;
      }
      s := s.(autoLastKey := key);
      sessions := sessions[chat := s];
      log := log + Addressed(chat, [Plain(s, NewOpp(sc.best)), Plain(s, Table(sc.best.pair, sc.rows.value))]);
    }

    /**
     * One pass of `autoscan_loop` at time `now` over every chat, in the
     * order they were first seen: each chat's record becomes what `Tick`
     * makes of it, no chat is added or removed, and the alerts go out
     * chat by chat.
     */
    method AutoscanTick(now: real, quote: Quoter)
      requires Valid()
      modifies this
      ensures Valid() && order == old(order)
      ensures sessions == Ticked(old(sessions), order, now, quote)
      ensures log == old(log) + Alerts(old(sessions), order, now, quote)
    {
      for k := 0 to |order|
        invariant Valid() && order == old(order)
        invariant sessions == Ticked(old(sessions), order[..k], now, quote)
        invariant log == old(log) + Alerts(old(sessions), order[..k], now, quote)
      {
        TickNext(old(sessions), old(log), k, now, quote);
      }
      assert order[..|order|] == order;
    }

    /** One round of the pass: tick `order[k]`, the next chat in order, on the store `m0` started from. */
    method TickNext(ghost m0: map<int, Session>, ghost log0: seq<Outbound>, k: nat, now: real, quote: Quoter)
      requires Valid() && Stored(m0, order) && k < |order|
      requires sessions == Ticked(m0, order[..k], now, quote)
      requires log == log0 + Alerts(m0, order[..k], now, quote)
      modifies this
      ensures Valid() && order == old(order)
      ensures sessions == Ticked(m0, order[..k + 1], now, quote)
      ensures log == log0 + Alerts(m0, order[..k + 1], now, quote)
    {
      var chat := order[k];
      TickedNext(m0, order, k, now, quote);
      var s := sessions[chat];
      if Due(s, now) {
        TickStamps(s, now, quote);
      } else {
        TickNotDue(s, now, quote);
      }
      StoredPut(sessions, order, chat, Tick(s, now, quote).session);
      ghost var done := Alerts(m0, order[..k], now, quote);
      TickChat(chat, now, quote);
      Associative(log0, done, Addressed(chat, Tick(m0[chat], now, quote).alerts));
    }
  }
}
