# Arbitrage bot core, modelled in Dafny

`main.py` is a Telegram bot that looks for crypto arbitrage. It asks eight
exchanges for the best bid and ask of a trading pair and finds the most
profitable "buy here, sell there" spread. It ranks the spreads of a fixed
watchlist. For chats that switch it on, it also runs a background watcher
that sends an alert when a new opportunity above the chat's threshold appears.

This project models the core of that program and proves what it does:

- `text.dfy`: the Python `str` operations the bot relies on (`strip`,
  `upper`, `lower`, `isalpha`, `startswith`/`endswith`, `index`, and string
  `<`).
- `pairs.dfy`: `to_usdt_pair` turns user text into a `BASE/USDT` pair.
  `norm_pair_for_exch` writes a pair in each exchange's own symbol syntax.
- `quotes.dfy`: `EXCHS` and `fetch_all`. The exchange adapters are an
  abstract `Quoter` function.
- `spread.dfy`: `best_spread`, the nested loop over ordered pairs of quotes.
- `ranking.dfy`: the data part of `do_top`. It collects the positive best
  spreads of `WATCHLIST`, sorts them in descending tuple order and keeps five.
- `sessions.dfy`: the per-chat session record, the button labels and
  `UI_WORDS`. It also holds what one inbound text does to a session: the
  branches of `handle_text` and the handlers they call. These are pure
  functions from the old session to the new session and the message sent.
- `watcher.dfy`: one pass of `autoscan_loop` for one chat. This covers the
  eligibility gate, the `last_scan` stamp, the watchlist sweep, the
  threshold and the `pair|bx|sx` de-duplication key.
- `bot.dfy`: the class `ArbBot`, which holds the mutable state. Its fields
  are the session store `STATE` (a map plus the order in which chats were
  first seen) and a ghost log of every message sent. Its methods are `st`,
  every handler, `handle_text` and one full watcher pass over all chats.
  Each method is proved to leave the store and the log exactly as the
  functions of `sessions.dfy` and `watcher.dfy` prescribe.

Prices and percentages are `real`. Messages are not rendered to text: an
`Outgoing` value names the template, its data, its language and its
keyboard.

Two points of the code that the model follows exactly:

- `do_top` sorts whole `(pct, pair, bx, sx, bp, sp)` tuples with
  `reverse=True`, so the model proves a non-increasing order in that tuple
  order. Ties on pct are broken by pair, then by the exchange names, then by
  the prices.
- The watcher keeps the first watchlist pair with the greatest positive pct
  and does not sort.

## Model

| member | source | states |
|---|---|---|
| `Pairs.ToUsdtPair` | main.py:201-213 | Text whose stripped, upper-cased form is a button label gives "". Any accepted result is `BASE/USDT` with exactly one slash, where `BASE` is a slash-free prefix of the stripped, upper-cased text. |
| `Pairs.UsdtPairOf` | main.py:203-213 | A button label (`UI_WORDS`) is never a pair. Any accepted text becomes `BASE/USDT` with exactly one slash, where `BASE` is a slash-free prefix of the upper-cased, stripped text. |
| `Pairs.UsdtPairWithSlash` | main.py:205-208 | Text containing a slash is always accepted. The base is everything before the first slash, and whatever quote was typed is replaced by USDT. |
| `Pairs.UsdtPairWithUsdtEnding` | main.py:209-210 | Text without a slash that ends in "USDT" is always accepted, and the base is the text minus that ending. |
| `Pairs.UsdtEndingSplit` | main.py:209-210 | `BASE` followed by "USDT" becomes exactly `BASE/USDT`. |
| `Pairs.UsdtPairPlain` | main.py:211-213 | Any other text is accepted exactly when it is 2 to 12 letters long, and the base is then the text itself. |
| `Pairs.EmptyRejected` | main.py:211-213 | Empty text is rejected. |
| `Pairs.AcceptedIsCanonical` | main.py:202-213 | An accepted pair is already upper case with no surrounding whitespace. |
| `Pairs.UsdtPairFixed` | main.py:201-213 | A canonical `BASE/USDT` that is not a button label normalises to itself. |
| `Pairs.ToUsdtPairIdempotent` | main.py:201-213 | Normalising an accepted pair again gives the same pair, as long as no button label contains a slash. |
| `Pairs.ToUsdtPairExampleWord` | main.py:211-212 | "btc" becomes "BTC/USDT". |
| `Pairs.ToUsdtPairExampleUsdtEnding` | main.py:209-210 | "ETHUSDT" becomes "ETH/USDT". |
| `Pairs.ToUsdtPairExampleSlash` | main.py:205-208 | "xrp/usd" becomes "XRP/USDT": the typed quote is dropped. |
| `Pairs.ToUsdtPairExampleDigits` | main.py:211-213 | " 12345 " is rejected: digits are not letters. |
| `Pairs.ToUsdtPairExampleBareSlash` | main.py:205-208 | "/" is accepted as "/USDT", a pair with an empty base. |
| `Pairs.ToUsdtPairExampleBareUsdt` | main.py:209-210 | "USDT" is accepted as "/USDT", a pair with an empty base. |
| `Pairs.NormPairForExch` | main.py:215-225 | The concatenating exchanges (binance, mexc, bitget, bybit and htx) give a rendering one character shorter than the pair. Every other key keeps the pair's length. It is defined only on pairs with exactly one slash, where `split("/")` unpacks into two names. |
| `Pairs.NormPairForExchShape` | main.py:215-225 | For binance, mexc, bitget and bybit, the slash is dropped and every other character keeps its order. For okx and kucoin it becomes `-`, and for gate `_`. For htx the concatenation is lower-cased. Any other key leaves the pair unchanged. |
| `Pairs.RenderingsOf` | main.py:215-224 | `BASE/USDT` renders as `BASEUSDT`, `BASE-USDT`, `BASE_USDT` and lower-case `baseusdt`. |
| `Pairs.UsdtPairRenderings` | main.py:201-225 | Every pair `to_usdt_pair` accepts has exactly one slash, so every exchange can render it. The four renderings are written in terms of its base. |
| `Pairs.NormPairExample` | main.py:217-218 | "BTC/USDT" renders as "BTCUSDT" on binance. |
| `Quotes.Responding` | main.py:320-330 | No more rows than exchanges asked, and every row has a positive bid and ask. |
| `Quotes.FetchAll` | main.py:320-330 | Returns the rows of the responding exchanges in `EXCHS` order. Every row has a positive bid and ask, and there are at most eight rows. |
| `Quotes.FetchFrom` | main.py:321-330 | The loop asks each exchange in turn, in its native symbol syntax. It keeps, in list order, the row of every exchange whose adapter answers with a positive bid and ask. |
| `Quotes.RespondingOrigins` | main.py:320-330 | The result is exactly the order-preserving filter. Row k comes from the k-th responding exchange, the positions increase, and no responding exchange is missed. |
| `Quotes.RespondingMembers` | main.py:320-330 | A row is in the result exactly when some exchange responded with that label, bid and ask. |
| `Quotes.RespondingExtremes` | main.py:320-330 | With no exchange answering the result is empty, and with all answering it has one row per exchange. |
| `Spread.BestSpread` | main.py:332-340 | The nested loop computes `Best`, whose meaning `BestIsFirstMax` states. |
| `Spread.BestIsFirstMax` | main.py:332-340 | The result's pct is at least 0 and at least every ordered pair's pct, self-pairs included. When it is 0 the result is `(0, "", "", 0, 0)`. Otherwise it is the first pair in (outer b, inner s) order reaching the maximum: buy on s at its ask, sell on b at its bid. |
| `Spread.BestNoneIff` | main.py:332-340 | The result is `(0, "", "", 0, 0)` exactly when no ordered pair has a positive pct. |
| `Spread.BestOfNothing` | main.py:333 | No rows give `(0, "", "", 0, 0)`. |
| `Spread.BestExample` | main.py:335-339 | Quotes A (100/101) and B (105/106) give "buy on A at 101, sell on B at 105", at 400/101 %. |
| `Ranking.Top` | main.py:487-496 | At most five lines are listed. |
| `Ranking.TopLines` | main.py:487-496 | `do_top`'s loop, sort and cut compute `Top`, whose meaning `TopIsBestFive` states. |
| `Ranking.WatchlistTop` | main.py:487-496 | The same, run over `WATCHLIST`. |
| `Ranking.TopIsBestFive` | main.py:487-496 | Every listed line has a positive pct. The list is non-increasing in tuple order and holds five lines, or all of them if fewer. It is drawn from the candidates, and no candidate left out beats a listed one. |
| `Ranking.TopEmptyIff` | main.py:491-495 | The "no spreads" reply is sent exactly when no watchlist pair has a positive best spread. |
| `Ranking.CandidatesMembers` | main.py:488-492 | A line is collected exactly when it is the positive best spread of a watchlist pair. |
| `Ranking.CandidatesPositive` | main.py:491-492 | Every collected line is positive, and there are no more lines than pairs. |
| `Ranking.CandidatesOnePerPair` | main.py:488-492 | For a list of distinct pairs, such as the watchlist, no two collected lines name the same pair. |
| `Ranking.CandidatesNamed` | main.py:488-492 | Every collected line names a pair of the scanned list. |
| `Ranking.WatchlistDistinct` | main.py:27-30 | No pair appears twice in the watchlist. |
| `Ranking.SortDesc` | main.py:493 | The sort is a permutation of its input. |
| `Ranking.SortDescSorted` | main.py:493 | The sort's result is non-increasing in tuple order. |
| `Ranking.SortedDescUnique` | main.py:493 | Two non-increasing lists with the same elements are equal, so the model's sort returns what `sort(reverse=True)` returns. |
| `Ranking.LessTransitive` | main.py:493 | Python's tuple `<` on these lines is transitive. |
| `Ranking.LessTotal` | main.py:493 | Any two lines are ordered one way or the other, or are equal. |
| `Ranking.TakeFiveOfSorted` | main.py:496 | `lines[:5]` of a sorted list is sorted, has at most five lines, and beats everything it cuts. |
| `Ranking.WatchlistRenderable` | main.py:27-30 | Every watchlist pair has exactly one slash. |
| `Sessions.Classify` | main.py:542-569 | A button label of the session's language is never taken for a typed pair or an "info" request. Text that no check catches is passed on unchanged. |
| `Sessions.ChangePair` | main.py:471-483 | Only the pair and the wait may change. Without text it starts waiting for a pair and asks for one. Non-empty text that `to_usdt_pair` accepts is set, ends the wait and is confirmed. Rejected text leaves the session as it was and gets the "bad pair" reply. |
| `Sessions.AskLanguage` | main.py:508-511 | Starts waiting for a language and changes nothing else. The language prompt goes out in the chat's language with the language buttons. |
| `Sessions.ToggleAuto` | main.py:503-506 | `auto` flips and nothing else changes. The reply reports the new state, with the main keyboard for it. |
| `Sessions.SetLanguage` | main.py:513-519 | The wait ends and nothing else but the language changes. The language changes only on an English, Russian or Uzbek button, and the reply is in the resulting language. |
| `Sessions.TypedPair` | main.py:571-579 | Text that `to_usdt_pair` accepts is stored as the pair, ends any wait and is confirmed. Any other text leaves the session unchanged and asks for a pair. |
| `Sessions.TypedPairStable` | main.py:571-576 | Typing the stored pair again leaves the session as it is. |
| `Sessions.Dispatch` | main.py:528-579 | Handling a text never touches `last_scan`, `threshold` or `auto_last_key`, and it keeps a one-slash pair one-slash. |
| `Sessions.Execute` | main.py:542-579 | The same holds for each command branch. |
| `Sessions.DispatchLanguage` | main.py:534-535 | While a language is awaited, the language changes only on an exact English, Russian or Uzbek button. The wait always ends, nothing else changes, and the home screen is sent in the resulting language. |
| `Sessions.DispatchPairInput` | main.py:538-539 | While a pair is awaited, text `to_usdt_pair` accepts becomes the pair and ends the wait. Any other text leaves the session unchanged. It asks again exactly when the stripped text is empty, and complains otherwise. |
| `Sessions.DispatchChangePairButton` | main.py:551-552 | With nothing awaited, the Change Pair label of the chat's language starts waiting for a pair. Nothing else changes, and the bot asks for a pair. |
| `Sessions.DispatchLanguageButton` | main.py:557-558 | With nothing awaited, the Language label starts waiting for a language. Nothing else changes, and the bot shows the language buttons. |
| `Sessions.ChangePairRoundTrip` | main.py:538-552 | Change Pair followed by text that `to_usdt_pair` accepts leaves the session as it was before the button, except for the new pair. |
| `Sessions.LanguageRoundTrip` | main.py:534-558 | Language followed by the English, Russian or Uzbek button leaves the session as it was before, except for the chosen language. |
| `Sessions.MenuLabels` | main.py:542-558 | Each language's Change Pair and Language labels survive `strip` and are caught by no earlier command check. |
| `Sessions.DispatchToggle` | main.py:563-564 | Either Auto button of the chat's language flips `auto`, changes nothing else and reports the new state. |
| `Sessions.AutoLabels` | main.py:563-564 | Each language's Auto labels survive `strip` and are caught by no earlier command check. |
| `Sessions.DispatchAutoOnlyByButton` | main.py:528-579 | `auto` changes only when nothing is awaited and the text is an Auto button. |
| `Sessions.DefaultPairRenderable` | main.py:184-193 | The default session's pair has exactly one slash. |
| `Watcher.Alert` | main.py:628-642 | Only `auto_last_key` may change, and it changes exactly when the two alert messages go out. Alerts go out only at or above the chat's threshold. |
| `Watcher.Tick` | main.py:609-642 | Only `last_scan` and `auto_last_key` may change, and only a due chat hears anything. |
| `Watcher.ScanWatchlist` | main.py:618-626 | The sweep loop computes `WatchScan`, whose meaning `WatchScanIsFirstBest` states. |
| `Watcher.WatchlistSweep` | main.py:618-626 | The same, over `WATCHLIST`. |
| `Watcher.PickIsFirstBest` | main.py:618-626 | The running best is never negative and no offer beats it. Rows are kept exactly when it is positive, and it is then the first offer with the greatest pct. Otherwise it is the starting tuple. |
| `Watcher.WatchScanIsFirstBest` | main.py:618-626 | No watchlist pair's best spread beats the sweep's line. When positive, it is the line of the first pair reaching the maximum, with that pair's non-empty rows. |
| `Watcher.TickNotDue` | main.py:610-613 | A chat with auto off, or scanned less than `SCAN_PERIOD` ago, is unchanged and hears nothing. |
| `Watcher.TickStamps` | main.py:615 | A due chat gets `last_scan = now`. Nothing else changes except `auto_last_key`, which changes exactly when an alert is sent. |
| `Watcher.TickAlertIff` | main.py:628-642 | An alert goes out exactly when the chat is due, the best pct reaches the threshold with rows behind it, and the key `pair\|bx\|sx` differs from the last one. It is the opportunity followed by its table, and the key is remembered. |
| `Watcher.TickNoRepeat` | main.py:632-635 | After an alert, the next pass sends nothing if its best has the same key, whatever its pct. |
| `Watcher.AlertSequenceExample` | main.py:628-642 | The alert at 1.0 % is sent. The same crossing at 1.5 % is not sent again. A new crossing at 0.8 % is sent. |
| `Watcher.SilentWhenOff` | main.py:610-611 | A chat with auto off stays unchanged and silent through any number of passes. |
| `Bot.ArbBot.constructor` | main.py:181 | The store starts empty. |
| `Bot.ArbBot.St` | main.py:183-194 | `st` creates the default record on first contact, returns the record, and changes nothing else. |
| `Bot.ArbBot.Send` | main.py:171-174 | Sending appends one message to the log and changes no session. |
| `Bot.ArbBot.ShowHome` | main.py:459-463 | `show_home` sends the home screen and changes no session. |
| `Bot.ArbBot.DoScan` | main.py:465-469 | `do_scan` sends the table of quotes, or "no quotes" when none answered. |
| `Bot.ArbBot.DoChangePair` | main.py:471-483 | `do_change_pair` updates the record and sends the reply `ChangePair` prescribes. |
| `Bot.ArbBot.DoTop` | main.py:485-501 | `do_top` sends the ranking, or "no spreads", and changes no session. |
| `Bot.ArbBot.ToggleAuto` | main.py:503-506 | `toggle_auto` flips `auto` in the store and reports the new state. |
| `Bot.ArbBot.AskLanguage` | main.py:508-511 | `ask_language` starts waiting for a language and sends the language keyboard. |
| `Bot.ArbBot.SetLanguageByButton` | main.py:513-519 | `set_language_by_button` updates the store and shows home as `SetLanguage` prescribes. |
| `Bot.ArbBot.DoNewTokens` | main.py:521-524 | `do_new_tokens` sends the listing and changes no session. |
| `Bot.ArbBot.HandleText` | main.py:528-579 | Only the sender's record changes, created first if new, and exactly one message is sent to it. Both are what `Dispatch` prescribes, and the store stays well formed. |
| `Bot.ArbBot.Execute` | main.py:542-579 | Each command branch updates the store and the log as `Sessions.Execute` prescribes. |
| `Bot.ArbBot.TypedPair` | main.py:571-579 | A typed pair `to_usdt_pair` accepts is stored; otherwise the bot asks for a pair. |
| `Bot.ArbBot.TickChat` | main.py:609-642 | One chat's pass leaves the store and the log as `Tick` prescribes. |
| `Bot.ArbBot.ScanFor` | main.py:615-642 | A due chat is stamped, the watchlist is swept, and the result is whatever `Alert` decides. |
| `Bot.ArbBot.AlertChat` | main.py:628-642 | The threshold filter, the de-duplication key and the two messages. |
| `Bot.ArbBot.AutoscanTick` | main.py:608-642 | One pass visits every chat in first-seen order and adds or removes none. Each record becomes its `Tick`, and the alerts go out chat by chat. |
| `Bot.TickedAt` | main.py:609-642 | After a pass, every visited chat holds its ticked record and any other chat its old one. |
| `Bot.AlertsFromDueChats` | main.py:609-642 | Every alert of a pass goes to a due chat, in that chat's language, with the main keyboard showing auto on. |

## Left out

- Exchange adapters (`q_binance` … `q_gate`): their HTTP requests and JSON parsing are a `Quoter` parameter. An exception, a missing price or a non-positive price is "no answer".
- Telegram I/O (`tg`, `send`, `get_updates`, `poll_loop`): sending is a ghost log of (chat, message). The poller's offset bookkeeping and its filter on non-empty texts are not part of this model. Sends never fail here. In the code, `tg` lets an error from `requests.post` propagate (main.py:163), and `autoscan_loop` has no `try` around its pass (main.py:604-642). So one failed alert send ends the watcher thread for every chat, and by then `auto_last_key` is already stored (main.py:635).
- CoinPaprika (`render_new_tokens`, `render_info_for`): the "new tokens" and "info SYMBOL" replies are abstract messages carrying only the symbol.
- Message formatting (`render_table`, `fmt_price`, `fmt_usd`, the `LANGS` templates) and keyboard layout (`main_kb`, `lang_kb`) are described, not rendered.
- Threads, the Flask keep-alive endpoint and the `time.sleep` timers: each handler and each watcher pass is one atomic step. Interleavings between the poller and the watcher thread are not modelled.
- Floating point: prices and percentages are exact reals, so rounding in `(b - s) / s * 100` is not modelled.
- `Text.Upper`: only ASCII letters are upper-cased. Python also maps other scripts. A Cyrillic label is therefore not upper-cased here, but it is still rejected by `to_usdt_pair` because it is not ASCII alphabetic. A non-ASCII base typed with a slash or a "USDT" ending keeps its case here: "é/usdt" gives "é/USDT", where Python gives "É/USDT". The "/start" check is ASCII only as well. Python upper-cases "/ſtart" (with the long s) to "/START" and shows the home screen. Here that text is typed input, so `TypedPair` stores the pair "/USDT".
- `Text.IsAlpha`: only ASCII letters count as letters. Text of 2 to 12 non-ASCII letters that Python accepts as a base is rejected here.
- `Text.Lower`: only ASCII letters are lower-cased. The htx rendering is exact for ASCII bases: the watchlist, the default pair and every pair typed in ASCII. A non-ASCII upper-case base accepted through the slash or "USDT" branch renders differently: "É/USDT" gives "Éusdt" here, where Python gives "éusdt".
- `Sessions.UI_WORDS`: written out as the literal upper-cased labels of the three languages rather than computed from `LANGS`.
- `Bot.ArbBot.AutoscanTick`: every chat in one pass sees the same quotes, whereas the program fetches them again for each due chat.
- `Pairs.NormPairForExch`: requires exactly one slash. The program raises `ValueError` otherwise, uncaught in `fetch_all`. Every pair the bot stores or lists has one slash, and `Bot.ArbBot.Valid` keeps it so.
- Sessions are immutable values updated in the store map, not dicts aliased between `st` callers. In-place aliasing is not modelled.
