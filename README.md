# StockWatch price-alert engine in Dafny

This project models the alert logic of the two StockWatch Pro dashboards,
`streamlit_app.py` and `app.py`. Each dashboard polls a quote service on every
refresh and walks its watchlist in order. For each stock it:

1. skips a quote with no current price, or a current price of zero;
2. picks a reference price: the day open, else the previous close, else the current price;
3. computes the percent change, which is exactly 0 when the reference is 0;
4. records the price in the symbol's history, but only if it differs from the last stored price.
   The history holds at most 200 prices, and the oldest is dropped first;
5. raises an alert when `|change| >= threshold`, but only if more than 600 seconds have passed
   since the symbol's last alert. A symbol that never alerted counts from time 0.
   Firing stamps the time and appends a record. The record's currency is "£" for tickers
   ending in ".L" and "$" for all others.

Beside the loop, the project models the watchlist and recipient edits that the sidebars
make in place:

- adding a stock: the ticker is upper-cased and stripped, ticker and name are both required,
  and a duplicate ticker is refused;
- changing a threshold;
- deleting the marked entries, popping them from the highest index down;
- adding and deleting recipients;
- the two "Reset to Defaults" buttons.

It also models the phone-number cleaning behind the GREEN API chat id and the wa.me link.

Layout:

- `alerts.dfy` (module `Alerts`): the loop as pure functions. `Observe` is one watchlist
  entry's turn. `Sweep` is a whole refresh. The module also holds the lemmas about both.
- `history.dfy` (module `PriceHistory`): the bounded, de-duplicated price history.
- `session.dfy` (module `Dashboard`): class `Session` holds the session state
  (`stocks`, `recipients`, `priceHistory`, `alertsSent`). Its methods change that state in place.
  `RunAlerts` is the imperative loop, proved equal to `Sweep`. `Valid()` says every history is
  well-formed, and each method preserves it. Unique tickers are not required, because a loaded
  or uploaded configuration may repeat a ticker; the watchlist methods keep uniqueness where it
  already holds, and the resets establish it.
- `watchlist.dfy` (module `Watchlist`): the add-stock rule, ticker normalisation and the
  default watchlists.
- `lists.dfy` (module `Lists`): deleting the marked indices by popping in descending order.
- `text.dfy`, `phone.dfy`, `wrappers.dfy`: Python string helpers, phone cleaning, and `Option`.

Both dashboards run the same loop. The only difference is the order of two independent
steps: app.py records the history before it computes the reference. So one model serves both.
Where the dashboards really differ, each has its own member:

- default watchlists: `StreamlitDefaults` and `LinkDefaults`;
- reset: `ResetConfig` and `ResetWatchlist`;
- phone output: `GreenApiChatId` and `WaMeLink`.

A symbol that never alerted counts from time 0 (`alerts_sent.get(sym, 0)`), so a first
breach fires only when `now > 600`. With Unix time this always holds. `DebounceScenario`
replays a breach sequence on a Unix-like clock, and `FirstBreachNeedsClockPast600` shows
that a first breach at clock time 10 is held back.

## Model

| member | source | states |
|---|---|---|
| Alerts.PctChange | streamlit_app.py:157-158 | a zero reference gives exactly 0.0; otherwise the result times the reference equals (current - reference) * 100 |
| Alerts.PctChangeSign | app.py:196-199 | with a positive reference the change is positive iff the price rose, and zero iff it did not move |
| Alerts.ReferencePrice | streamlit_app.py:500-502 | the reference is the day open if it is a non-zero number, else the previous close if that is, else the current price |
| Alerts.MissingPrevCloseMeansPrice | app.py:332 | a missing `pc` defaults to the current price |
| Alerts.ReferenceNeverZero | streamlit_app.py:499-503 | inside the loop the reference is never zero, so the zero guard of `pct_change` is never what decides the change there |
| Alerts.NoPriceNoEffect | streamlit_app.py:499 | a quote whose `c` is missing, null or 0 leaves history and `alerts_sent` unchanged and raises nothing |
| Alerts.Observe | app.py:330-358 | one entry's turn changes the history and last-alert time of its own symbol only; no other symbol's entries are touched |
| Alerts.ObserveFiresIff | streamlit_app.py:499-523 | with a price, the history is always recorded; an alert fires iff `abs(change) >= alert_pct` and `now - last > 600`; firing sets `alerts_sent[sym] := now` and yields the record with the entry's name, threshold and currency; not firing leaves `alerts_sent` unchanged |
| Alerts.ThresholdIsInclusive | streamlit_app.py:511 | a change exactly equal to the threshold, up or down, is a breach; 100 to 102 against 2% is one |
| Alerts.DebounceBoundary | streamlit_app.py:512-513 | exactly 600 s after the last alert is still debounced; any later instant is not |
| Alerts.NeverAlertedCountsFromZero | app.py:347-348 | for a symbol with no recorded alert the window has passed iff `now > 600` |
| Alerts.FiredChangeIsNonZero | streamlit_app.py:170 | with a positive threshold a fired alert's change is non-zero; with a positive reference its word is "UP" exactly when the price rose above the reference and "DOWN" exactly when it fell below it |
| Alerts.PriceOnlyQuoteNeverFires | app.py:342-345 | when neither open nor previous close is usable, the reference is the price itself and nothing fires against a positive threshold |
| Alerts.Currency | streamlit_app.py:515 | the currency is "£" or "$", and "£" exactly when the ticker ends with ".L" |
| Alerts.Direction | streamlit_app.py:170 | the direction word is "UP" or "DOWN", and "UP" exactly when the change is positive |
| Alerts.CurrencyBySuffix | streamlit_app.py:515 | every London ticker, any code followed by ".L", is priced in pounds |
| Alerts.Sweep | app.py:325-358 | a refresh raises at most one alert per watchlist entry |
| Alerts.SweepStaysOnWatchlist | app.py:325-358 | every alert of a refresh is for a watchlist ticker, and only symbols already tracked or on the watchlist appear in the new history and `alerts_sent` |
| Alerts.SweepFiresIff | streamlit_app.py:494-523 | on a watchlist without repeated tickers, an entry has an alert in the refresh exactly when its own turn, taken from the starting state, fires, so every breaching entry whose window has passed is reported |
| Alerts.SweepSettlesEachEntry | streamlit_app.py:505-523 | on a watchlist without repeated tickers, each entry's ticker ends the refresh with the history and last-alert time its own turn from the starting state gives it, and the record that turn fires (name, price, change, threshold, currency) is among the refresh's alerts |
| Alerts.SweepLeavesOthersAlone | app.py:325-358 | a refresh leaves history and last-alert time of every symbol not on the watchlist unchanged |
| Alerts.SweepKeepsHistoriesWellFormed | app.py:334-339 | a refresh keeps every history at most 200 long with no two neighbouring prices equal |
| Alerts.SweepAlertsInWatchlistOrder | streamlit_app.py:494-523 | the tickers of a refresh's alerts are a subsequence of the watchlist's tickers, in watchlist order |
| Alerts.SweepAlertsOncePerTicker | streamlit_app.py:511-523 | a refresh holds at most one record per ticker, even with a ticker listed twice, and every alerting ticker is stamped with `now` |
| Alerts.DebounceScenario | streamlit_app.py:511-514 | a 2% watch opening at 100: no move, +3% fires, +4% 290 s later is debounced, +5% 605 s after the first alert fires; history is 100, 103, 104, 105 |
| Alerts.FirstBreachNeedsClockPast600 | streamlit_app.py:512-513 | a first breach at clock time 10 does not fire, because a missing last-alert time reads as 0 |
| PriceHistory.Record | streamlit_app.py:505-509 | after an observation the history ends with the price and, if it was within 200, stays within 200 |
| PriceHistory.RecordKeepsNewest | app.py:335-339 | a price equal to the last stored one is not stored again; a new one yields the newest 200 of the history plus the price |
| PriceHistory.RecordEvictsOldest | streamlit_app.py:508-509 | on overflow only the oldest entry is removed and the new price is appended |
| PriceHistory.RecordKeepsWellFormed | streamlit_app.py:505-509 | recording keeps a history bounded and free of neighbouring repeats |
| PriceHistory.RecordIdempotent | streamlit_app.py:506 | observing the same price again leaves the history unchanged |
| PriceHistory.FeedKeepsNewest | streamlit_app.py:505-509 | feeding any run of prices without neighbouring repeats leaves exactly the newest 200 prices seen, oldest evicted first |
| PriceHistory.FeedRepeatedPrice | app.py:336-337 | feeding the same price k >= 1 times stores it at most once |
| Dashboard.Session.constructor | app.py:155-160 | a session starts with the given watchlist, which may repeat a ticker, and empty history and debounce maps |
| Dashboard.Session.RecordPrice | app.py:335-339 | the in-place append and `pop(0)` leave the symbol's history equal to `Record` of the old one, no other symbol's history changes, and every history stays well-formed |
| Dashboard.Session.RunAlerts | streamlit_app.py:494-523 | the loop's new history, new `alerts_sent` and `alerts_triggered` are exactly those of `Sweep`, and the session invariant is kept |
| Dashboard.Session.AddStock | streamlit_app.py:383-394 | the add rule decides; an admitted stock is appended at the end, and otherwise the list is unchanged; unique tickers stay unique |
| Dashboard.Session.SetThreshold | app.py:278-285 | editing a threshold changes only that entry's `alert_pct` |
| Dashboard.Session.RemoveStocks | app.py:291-292 | popping the marked indices leaves the watchlist without exactly those entries, in order; unique tickers stay unique |
| Dashboard.Session.AddRecipient | streamlit_app.py:355-360 | a recipient is added iff name and phone were both typed, and is stored stripped at the end |
| Dashboard.Session.RemoveRecipients | streamlit_app.py:347-348 | popping the marked recipients leaves exactly the unmarked ones, in order |
| Dashboard.Session.ResetConfig | streamlit_app.py:417-420 | reset restores streamlit_app.py's default watchlist, whose tickers are unique, clears recipients, and empties history and `alerts_sent` |
| Dashboard.Session.ResetWatchlist | app.py:297-300 | reset restores app.py's default watchlist, whose tickers are unique, and empties history and `alerts_sent` |
| Watchlist.Admit | app.py:252-268 | an empty normalised ticker or empty name is refused; a ticker already listed is refused; otherwise the entry admitted is (normalised ticker, name, threshold) and its ticker is not yet listed |
| Watchlist.AdmitKeepsUnique | app.py:257-262 | adding keeps tickers unique, and the entry appended is (normalised ticker, name, threshold) |
| Watchlist.AdmitTwiceIsRefused | streamlit_app.py:388-392 | submitting the same stock a second time finds it already listed |
| Watchlist.NormalizeTicker | app.py:252 | `upper().strip()` leaves no lower-case ASCII letter and no whitespace at either end |
| Watchlist.NormalizeTickerShape | streamlit_app.py:383 | normalising a normalised ticker changes nothing |
| Watchlist.WithoutKeepsUnique | streamlit_app.py:412-413 | deleting watchlist entries keeps tickers unique |
| Watchlist.DefaultsAreUnique | streamlit_app.py:89-94 | both default watchlists have distinct tickers |
| Lists.PopMarked | streamlit_app.py:412-413 | popping ascending marked indices from the highest down returns the list without exactly those entries, the rest in their original order |
| Lists.RemoveAt | app.py:292 | `pop(i)` shortens the list by one, keeps the entries before `i`, and shifts those after it down by one |
| Lists.PopBelowMarks | app.py:291-292 | once every higher marked index is gone, `pop(m)` removes exactly the entry originally at `m` |
| Text.StripIsSlice | streamlit_app.py:383 | `strip()` returns the slice of the input left after cutting whitespace from both ends |
| Text.Strip | streamlit_app.py:357 | what `strip()` returns is no longer than its input and has no whitespace at either end |
| Text.StripIdempotent | streamlit_app.py:357 | stripping twice is stripping once |
| Text.UpperChar | streamlit_app.py:383 | a lower-case ASCII letter becomes the capital 32 code points below it; every other character is kept |
| Text.Upper | app.py:252 | `upper()` keeps the length and upper-cases each ASCII letter, leaving other characters alone |
| Text.RemoveChar | streamlit_app.py:163 | `replace(c, "")` leaves no `c`, keeps the count of every other character, and maps a single character to itself unless it is `c` |
| Text.RemoveCharAppend | app.py:203 | removing `c` from a concatenation is removing it from each part, in order; with the single-character case this fixes the result as the other characters in their original order |
| Text.EndsWithIffSplit | app.py:350 | `endswith(suffix)` holds iff the string is some prefix followed by the suffix |
| Phone.CleanPhone | streamlit_app.py:163 | the cleaned number has no '+', ' ' or '-', keeps the count of every other character, and maps a single character to itself unless it is a separator |
| Phone.CleanPhoneAppend | app.py:203 | cleaning a concatenation cleans each part and keeps the parts in order, so the kept characters keep their order |
| Phone.CleanPhoneIdempotent | app.py:203 | cleaning a cleaned number changes nothing |
| Phone.GreenApiChatId | streamlit_app.py:161-164 | the chat id has no '+', ' ' or '-' and ends in "@c.us" |
| Phone.GreenApiChatIdShape | streamlit_app.py:164 | the chat id without "@c.us" is the cleaned number, so two numbers share a chat id exactly when they clean to the same digits |
| Phone.WaMeLink | app.py:202-205 | the link starts with "https://wa.me/" and ends with the encoded message |
| Phone.WaMeLinkShape | app.py:202-205 | the link is "https://wa.me/" + cleaned number + "?text=" followed by the encoded message |

## Left out

- The Streamlit UI (CSS, widgets, forms, `st.rerun`, the `st.session_state` plumbing): the session state is the explicit `Dashboard.Session` object.
- `get_quote` (HTTP with an 8 s timeout and a 30 s cache) and app.py's `search_symbol` (HTTP with an 8 s timeout and a 3600 s cache): the quotes of one refresh are a parameter `map<string, Quote>`, and a failed fetch is a missing key, i.e. a quote without fields. The quote fields `h`, `l`, `d`, `dp` and `t` are not read by the alert rule and are not modelled.
- The GREEN API client, its QR and state calls, and `send_whatsapp_messages`: these are calls into a foreign library over the network.
- Loading, saving, uploading and downloading the JSON configuration, which is file I/O: `Dashboard.Session.constructor` takes the initial watchlist instead.
- `urllib.parse.quote`: `Phone.WaMeLink` takes the encoder as a function parameter and assumes nothing about it.
- `build_alert_message` and the alert and price cards: the number formatting (`:.2f`, `:.1f`) and the `datetime.now()` timestamp are float-to-text and wall-clock work. Only the UP/DOWN choice is modelled, as `Alerts.Direction`.
- Floating point: prices, changes and thresholds are exact reals, so IEEE rounding is not modelled.
- The clock: one `now` per refresh is a parameter. The source calls `time.time()` twice, once to compare and once to store.
- Dashboard.Session.ResetConfig: also resets the GREEN API credentials and the refresh interval in streamlit_app.py; those settings are not fields of the model.
- app.py's single WhatsApp number field is not session state here: `Phone.WaMeLink` takes the number directly.
- Text.Upper: upper-cases ASCII letters only. Python's `str.upper` also maps non-ASCII letters, some of them to several characters.
- The threshold range [0.1, 50] is enforced by the number-input widget, not by the engine. It is not a precondition here. The lemmas that need a positive threshold say so.
- The pandas price-history table, the auto-refresh `time.sleep` and the cache clearing.

Behaviour kept as written: the recipient form checks name and phone before stripping them.
So a name made only of spaces is accepted and stored as the empty string
(`Dashboard.Session.AddRecipient`).
