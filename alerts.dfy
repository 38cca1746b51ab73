/**
 * The price-alert rule both dashboards run on every refresh, for each watchlist
 * entry in order: skip a quote without a price; pick a reference price; work out
 * the percent change; record the price in the symbol's history; and, when the
 * change reaches the entry's threshold and the symbol has not alerted in the last
 * ten minutes, stamp the time and emit an alert record.
 */
module Alerts {
  import opened Wrappers
  import opened Text
  import opened PriceHistory
  import opened Watchlist

  /** One field of the quote JSON: missing, `null`, or a number. */
  datatype Field = Absent | Null | Num(x: real)

  /** The quote fields the rule reads: current price `c`, day open `o`, previous close `pc`. */
  datatype Quote = Quote(c: Field, o: Field, pc: Field)

  /** What a failed fetch returns (`{"error": …}`): none of the fields. */
  const FetchFailed: Quote := Quote(Absent, Absent, Absent)

  /** The quote fetched for `sym`; a symbol the fetch failed for has none. */
  function QuoteFor(quotes: map<string, Quote>, sym: string): Quote {
    if sym in quotes then quotes[sym] else FetchFailed
  }

  /** Python truthiness of a JSON field: a number other than zero. */
  predicate Truthy(f: Field) {
    f.Num? && f.x != 0.0
  }

  /** `"c" in q and q["c"] and q["c"] != 0`. */
  predicate HasPrice(q: Quote) {
    Truthy(q.c)
  }

  /** `q.get(key, default)`: the field when the key is there (even as `null`), else the default. */
  function PyGet(f: Field, default: Field): Field {
    if f.Absent? then default else f
  }

  /** `a or b`. */
  function PyOr(a: Field, b: Field): Field {
    if Truthy(a) then a else b
  }

  /**
   * `ref = q.get("o") or q.get("pc", price) or price`: the day open if it is a non-zero
   * number, else the previous close if that is, else the current price.
   */
  function ReferencePrice(q: Quote, price: real): (ref: real)
    ensures Truthy(q.o) ==> ref == q.o.x
    ensures !Truthy(q.o) && Truthy(q.pc) ==> ref == q.pc.x
    ensures !Truthy(q.o) && !Truthy(q.pc) ==> ref == price
  {
    var prevClose := PyGet(q.pc, Num(price));
    PyOr(PyGet(q.o, Null), PyOr(prevClose, Num(price))).x
  }

  /** A missing previous close falls back to the current price, as `q.get("pc", price)` does. */
  lemma MissingPrevCloseMeansPrice(q: Quote, price: real)
    requires q.pc.Absent? && !Truthy(q.o)
    ensures ReferencePrice(q, price) == price
  {
  }

  /** Within the loop the price is non-zero, so the reference is never zero. */
  lemma ReferenceNeverZero(q: Quote)
    requires HasPrice(q)
    ensures ReferencePrice(q, q.c.x) != 0.0
  {
  }

  /** `pct_change`: the change from `reference` to `current` in percent of `reference`, or exactly 0 for a zero reference. */
  function PctChange(current: real, reference: real): (r: real)
    ensures reference == 0.0 ==> r == 0.0
    ensures reference != 0.0 ==> r * reference == (current - reference) * 100.0
  {
    if reference == 0.0 then 0.0 else ((current - reference) / reference) * 100.0
  }

  /** With a positive reference the change is positive exactly when the price rose, and zero exactly when it did not move. */
  lemma PctChangeSign(current: real, reference: real)
    requires reference > 0.0
    ensures PctChange(current, reference) > 0.0 <==> current > reference
    ensures PctChange(current, reference) == 0.0 <==> current == reference
  {
    var r := PctChange(current, reference);
    assert r * reference == (current - reference) * 100.0;
    if r > 0.0 {
      assert r * reference > 0.0;
    } else if r < 0.0 {
      assert r * reference < 0.0;
    }
  }

  function Abs(x: real): real {
    if x < 0.0 then -x else x
  }

  /** `abs(change) >= alert_pct`. */
  predicate IsBreach(change: real, threshold: real) {
    Abs(change) >= threshold
  }

  /** The debounce window in seconds. */
  const DebounceSeconds: real := 600.0

  /** `alerts_sent.get(sym, 0)`. */
  function LastAlert(sent: map<string, real>, sym: string): real {
    if sym in sent then sent[sym] else 0.0
  }

  /** `now - last > 600`: strictly more than the window has passed. */
  predicate DebounceElapsed(sent: map<string, real>, sym: string, now: real) {
    now - LastAlert(sent, sym) > DebounceSeconds
  }

  /** The currency of an alert: pounds for a ticker ending in ".L", dollars for any other. */
  function Currency(sym: string): (cur: string)
    ensures cur == "£" || cur == "$"
    ensures cur == "£" <==> EndsWith(sym, ".L")
  {
    if EndsWith(sym, ".L") then "£" else "$"
  }

  /** Every London ticker, "<code>.L", is priced in pounds. */
  lemma CurrencyBySuffix(sym: string)
    ensures Currency(sym + ".L") == "£"
  {
    EndsWithAppended(sym, ".L");
  }

  /** The direction word of an alert message: "UP" exactly when the change is positive, "DOWN" otherwise. */
  function Direction(change: real): (word: string)
    ensures word == "UP" || word == "DOWN"
    ensures word == "UP" <==> change > 0.0
  {
    if change > 0.0 then "UP" else "DOWN"
  }

  /** One entry of `alerts_triggered`. */
  datatype AlertRecord = AlertRecord(
    symbol: string, name: string, price: real, change: real, threshold: real, currency: string)

  /** The session state the rule reads and writes: `price_history` and `alerts_sent`. */
  datatype Tracker = Tracker(history: map<string, seq<real>>, sent: map<string, real>)

  /** `price_history.setdefault(sym, [])` as a value. */
  function HistoryOf(history: map<string, seq<real>>, sym: string): seq<real> {
    if sym in history then history[sym] else []
  }

  /** Every stored history is bounded and free of neighbouring repeats. */
  predicate HistoriesWellFormed(history: map<string, seq<real>>) {
    forall sym :: sym in history ==> WellFormed(history[sym])
  }

  /** What one watchlist entry's turn of the loop leaves behind. */
  datatype Step = Step(after: Tracker, fired: Option<AlertRecord>)

  /** One turn of the loop, for `stock` and its quote `q`, at time `now`. */
  function Observe(t: Tracker, stock: Stock, q: Quote, now: real): (s: Step)
    ensures forall sym :: sym != stock.symbol ==>
      HistoryOf(s.after.history, sym) == HistoryOf(t.history, sym)
      && (sym in s.after.sent <==> sym in t.sent)
      && LastAlert(s.after.sent, sym) == LastAlert(t.sent, sym)
    ensures s.after.history.Keys <= t.history.Keys + {stock.symbol}
    ensures s.after.sent.Keys <= t.sent.Keys + {stock.symbol}
  {
    if !HasPrice(q) then Step(t, None)
    else
      var sym := stock.symbol;
      var price := q.c.x;
      var change := PctChange(price, ReferencePrice(q, price));
      var history := t.history[sym := Record(HistoryOf(t.history, sym), price)];
      if IsBreach(change, stock.alertPct) && DebounceElapsed(t.sent, sym, now) then
        var alert := AlertRecord(sym, stock.name, price, change, stock.alertPct, Currency(sym));
        Step(Tracker(history, t.sent[sym := now]), Some(alert))
      else
        Step(Tracker(history, t.sent), None)
  }

  /** A quote without a price changes nothing and raises nothing. */
  lemma NoPriceNoEffect(t: Tracker, stock: Stock, q: Quote, now: real)
    requires !HasPrice(q)
    ensures Observe(t, stock, q, now) == Step(t, None)
  {
  }

  /**
   * With a price, the history is recorded whether or not anything fires; an alert fires
   * exactly when the change reaches the threshold and the window has passed; firing stamps
   * `now` and carries the entry's name and threshold; not firing leaves `alerts_sent` alone.
   */
  lemma ObserveFiresIff(t: Tracker, stock: Stock, q: Quote, now: real)
    requires HasPrice(q)
    ensures var s := Observe(t, stock, q, now);
      var price := q.c.x;
      var change := PctChange(price, ReferencePrice(q, price));
      && HistoryOf(s.after.history, stock.symbol) == Record(HistoryOf(t.history, stock.symbol), price)
      && (s.fired.Some? <==> Abs(change) >= stock.alertPct && now - LastAlert(t.sent, stock.symbol) > DebounceSeconds)
      && (s.fired.Some? ==>
            && s.after.sent == t.sent[stock.symbol := now]
            && s.fired.value == AlertRecord(stock.symbol, stock.name, price, change, stock.alertPct, Currency(stock.symbol)))
      && (s.fired.None? ==> s.after.sent == t.sent)
  {
  }

  /** A change of exactly the threshold, either way, is a breach; 100 to 102 against 2% is one. */
  lemma ThresholdIsInclusive(threshold: real)
    ensures IsBreach(threshold, threshold) && IsBreach(-threshold, threshold)
    ensures IsBreach(PctChange(102.0, 100.0), 2.0)
  {
  }

  /** Exactly 600 seconds after the last alert is still inside the window; any later instant is outside. */
  lemma DebounceBoundary(sent: map<string, real>, sym: string, last: real, delay: real)
    requires sym in sent && sent[sym] == last
    ensures !DebounceElapsed(sent, sym, last + DebounceSeconds)
    ensures delay > 0.0 ==> DebounceElapsed(sent, sym, last + DebounceSeconds + delay)
  {
  }

  /** A symbol that never alerted is treated as having alerted at time 0. */
  lemma NeverAlertedCountsFromZero(sent: map<string, real>, sym: string, now: real)
    requires sym !in sent
    ensures DebounceElapsed(sent, sym, now) <==> now > DebounceSeconds
  {
  }

  /**
   * With a positive threshold a fired alert has a non-zero change, and with a positive
   * reference its direction word is "UP" exactly when the price rose above the reference
   * and "DOWN" exactly when it fell below it.
   */
  lemma FiredChangeIsNonZero(t: Tracker, stock: Stock, q: Quote, now: real)
    requires stock.alertPct > 0.0
    requires Observe(t, stock, q, now).fired.Some?
    ensures Observe(t, stock, q, now).fired.value.change != 0.0
    ensures HasPrice(q)
    ensures var a := Observe(t, stock, q, now).fired.value;
      var ref := ReferencePrice(q, q.c.x);
      ref > 0.0 ==>
        && (Direction(a.change) == "UP" <==> q.c.x > ref)
        && (Direction(a.change) == "DOWN" <==> q.c.x < ref)
  {
    var ref := ReferencePrice(q, q.c.x);
    if ref > 0.0 {
      PctChangeSign(q.c.x, ref);
    }
  }

  /** A quote that only has a current price (no usable open or close) never fires against a positive threshold. */
  lemma PriceOnlyQuoteNeverFires(t: Tracker, stock: Stock, q: Quote, now: real)
    requires stock.alertPct > 0.0 && HasPrice(q) && !Truthy(q.o) && !Truthy(q.pc)
    ensures Observe(t, stock, q, now).fired.None?
  {
  }

  /** The state after a whole refresh and the alerts it raised, in the order raised. */
  datatype Pass = Pass(after: Tracker, alerts: seq<AlertRecord>)

  /**
   * Every alert of `p` is for a watchlist ticker, and the only symbols that enter the
   * history and `alerts_sent` are watchlist tickers.
   */
  predicate StaysOnWatchlist(t: Tracker, stocks: seq<Stock>, p: Pass) {
    && (forall i :: 0 <= i < |p.alerts| ==> p.alerts[i].symbol in Symbols(stocks))
    && (forall sym :: sym in p.after.history ==> sym in t.history || sym in Symbols(stocks))
    && (forall sym :: sym in p.after.sent ==> sym in t.sent || sym in Symbols(stocks))
  }

  /** The whole loop: `Observe` for every watchlist entry in order, collecting the alerts. */
  function Sweep(t: Tracker, stocks: seq<Stock>, quotes: map<string, Quote>, now: real): (p: Pass)
    ensures |p.alerts| <= |stocks|
    decreases |stocks|
  {
    if stocks == [] then Pass(t, [])
    else
      var before := Sweep(t, stocks[..|stocks| - 1], quotes, now);
      var last := stocks[|stocks| - 1];
      var step := Observe(before.after, last, QuoteFor(quotes, last.symbol), now);
      Pass(step.after, before.alerts + ToSeq(step.fired))
  }

  /** The refresh of the first `i + 1` entries is the refresh of the first `i` followed by entry `i`'s turn. */
  lemma SweepPrefixStep(t: Tracker, stocks: seq<Stock>, quotes: map<string, Quote>, now: real, i: nat)
    requires i < |stocks|
    ensures var before := Sweep(t, stocks[..i], quotes, now);
      var step := Observe(before.after, stocks[i], QuoteFor(quotes, stocks[i].symbol), now);
      Sweep(t, stocks[..i + 1], quotes, now) == Pass(step.after, before.alerts + ToSeq(step.fired))
  {
    assert stocks[..i + 1][..i] == stocks[..i];
  }

  /**
   * Every alert of a refresh is for a watchlist ticker, and the only new symbols in the
   * history and in `alerts_sent` are watchlist tickers.
   */
  lemma {:induction false} SweepStaysOnWatchlist(
    t: Tracker, stocks: seq<Stock>, quotes: map<string, Quote>, now: real)
    ensures StaysOnWatchlist(t, stocks, Sweep(t, stocks, quotes, now))
    decreases |stocks|
  {
    if stocks != [] {
      var front := stocks[..|stocks| - 1];
      SweepStaysOnWatchlist(t, front, quotes, now);
      var before := Sweep(t, front, quotes, now);
      assert StaysOnWatchlist(t, front, before);
      var last := stocks[|stocks| - 1];
      var step := Observe(before.after, last, QuoteFor(quotes, last.symbol), now);
      var p := Sweep(t, stocks, quotes, now);
      assert p.alerts == before.alerts + ToSeq(step.fired) && p.after == step.after;
      assert Symbols(front) == Symbols(stocks)[..|stocks| - 1];
      assert last.symbol == Symbols(stocks)[|stocks| - 1];
      assert forall sym :: sym in Symbols(front) ==> sym in Symbols(stocks);
    }
  }

  /** A refresh leaves the history and the last alert time of every symbol off the watchlist as they were. */
  lemma {:induction false} SweepLeavesOthersAlone(
    t: Tracker, stocks: seq<Stock>, quotes: map<string, Quote>, now: real, sym: string)
    requires sym !in Symbols(stocks)
    ensures var p := Sweep(t, stocks, quotes, now);
      && HistoryOf(p.after.history, sym) == HistoryOf(t.history, sym)
      && (sym in p.after.sent <==> sym in t.sent)
      && LastAlert(p.after.sent, sym) == LastAlert(t.sent, sym)
    decreases |stocks|
  {
    if stocks != [] {
      var front := stocks[..|stocks| - 1];
      assert Symbols(front) == Symbols(stocks)[..|stocks| - 1];
      SweepLeavesOthersAlone(t, front, quotes, now, sym);
    }
  }

  /** A refresh keeps every stored history bounded by 200 and free of neighbouring repeats. */
  lemma {:induction false} SweepKeepsHistoriesWellFormed(
    t: Tracker, stocks: seq<Stock>, quotes: map<string, Quote>, now: real)
    requires HistoriesWellFormed(t.history)
    ensures HistoriesWellFormed(Sweep(t, stocks, quotes, now).after.history)
    decreases |stocks|
  {
    if stocks != [] {
      var front := stocks[..|stocks| - 1];
      SweepKeepsHistoriesWellFormed(t, front, quotes, now);
      var before := Sweep(t, front, quotes, now).after;
      var last := stocks[|stocks| - 1];
      var q := QuoteFor(quotes, last.symbol);
      if HasPrice(q) {
        RecordKeepsWellFormed(HistoryOf(before.history, last.symbol), q.c.x);
      }
    }
  }

  /**
   * The tickers of `alerts` can be obtained from the tickers of `stocks` by deleting entries:
   * they appear in watchlist order.
   */
  predicate InWatchlistOrder(alerts: seq<AlertRecord>, stocks: seq<Stock>)
    decreases |stocks|
  {
    || alerts == []
    || (&& stocks != []
        && ((&& alerts[|alerts| - 1].symbol == stocks[|stocks| - 1].symbol
             && InWatchlistOrder(alerts[..|alerts| - 1], stocks[..|stocks| - 1]))
            || InWatchlistOrder(alerts, stocks[..|stocks| - 1])))
  }

  /** An alert for the last watchlist entry may follow alerts in the order of the entries before it. */
  lemma InWatchlistOrderExtend(alerts: seq<AlertRecord>, stocks: seq<Stock>, a: AlertRecord)
    requires stocks != [] && a.symbol == stocks[|stocks| - 1].symbol
    requires InWatchlistOrder(alerts, stocks[..|stocks| - 1])
    ensures InWatchlistOrder(alerts + [a], stocks)
  {
    assert (alerts + [a])[..|alerts|] == alerts;
  }

  /** Alerts in the order of the first entries are in the order of the whole watchlist. */
  lemma InWatchlistOrderWiden(alerts: seq<AlertRecord>, stocks: seq<Stock>)
    requires stocks != []
    requires InWatchlistOrder(alerts, stocks[..|stocks| - 1])
    ensures InWatchlistOrder(alerts, stocks)
  {
  }

  /** The alerts of a refresh come in watchlist order. */
  lemma {:induction false} SweepAlertsInWatchlistOrder(
    t: Tracker, stocks: seq<Stock>, quotes: map<string, Quote>, now: real)
    ensures InWatchlistOrder(Sweep(t, stocks, quotes, now).alerts, stocks)
    decreases |stocks|
  {
    if stocks != [] {
      var front := stocks[..|stocks| - 1];
      SweepAlertsInWatchlistOrder(t, front, quotes, now);
      var before := Sweep(t, front, quotes, now);
      var last := stocks[|stocks| - 1];
      var step := Observe(before.after, last, QuoteFor(quotes, last.symbol), now);
      assert Sweep(t, stocks, quotes, now).alerts == before.alerts + ToSeq(step.fired);
      if step.fired.Some? {
        InWatchlistOrderExtend(before.alerts, stocks, step.fired.value);
      } else {
        assert before.alerts + ToSeq(step.fired) == before.alerts;
        InWatchlistOrderWiden(before.alerts, stocks);
      }
    }
  }

  /** At most one alert per ticker, and every alerting ticker is stamped `now`. */
  predicate OncePerTicker(p: Pass, now: real) {
    && (forall i, j :: 0 <= i < j < |p.alerts| ==> p.alerts[i].symbol != p.alerts[j].symbol)
    && (forall i :: 0 <= i < |p.alerts| ==> p.alerts[i].symbol in p.after.sent
                                            && p.after.sent[p.alerts[i].symbol] == now)
  }

  /**
   * A refresh raises at most one alert per ticker, even if a ticker were listed twice (its
   * second turn finds it stamped `now` and is debounced), and every alerting ticker is
   * stamped with the refresh time.
   */
  lemma {:induction false} SweepAlertsOncePerTicker(
    t: Tracker, stocks: seq<Stock>, quotes: map<string, Quote>, now: real)
    ensures OncePerTicker(Sweep(t, stocks, quotes, now), now)
    decreases |stocks|
  {
    if stocks != [] {
      var front := stocks[..|stocks| - 1];
      SweepAlertsOncePerTicker(t, front, quotes, now);
      var before := Sweep(t, front, quotes, now);
      assert OncePerTicker(before, now);
      var last := stocks[|stocks| - 1];
      var q := QuoteFor(quotes, last.symbol);
      var step := Observe(before.after, last, q, now);
      var p := Sweep(t, stocks, quotes, now);
      assert p.alerts == before.alerts + ToSeq(step.fired) && p.after == step.after;
      if step.fired.Some? {
        ObserveFiresIff(before.after, last, q, now);
        assert LastAlert(before.after.sent, last.symbol) != now;
        forall i | 0 <= i < |before.alerts|
          ensures before.alerts[i].symbol != last.symbol
        {
          var sym := before.alerts[i].symbol;
          assert sym in before.after.sent && before.after.sent[sym] == now;
        }
      } else if HasPrice(q) {
        ObserveFiresIff(before.after, last, q, now);
      }
    }
  }

  /** Some record in `alerts` is for `sym`. */
  predicate Alerted(alerts: seq<AlertRecord>, sym: string) {
    exists i :: 0 <= i < |alerts| && alerts[i].symbol == sym
  }

  /**
   * Whether an entry fires depends only on its own quote and its own last-alert time, so it
   * is the same from any tracker that agrees with `t` on that symbol.
   */
  lemma ObserveFiresAlike(t: Tracker, u: Tracker, stock: Stock, q: Quote, now: real)
    requires LastAlert(u.sent, stock.symbol) == LastAlert(t.sent, stock.symbol)
    ensures Observe(u, stock, q, now).fired.Some? <==> Observe(t, stock, q, now).fired.Some?
  {
    if HasPrice(q) {
      ObserveFiresIff(t, stock, q, now);
      ObserveFiresIff(u, stock, q, now);
    }
  }

  /** Appending the alert of another ticker, or none, does not change whether `sym` alerted. */
  lemma AlertedBesides(alerts: seq<AlertRecord>, fired: Option<AlertRecord>, sym: string)
    requires fired.Some? ==> fired.value.symbol != sym
    ensures Alerted(alerts + ToSeq(fired), sym) <==> Alerted(alerts, sym)
  {
    var all := alerts + ToSeq(fired);
    if Alerted(all, sym) {
      var i :| 0 <= i < |all| && all[i].symbol == sym;
      assert i < |alerts| && alerts[i] == all[i];
    }
    if Alerted(alerts, sym) {
      var i :| 0 <= i < |alerts| && alerts[i].symbol == sym;
      assert all[i] == alerts[i];
    }
  }

  /**
   * The last entry of a watchlist whose ticker is listed nowhere before it alerts in the
   * refresh exactly when its turn, taken from the starting state, fires.
   */
  lemma SweepLastFiresIff(t: Tracker, stocks: seq<Stock>, quotes: map<string, Quote>, now: real)
    requires stocks != [] && stocks[|stocks| - 1].symbol !in Symbols(stocks[..|stocks| - 1])
    ensures var last := stocks[|stocks| - 1];
      (Alerted(Sweep(t, stocks, quotes, now).alerts, last.symbol)
       <==> Observe(t, last, QuoteFor(quotes, last.symbol), now).fired.Some?)
  {
    var front := stocks[..|stocks| - 1];
    var before := Sweep(t, front, quotes, now);
    var last := stocks[|stocks| - 1];
    var sym := last.symbol;
    var step := Observe(before.after, last, QuoteFor(quotes, sym), now);
    var p := Sweep(t, stocks, quotes, now);
    assert p.alerts == before.alerts + ToSeq(step.fired);
    SweepLeavesOthersAlone(t, front, quotes, now, sym);
    SweepStaysOnWatchlist(t, front, quotes, now);
    assert StaysOnWatchlist(t, front, before);
    assert !Alerted(before.alerts, sym);
    ObserveFiresAlike(t, before.after, last, QuoteFor(quotes, sym), now);
    if step.fired.Some? {
      assert p.alerts[|before.alerts|].symbol == sym;
    } else {
      assert p.alerts == before.alerts;
    }
  }

  /**
   * On a watchlist without repeated tickers, every entry is judged against the state the
   * refresh started from: entry `k` has an alert in the refresh exactly when its own turn,
   * taken from the starting state, fires.
   */
  lemma {:induction false} SweepFiresIff(
    t: Tracker, stocks: seq<Stock>, quotes: map<string, Quote>, now: real, k: nat)
    requires UniqueSymbols(stocks) && k < |stocks|
    ensures Alerted(Sweep(t, stocks, quotes, now).alerts, stocks[k].symbol)
        <==> Observe(t, stocks[k], QuoteFor(quotes, stocks[k].symbol), now).fired.Some?
    decreases |stocks|
  {
    var n := |stocks| - 1;
    var front := stocks[..n];
    if k == n {
      forall j | 0 <= j < n
        ensures Symbols(front)[j] != stocks[n].symbol
      {
        assert Symbols(front)[j] == stocks[j].symbol;
      }
      SweepLastFiresIff(t, stocks, quotes, now);
    } else {
      var before := Sweep(t, front, quotes, now);
      var last := stocks[n];
      var step := Observe(before.after, last, QuoteFor(quotes, last.symbol), now);
      assert Sweep(t, stocks, quotes, now).alerts == before.alerts + ToSeq(step.fired);
      assert front[k] == stocks[k];
      SweepFiresIff(t, front, quotes, now, k);
      AlertedBesides(before.alerts, step.fired, stocks[k].symbol);
    }
  }

  /**
   * After a refresh, `sym` has the history and last-alert time its own turn `s` gives it, and
   * the record that turn fires, if any, is among the refresh's alerts.
   */
  predicate SettledAs(p: Pass, s: Step, sym: string) {
    && HistoryOf(p.after.history, sym) == HistoryOf(s.after.history, sym)
    && LastAlert(p.after.sent, sym) == LastAlert(s.after.sent, sym)
    && (s.fired.Some? ==> s.fired.value in p.alerts)
  }

  /** Two trackers that agree on `sym` give the same outcome for `sym`'s turn. */
  lemma ObserveAlike(t: Tracker, u: Tracker, stock: Stock, q: Quote, now: real)
    requires HistoryOf(u.history, stock.symbol) == HistoryOf(t.history, stock.symbol)
    requires LastAlert(u.sent, stock.symbol) == LastAlert(t.sent, stock.symbol)
    ensures var su, st := Observe(u, stock, q, now), Observe(t, stock, q, now);
      && su.fired == st.fired
      && HistoryOf(su.after.history, stock.symbol) == HistoryOf(st.after.history, stock.symbol)
      && LastAlert(su.after.sent, stock.symbol) == LastAlert(st.after.sent, stock.symbol)
  {
    if HasPrice(q) {
      ObserveFiresIff(t, stock, q, now);
      ObserveFiresIff(u, stock, q, now);
    }
  }

  /** The last entry of a watchlist whose ticker is listed nowhere before it settles as its own turn from the start. */
  lemma SweepLastSettles(t: Tracker, stocks: seq<Stock>, quotes: map<string, Quote>, now: real)
    requires stocks != [] && stocks[|stocks| - 1].symbol !in Symbols(stocks[..|stocks| - 1])
    ensures var last := stocks[|stocks| - 1];
      SettledAs(Sweep(t, stocks, quotes, now), Observe(t, last, QuoteFor(quotes, last.symbol), now), last.symbol)
  {
    var front := stocks[..|stocks| - 1];
    var before := Sweep(t, front, quotes, now);
    var last := stocks[|stocks| - 1];
    var sym := last.symbol;
    var q := QuoteFor(quotes, sym);
    var step := Observe(before.after, last, q, now);
    var p := Sweep(t, stocks, quotes, now);
    assert p.alerts == before.alerts + ToSeq(step.fired) && p.after == step.after;
    SweepLeavesOthersAlone(t, front, quotes, now, sym);
    ObserveAlike(t, before.after, last, q, now);
    if step.fired.Some? {
      assert p.alerts[|before.alerts|] == step.fired.value;
    }
  }

  /**
   * On a watchlist without repeated tickers, a refresh leaves each entry's ticker with the
   * history and last-alert time that the entry's own turn, taken from the starting state,
   * gives it, and the alert record that turn fires is among the refresh's alerts.
   */
  lemma {:induction false} SweepSettlesEachEntry(
    t: Tracker, stocks: seq<Stock>, quotes: map<string, Quote>, now: real, k: nat)
    requires UniqueSymbols(stocks) && k < |stocks|
    ensures SettledAs(Sweep(t, stocks, quotes, now),
                      Observe(t, stocks[k], QuoteFor(quotes, stocks[k].symbol), now), stocks[k].symbol)
    decreases |stocks|
  {
    var n := |stocks| - 1;
    var front := stocks[..n];
    if k == n {
      forall j | 0 <= j < n
        ensures Symbols(front)[j] != stocks[n].symbol
      {
        assert Symbols(front)[j] == stocks[j].symbol;
      }
      SweepLastSettles(t, stocks, quotes, now);
    } else {
      var before := Sweep(t, front, quotes, now);
      var last := stocks[n];
      var step := Observe(before.after, last, QuoteFor(quotes, last.symbol), now);
      var p := Sweep(t, stocks, quotes, now);
      assert p.alerts == before.alerts + ToSeq(step.fired) && p.after == step.after;
      assert front[k] == stocks[k];
      var s := Observe(t, stocks[k], QuoteFor(quotes, stocks[k].symbol), now);
      SweepSettlesEachEntry(t, front, quotes, now, k);
      assert SettledAs(before, s, stocks[k].symbol);
      assert stocks[k].symbol != last.symbol;
      if s.fired.Some? {
        var i :| 0 <= i < |before.alerts| && before.alerts[i] == s.fired.value;
        assert p.alerts[i] == s.fired.value;
      }
    }
  }

  /** A refresh of a one-entry watchlist is that entry's turn of the loop. */
  lemma SweepSingle(t: Tracker, stock: Stock, quotes: map<string, Quote>, now: real)
    ensures var step := Observe(t, stock, QuoteFor(quotes, stock.symbol), now);
      Sweep(t, [stock], quotes, now) == Pass(step.after, ToSeq(step.fired))
  {
    assert [stock][..0] == [];
  }

  /**
   * A watch on "ACME" at 2%, opening at 100, observed at four instants of a Unix clock:
   * no move, a 3% rise (fires), a 4% rise 290 s later (debounced), a 5% rise 605 s after
   * the first alert (fires again).
   */
  lemma DebounceScenario(base: real)
    requires base >= 1000.0
    ensures var acme := Stock("ACME", "Acme Corp", 2.0);
      var s0 := Observe(Tracker(map[], map[]), acme, Quote(Num(100.0), Num(100.0), Absent), base);
      var s1 := Observe(s0.after, acme, Quote(Num(103.0), Num(100.0), Absent), base + 10.0);
      var s2 := Observe(s1.after, acme, Quote(Num(104.0), Num(100.0), Absent), base + 300.0);
      var s3 := Observe(s2.after, acme, Quote(Num(105.0), Num(100.0), Absent), base + 615.0);
      && s0.fired.None?
      && s1.fired.Some? && s1.fired.value.change == 3.0
      && s2.fired.None?
      && s3.fired.Some? && s3.fired.value.change == 5.0
      && LastAlert(s3.after.sent, "ACME") == base + 615.0
      && HistoryOf(s3.after.history, "ACME") == [100.0, 103.0, 104.0, 105.0]
  {
    var acme := Stock("ACME", "Acme Corp", 2.0);
    var q0 := Quote(Num(100.0), Num(100.0), Absent);
    var q1 := Quote(Num(103.0), Num(100.0), Absent);
    var q2 := Quote(Num(104.0), Num(100.0), Absent);
    var q3 := Quote(Num(105.0), Num(100.0), Absent);
    assert PctChange(100.0, 100.0) == 0.0;
    assert PctChange(103.0, 100.0) == 3.0;
    assert PctChange(104.0, 100.0) == 4.0;
    assert PctChange(105.0, 100.0) == 5.0;

    var s0 := Observe(Tracker(map[], map[]), acme, q0, base);
    ObserveFiresIff(Tracker(map[], map[]), acme, q0, base);
    assert HistoryOf(s0.after.history, "ACME") == [100.0];

    var s1 := Observe(s0.after, acme, q1, base + 10.0);
    ObserveFiresIff(s0.after, acme, q1, base + 10.0);
    assert HistoryOf(s1.after.history, "ACME") == [100.0, 103.0];
    assert LastAlert(s1.after.sent, "ACME") == base + 10.0;

    var s2 := Observe(s1.after, acme, q2, base + 300.0);
    ObserveFiresIff(s1.after, acme, q2, base + 300.0);
    assert HistoryOf(s2.after.history, "ACME") == [100.0, 103.0, 104.0];

    var s3 := Observe(s2.after, acme, q3, base + 615.0);
    ObserveFiresIff(s2.after, acme, q3, base + 615.0);
    assert HistoryOf(s3.after.history, "ACME") == [100.0, 103.0, 104.0, 105.0];
  }

  /** Because a symbol that never alerted counts from time 0, a first breach at clock time 10 does not fire. */
  lemma FirstBreachNeedsClockPast600()
    ensures var acme := Stock("ACME", "Acme Corp", 2.0);
      var q := map["ACME" := Quote(Num(103.0), Num(100.0), Absent)];
      Sweep(Tracker(map[], map[]), [acme], q, 10.0).alerts == []
  {
    var acme := Stock("ACME", "Acme Corp", 2.0);
    var q := map["ACME" := Quote(Num(103.0), Num(100.0), Absent)];
    SweepSingle(Tracker(map[], map[]), acme, q, 10.0);
  }
}
