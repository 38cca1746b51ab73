/**
 * The dashboard's session state and the operations that change it in place:
 * the per-refresh alert loop, adding, re-thresholding and deleting watchlist
 * entries, adding and deleting alert recipients, and resetting to defaults.
 * One class serves both dashboards; where they differ (their default watchlists,
 * and what "Reset to Defaults" clears) each has its own method.
 */
module Dashboard {
  import opened Wrappers
  import opened Text
  import opened Lists
  import opened PriceHistory
  import opened Watchlist
  import opened Alerts

  /** One WhatsApp recipient of streamlit_app.py: `{"name": …, "phone": …}`. */
  datatype Recipient = Recipient(name: string, phone: string)

  class Session {
    var stocks: seq<Stock>
    var recipients: seq<Recipient>
    var priceHistory: map<string, seq<real>>
    var alertsSent: map<string, real>

    /**
     * Every stored history is bounded and free of neighbouring repeats. Unique tickers are
     * not part of it: a loaded or uploaded configuration may list a ticker twice, and the
     * watchlist operations only keep uniqueness where it already holds.
     */
    ghost predicate Valid()
      reads this
    {
      HistoriesWellFormed(priceHistory)
    }

    /** A fresh session: the given watchlist, no recipients, no history, no alert sent. */
    constructor (initial: seq<Stock>)
      ensures Valid()
      ensures stocks == initial && recipients == [] && priceHistory == map[] && alertsSent == map[]
    {
      stocks := initial;
      recipients := [];
      priceHistory := map[];
      alertsSent := map[];
    }

    /** `hist = price_history.setdefault(sym, [])`, then append-if-new and `pop(0)` past the cap. */
    method RecordPrice(sym: string, price: real)
      requires Valid()
      modifies this`priceHistory
      ensures Valid()
      ensures priceHistory == old(priceHistory)[sym := Record(HistoryOf(old(priceHistory), sym), price)]
    {
      var hist := HistoryOf(priceHistory, sym);
      if hist == [] || hist[|hist| - 1] != price {
        hist := hist + [price];
        if |hist| > Cap {
          hist := hist[1..];
        }
      }
      priceHistory := priceHistory[sym := hist];
      RecordKeepsWellFormed(HistoryOf(old(priceHistory), sym), price);
    }

    /**
     * One refresh: for each watchlist entry in order, look up its quote, record the price,
     * and fire a debounced alert on a breach. The new state and the alerts returned are
     * those of `Sweep`, and the session stays valid.
     */
    method RunAlerts(quotes: map<string, Quote>, now: real) returns (alerts: seq<AlertRecord>)
      requires Valid()
      modifies this`priceHistory, this`alertsSent
      ensures Valid()
      ensures Pass(Tracker(priceHistory, alertsSent), alerts)
              == Sweep(Tracker(old(priceHistory), old(alertsSent)), stocks, quotes, now)
    {
      ghost var start := Tracker(priceHistory, alertsSent);
      alerts := [];
      var i := 0;
      while i < |stocks|
        invariant 0 <= i <= |stocks|
        invariant Valid()
        invariant Pass(Tracker(priceHistory, alertsSent), alerts) == Sweep(start, stocks[..i], quotes, now)
      {
        var stock := stocks[i];
        var sym := stock.symbol;
        var q := QuoteFor(quotes, sym);
        ghost var before := Tracker(priceHistory, alertsSent);
        if HasPrice(q) {
          var price := q.c.x;
          var ref := ReferencePrice(q, price);
          var change := PctChange(price, ref);
          RecordPrice(sym, price);
          if IsBreach(change, stock.alertPct) {
            var last := LastAlert(alertsSent, sym);
            if now - last > DebounceSeconds {
              alertsSent := alertsSent[sym := now];
              var currency := Currency(sym);
              alerts := alerts + [AlertRecord(sym, stock.name, price, change, stock.alertPct, currency)];
            }
          }
        }
        SweepPrefixStep(start, stocks, quotes, now, i);
        ghost var step := Observe(before, stock, q, now);
        assert Tracker(priceHistory, alertsSent) == step.after;
        i := i + 1;
      }
      assert stocks[..i] == stocks;
    }

    /** "Add Stock": the add rule decides, and an admitted entry is appended at the end. */
    method AddStock(rawTicker: string, name: string, alertPct: real) returns (a: Admission)
      modifies this`stocks
      ensures a == Admit(old(stocks), rawTicker, name, alertPct)
      ensures stocks == AfterAdmit(old(stocks), a)
      ensures UniqueSymbols(old(stocks)) ==> UniqueSymbols(stocks)
    {
      a := Admit(stocks, rawTicker, name, alertPct);
      if UniqueSymbols(stocks) {
        AdmitKeepsUnique(stocks, rawTicker, name, alertPct);
      }
      if a.Admitted? {
        stocks := stocks + [a.entry];
      }
    }

    /** The per-entry threshold input: `stocks[idx]["alert_pct"] = new_pct`, nothing else changes. */
    method SetThreshold(idx: nat, alertPct: real)
      requires idx < |stocks|
      modifies this`stocks
      ensures stocks == old(stocks)[idx := old(stocks)[idx].(alertPct := alertPct)]
      ensures Symbols(stocks) == Symbols(old(stocks))
    {
      stocks := stocks[idx := stocks[idx].(alertPct := alertPct)];
    }

    /** The watchlist delete buttons: pops the marked entries, highest index first. */
    method RemoveStocks(marked: seq<nat>)
      requires Ascending(marked)
      requires forall k :: 0 <= k < |marked| ==> marked[k] < |stocks|
      modifies this`stocks
      ensures stocks == Without(old(stocks), Marks(marked))
      ensures UniqueSymbols(old(stocks)) ==> UniqueSymbols(stocks)
    {
      if UniqueSymbols(stocks) {
        WithoutKeepsUnique(stocks, Marks(marked));
      }
      stocks := PopMarked(stocks, marked);
    }

    /** "Add Recipient": both fields required as typed, then stored stripped. */
    method AddRecipient(name: string, phone: string) returns (added: bool)
      modifies this`recipients
      ensures added <==> name != [] && phone != []
      ensures recipients == if added then old(recipients) + [Recipient(Strip(name), Strip(phone))]
                            else old(recipients)
    {
      added := name != [] && phone != [];
      if added {
        recipients := recipients + [Recipient(Strip(name), Strip(phone))];
      }
    }

    /** The recipient delete buttons: pops the marked recipients, highest index first. */
    method RemoveRecipients(marked: seq<nat>)
      requires Ascending(marked)
      requires forall k :: 0 <= k < |marked| ==> marked[k] < |recipients|
      modifies this`recipients
      ensures recipients == Without(old(recipients), Marks(marked))
    {
      recipients := PopMarked(recipients, marked);
    }

    /**
     * streamlit_app.py's "Reset to Defaults": the whole configuration goes back to its
     * defaults (its watchlist, and no recipients), and history and debounce state are emptied.
     */
    method ResetConfig()
      modifies this
      ensures Valid() && UniqueSymbols(stocks)
      ensures stocks == StreamlitDefaults && recipients == []
      ensures priceHistory == map[] && alertsSent == map[]
    {
      stocks := StreamlitDefaults;
      recipients := [];
      priceHistory := map[];
      alertsSent := map[];
      DefaultsAreUnique();
    }

    /**
     * app.py's "Reset to Defaults": the watchlist goes back to its defaults and history and
     * debounce state are emptied; nothing else is touched.
     */
    method ResetWatchlist()
      modifies this`stocks, this`priceHistory, this`alertsSent
      ensures Valid() && UniqueSymbols(stocks)
      ensures stocks == LinkDefaults
      ensures priceHistory == map[] && alertsSent == map[]
    {
      stocks := LinkDefaults;
      priceHistory := map[];
      alertsSent := map[];
      DefaultsAreUnique();
    }
  }
}
