/**
 * The watchlist: the ordered list of stocks each dashboard monitors, with the
 * rule for adding a stock (normalised ticker and name both required, no
 * duplicate ticker) and the default lists each dashboard starts from.
 */
module Watchlist {
  import opened Text
  import opened Lists

  /** One watchlist entry: `{"symbol": …, "name": …, "alert_pct": …}`. */
  datatype Stock = Stock(symbol: string, name: string, alertPct: real)

  /** The tickers of a watchlist, in order: `[s["symbol"] for s in stocks]`. */
  function Symbols(stocks: seq<Stock>): (syms: seq<string>)
    ensures |syms| == |stocks|
    ensures forall i :: 0 <= i < |stocks| ==> syms[i] == stocks[i].symbol
  {
    seq(|stocks|, i requires 0 <= i < |stocks| => stocks[i].symbol)
  }

  /** No ticker appears twice. */
  predicate UniqueSymbols(stocks: seq<Stock>) {
    forall i, j :: 0 <= i < j < |stocks| ==> stocks[i].symbol != stocks[j].symbol
  }

  /**
   * The ticker as the add form reads it, `text.upper().strip()`: no lower-case ASCII letter
   * is left, and neither end is whitespace.
   */
  function NormalizeTicker(raw: string): (t: string)
    ensures forall i :: 0 <= i < |t| ==> !('a' <= t[i] <= 'z')
    ensures t == [] || (!IsPyWhitespace(t[0]) && !IsPyWhitespace(t[|t| - 1]))
  {
    var u := Upper(raw);
    StripKeepsNoLower(u);
    Strip(u)
  }

  /** Stripping cannot bring back a lower-case letter: what is left is a slice of the input. */
  lemma StripKeepsNoLower(u: string)
    requires forall i :: 0 <= i < |u| ==> !('a' <= u[i] <= 'z')
    ensures var t := Strip(u); forall i :: 0 <= i < |t| ==> !('a' <= t[i] <= 'z')
  {
    var l := StripLeft(u);
    var t := StripRight(l);
    assert t == Strip(u);
    forall i | 0 <= i < |t|
      ensures !('a' <= t[i] <= 'z')
    {
      assert t[i] == l[i] == u[|u| - |l| + i];
    }
  }

  /** Normalising a normalised ticker changes nothing. */
  lemma NormalizeTickerShape(raw: string)
    ensures var t := NormalizeTicker(raw); NormalizeTicker(t) == t
  {
    var t := NormalizeTicker(raw);
    UpperOfUpper(t);
    StripIsSlice(t);
    assert StripLeft(t) == t;
    assert StripRight(t) == t;
  }

  /** What pressing "Add Stock" does. */
  datatype Admission = Admitted(entry: Stock) | AlreadyListed(symbol: string) | MissingField

  /**
   * The add-stock rule: an empty normalised ticker or an empty name is refused; a ticker
   * already on the list is refused; otherwise the new entry is the one appended.
   */
  function Admit(stocks: seq<Stock>, rawTicker: string, name: string, alertPct: real): (r: Admission)
    ensures r.MissingField? <==> NormalizeTicker(rawTicker) == [] || name == []
    ensures r.AlreadyListed? <==> !r.MissingField? && NormalizeTicker(rawTicker) in Symbols(stocks)
    ensures r.Admitted? ==> r.entry == Stock(NormalizeTicker(rawTicker), name, alertPct)
    ensures r.Admitted? ==> r.entry.symbol !in Symbols(stocks)
  {
    var ticker := NormalizeTicker(rawTicker);
    if ticker != [] && name != [] then
      if ticker !in Symbols(stocks) then Admitted(Stock(ticker, name, alertPct))
      else AlreadyListed(ticker)
    else MissingField
  }

  /** The list after the add rule: extended at the end when admitted, untouched otherwise. */
  function AfterAdmit(stocks: seq<Stock>, a: Admission): seq<Stock> {
    if a.Admitted? then stocks + [a.entry] else stocks
  }

  /** Adding keeps tickers unique, and the entry added carries the normalised ticker, the name and the threshold given. */
  lemma AdmitKeepsUnique(stocks: seq<Stock>, rawTicker: string, name: string, alertPct: real)
    requires UniqueSymbols(stocks)
    ensures var a := Admit(stocks, rawTicker, name, alertPct);
      && UniqueSymbols(AfterAdmit(stocks, a))
      && (a.Admitted? ==> a.entry == Stock(NormalizeTicker(rawTicker), name, alertPct))
  {
    var a := Admit(stocks, rawTicker, name, alertPct);
    if a.Admitted? {
      var s' := stocks + [a.entry];
      forall i, j | 0 <= i < j < |s'|
        ensures s'[i].symbol != s'[j].symbol
      {
        if j == |stocks| {
          assert Symbols(stocks)[i] == s'[i].symbol;
        }
      }
    }
  }

  /** Submitting the same stock twice adds it once: the second submission finds it listed. */
  lemma AdmitTwiceIsRefused(stocks: seq<Stock>, rawTicker: string, name: string, alertPct: real)
    requires Admit(stocks, rawTicker, name, alertPct).Admitted?
    ensures var once := AfterAdmit(stocks, Admit(stocks, rawTicker, name, alertPct));
      Admit(once, rawTicker, name, alertPct).AlreadyListed?
  {
    var a := Admit(stocks, rawTicker, name, alertPct);
    var once := stocks + [a.entry];
    assert Symbols(once)[|stocks|] == NormalizeTicker(rawTicker);
  }

  /** Deleting entries keeps tickers unique. */
  lemma {:induction false} WithoutKeepsUnique(stocks: seq<Stock>, drop: set<nat>)
    requires UniqueSymbols(stocks)
    ensures UniqueSymbols(Without(stocks, drop))
    decreases |stocks|
  {
    if stocks != [] {
      var n := |stocks| - 1;
      var front := stocks[..n];
      WithoutKeepsUnique(front, drop);
      WithoutKeepsOnlyOriginals(front, drop);
      var kept := Without(front, drop);
      if n !in drop {
        var r := kept + [stocks[n]];
        forall i, j | 0 <= i < j < |r|
          ensures r[i].symbol != r[j].symbol
        {
          if j == |kept| {
            assert kept[i] in front;
            var k :| 0 <= k < |front| && front[k] == kept[i];
            assert stocks[k] == kept[i];
          }
        }
      }
    }
  }

  /** The starting watchlist of streamlit_app.py (`DEFAULT_CONFIG["stocks"]`). */
  const StreamlitDefaults: seq<Stock> := [
    Stock("CSCO", "Cisco Systems", 2.0),
    Stock("GSK", "GSK plc", 2.0),
    Stock("GOOGL", "Alphabet (Google)", 2.0)
  ]

  /** The starting watchlist of app.py (`DEFAULT_STOCKS`). */
  const LinkDefaults: seq<Stock> := [
    Stock("CSCO", "Cisco Systems", 2.0),
    Stock("GSK", "GSK plc", 2.0),
    Stock("BT-A", "BT Group plc", 2.0)
  ]

  /** Both default lists have distinct tickers. */
  lemma DefaultsAreUnique()
    ensures UniqueSymbols(StreamlitDefaults) && UniqueSymbols(LinkDefaults)
  {
  }
}
