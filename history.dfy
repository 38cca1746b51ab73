/**
 * The per-symbol price history the alert loop keeps: a list of observed prices
 * in which a price is appended only when it differs from the last one stored,
 * and which never grows beyond `Cap` entries, the oldest being dropped first.
 */
module PriceHistory {

  /** The most prices kept per symbol. */
  const Cap: nat := 200

  /** No two neighbouring entries are equal. */
  predicate NoRepeats(s: seq<real>) {
    forall i :: 0 < i < |s| ==> s[i - 1] != s[i]
  }

  /** The shape every stored history has. */
  predicate WellFormed(s: seq<real>) {
    |s| <= Cap && NoRepeats(s)
  }

  /** The `n` most recent entries of `s` (all of `s` when it is shorter). */
  function Newest(s: seq<real>, n: nat): (r: seq<real>)
    ensures |r| == if |s| <= n then |s| else n
    ensures r == s[|s| - |r|..]
  {
    if |s| <= n then s else s[|s| - n..]
  }

  /**
   * One observation of `price`: `if not hist or hist[-1] != price: hist.append(price)`,
   * then `hist.pop(0)` when the length exceeds `Cap`.
   */
  function Record(hist: seq<real>, price: real): (r: seq<real>)
    ensures r != [] && r[|r| - 1] == price
    ensures |hist| <= Cap ==> |r| <= Cap
  {
    if hist == [] || hist[|hist| - 1] != price then
      var appended := hist + [price];
      if |appended| > Cap then appended[1..] else appended
    else
      hist
  }

  /** A repeated price is not stored again; a new one is, and the result is the newest `Cap` prices seen. */
  lemma RecordKeepsNewest(hist: seq<real>, price: real)
    requires |hist| <= Cap
    ensures hist != [] && hist[|hist| - 1] == price ==> Record(hist, price) == hist
    ensures hist == [] || hist[|hist| - 1] != price ==> Record(hist, price) == Newest(hist + [price], Cap)
  {
  }

  /** On overflow exactly the oldest entry goes: the rest shift down by one and the new price lands last. */
  lemma RecordEvictsOldest(hist: seq<real>, price: real)
    requires |hist| == Cap && hist[|hist| - 1] != price
    ensures Record(hist, price) == hist[1..] + [price]
    ensures |Record(hist, price)| == Cap
  {
  }

  /** Recording keeps a history well-formed: bounded, and no neighbouring duplicates. */
  lemma RecordKeepsWellFormed(hist: seq<real>, price: real)
    requires WellFormed(hist)
    ensures WellFormed(Record(hist, price))
  {
    var r := Record(hist, price);
    if hist == [] || hist[|hist| - 1] != price {
      var appended := hist + [price];
      assert NoRepeats(appended) by {
        forall i | 0 < i < |appended|
          ensures appended[i - 1] != appended[i]
        {
          if i < |hist| {
            assert appended[i - 1] == hist[i - 1] && appended[i] == hist[i];
          }
        }
      }
      if |appended| > Cap {
        assert forall i :: 0 < i < |r| ==> r[i - 1] == appended[i] && r[i] == appended[i + 1];
      }
    }
  }

  /** Observing the same price again changes nothing. */
  lemma RecordIdempotent(hist: seq<real>, price: real)
    ensures Record(Record(hist, price), price) == Record(hist, price)
  {
  }

  /** The history after observing `prices` one refresh after another. */
  function Feed(hist: seq<real>, prices: seq<real>): seq<real>
    decreases |prices|
  {
    if prices == [] then hist else Feed(Record(hist, prices[0]), prices[1..])
  }

  /** Cutting to the newest `n` entries before appending more changes nothing once the result is cut again. */
  lemma NewestOfNewest(a: seq<real>, b: seq<real>, n: nat)
    ensures Newest(Newest(a, n) + b, n) == Newest(a + b, n)
  {
    if |a| > n {
      var x := Newest(a, n) + b;
      var y := a + b;
      assert |Newest(x, n)| == |Newest(y, n)|;
      forall k | 0 <= k < |Newest(x, n)|
        ensures Newest(x, n)[k] == Newest(y, n)[k]
      {
        var m := |Newest(x, n)|;
        if |x| - m + k < n {
          assert x[|x| - m + k] == a[|a| - n + |x| - m + k];
        }
      }
    }
  }

  /** A suffix of a sequence without neighbouring duplicates has none either. */
  lemma NoRepeatsSuffix(s: seq<real>, k: nat)
    requires NoRepeats(s) && k <= |s|
    ensures NoRepeats(s[k..])
  {
    var t := s[k..];
    forall i | 0 < i < |t|
      ensures t[i - 1] != t[i]
    {
      assert t[i - 1] == s[k + i - 1] && t[i] == s[k + i];
    }
  }

  /**
   * Feeding a run of prices in which no price repeats its predecessor keeps exactly the newest
   * `Cap` of them (with what was stored before): nothing is dropped but the oldest.
   */
  lemma {:induction false} FeedKeepsNewest(hist: seq<real>, prices: seq<real>)
    requires |hist| <= Cap
    requires NoRepeats(hist + prices)
    ensures Feed(hist, prices) == Newest(hist + prices, Cap)
    decreases |prices|
  {
    if prices == [] {
      assert hist + prices == hist;
    } else {
      var p := prices[0];
      var rest := prices[1..];
      assert hist + prices == (hist + [p]) + rest;
      assert hist != [] ==> (hist + prices)[|hist| - 1] != (hist + prices)[|hist|];
      RecordKeepsNewest(hist, p);
      var next := Record(hist, p);
      assert next == Newest(hist + [p], Cap);
      NewestOfNewest(hist + [p], rest, Cap);
      var whole := (hist + [p]) + rest;
      assert next + rest == whole[|whole| - |next + rest|..];
      NoRepeatsSuffix(whole, |whole| - |next + rest|);
      FeedKeepsNewest(next, rest);
    }
  }

  /** `k` copies of `price`. */
  function Repeat(price: real, k: nat): (r: seq<real>)
    ensures |r| == k
    ensures forall i :: 0 <= i < k ==> r[i] == price
  {
    if k == 0 then [] else [price] + Repeat(price, k - 1)
  }

  /** Feeding the same price any positive number of times stores it at most once. */
  lemma {:induction false} FeedRepeatedPrice(hist: seq<real>, price: real, k: nat)
    requires k >= 1
    ensures Feed(hist, Repeat(price, k)) == Record(hist, price)
    decreases k
  {
    var ps := Repeat(price, k);
    assert ps[0] == price;
    if k > 1 {
      assert ps[1..] == Repeat(price, k - 1);
      FeedRepeatedPrice(Record(hist, price), price, k - 1);
      RecordIdempotent(hist, price);
    } else {
      assert ps[1..] == [];
    }
  }
}
