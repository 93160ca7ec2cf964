/** The volatility feature builder: log-returns of a price series, a rolling
    or exponentially weighted standard deviation of them, and the tail that
    becomes the model's input. Only lengths and positions are interpreted;
    the arithmetic is left to opaque routines. */
module Volatility {

  import opened Schemas

  /** Every price is positive, so every logarithm, and with it every
      log-return, is a finite number. */
  predicate AllPositive(prices: seq<real>) {
    forall i :: 0 <= i < |prices| ==> prices[i] > 0.0
  }

  /** The numeric routines the builder calls, left uninterpreted: the
      natural logarithm of a positive price; the sample standard deviation
      of one full window; the exponentially weighted deviation, for a span,
      at the last position of a series; and what `dropna` leaves of a
      method's deviation when some price is not positive, so that a
      logarithm is `-inf` or NaN. */
  datatype Numerics = Numerics(
    ln: real -> real,
    windowStd: seq<real> -> real,
    ewmStd: (seq<real>, nat) -> real,
    nonFinite: (seq<real>, Method) -> seq<real>)

  /** The volatility window. It is chosen per method, but both choices are
      7, the same number the price field's description promises. */
  function Window(m: Method): (w: nat)
    ensures w == DocumentedExtraPrices
  {
    if m == Rolling then 7 else 7
  }

  /** The fewest prices a request for `lag` must carry. */
  function MinRequired(lag: Lag, m: Method): (n: int)
    ensures n == lag + DocumentedExtraPrices
    ensures n > Window(m)
  {
    lag + Window(m)
  }

  /** `np.diff(np.log(prices))`: one value per pair of consecutive prices. */
  function LogReturns(ln: real -> real, prices: seq<real>): (r: seq<real>)
    ensures |r| == if |prices| == 0 then 0 else |prices| - 1
    ensures forall i :: 0 <= i < |r| ==> r[i] == ln(prices[i + 1]) - ln(prices[i])
  {
    if |prices| < 2 then []
    else [ln(prices[1]) - ln(prices[0])] + LogReturns(ln, prices[1..])
  }

  /** `Series(xs).rolling(window=w).std().dropna()`: the first `w - 1`
      positions have no full window and are dropped; position `i` of what
      remains is the deviation of the window starting at `i`. */
  function RollingStd(xs: seq<real>, w: nat, std: seq<real> -> real): (r: seq<real>)
    requires w > 0
    ensures |r| == if |xs| < w then 0 else |xs| - w + 1
    ensures forall i :: 0 <= i < |r| ==> r[i] == std(xs[i..i + w])
  {
    if |xs| < w then []
    else
      var rest := RollingStd(xs[1..], w, std);
      forall i | 0 <= i < |rest|
        ensures rest[i] == std(xs[i + 1..i + 1 + w])
      {
        var shifted, window := xs[1..][i..i + w], xs[i + 1..i + 1 + w];
        assert forall k :: 0 <= k < w ==> shifted[k] == window[k];
        assert shifted == window;
      }
      [std(xs[..w])] + rest
  }

  /** `Series(xs).ewm(span=s).std().dropna()` on finite values: the
      bias-corrected deviation of a single value is undefined, so the first
      position is dropped; every later position is defined and depends on
      the values up to it. */
  function EwmStd(xs: seq<real>, span: nat, std: (seq<real>, nat) -> real): (r: seq<real>)
    ensures |r| == if |xs| == 0 then 0 else |xs| - 1
    ensures forall i :: 0 <= i < |r| ==> r[i] == std(xs[..i + 2], span)
  {
    if |xs| < 2 then []
    else
      var init := xs[..|xs| - 1];
      var rest := EwmStd(init, span, std);
      forall i | 0 <= i < |rest|
        ensures rest[i] == std(xs[..i + 2], span)
      {
        assert init[..i + 2] == xs[..i + 2];
      }
      assert xs[..|xs|] == xs;
      rest + [std(xs, span)]
  }

  /** How many values a method's deviation defines on `n` prices whose
      logarithms are all finite: there are `n - 1` log-returns, of which the
      rolling window loses the first `w - 1` and the weighted one the first. */
  function DefinedCount(n: nat, m: Method): nat {
    var diffs := if n == 0 then 0 else n - 1;
    match m
    case Rolling => if diffs < Window(m) then 0 else diffs - Window(m) + 1
    case Ewma => if diffs == 0 then 0 else diffs - 1
  }

  /** The volatility series a method derives from a price series. A
      non-positive price makes a logarithm non-finite; what pandas then
      drops is left to the opaque `nonFinite`. */
  function Series(num: Numerics, prices: seq<real>, m: Method): seq<real> {
    if !AllPositive(prices) then num.nonFinite(prices, m)
    else
      var logReturns := LogReturns(num.ln, prices);
      match m
      case Rolling => RollingStd(logReturns, Window(m), num.windowStd)
      case Ewma => EwmStd(logReturns, Window(m), num.ewmStd)
  }

  /** `dropna` only removes values: with a non-finite logarithm no method
      keeps more values than it defines on finite ones. */
  ghost predicate DropsOnly(num: Numerics) {
    forall prices, m :: |num.nonFinite(prices, m)| <= DefinedCount(|prices|, m)
  }

  /** With positive prices the series has exactly as many values as the
      method defines. */
  lemma SeriesLength(num: Numerics, prices: seq<real>, m: Method)
    requires AllPositive(prices)
    ensures |Series(num, prices, m)| == DefinedCount(|prices|, m)
  {
  }

  /** A series is never longer than the method's count, whatever the prices. */
  lemma SeriesNeverLonger(num: Numerics, prices: seq<real>, m: Method)
    requires DropsOnly(num)
    ensures |Series(num, prices, m)| <= DefinedCount(|prices|, m)
  {
    if AllPositive(prices) {
      SeriesLength(num, prices, m);
    }
  }

  /** For positive prices the rolling series is seven shorter than the price
      series: one value is lost to differencing and six to the incomplete
      windows. */
  lemma RollingSeriesLength(num: Numerics, prices: seq<real>)
    requires AllPositive(prices) && |prices| >= 7
    ensures |Series(num, prices, Rolling)| == |prices| - 7
  {
    SeriesLength(num, prices, Rolling);
  }

  /** For positive prices the weighted series is two shorter than the price
      series: one value is lost to differencing and one to the undefined
      first deviation. */
  lemma EwmaSeriesLength(num: Numerics, prices: seq<real>)
    requires AllPositive(prices) && |prices| >= 2
    ensures |Series(num, prices, Ewma)| == |prices| - 2
  {
    SeriesLength(num, prices, Ewma);
  }

  /** Python's `xs[start:]`, with a negative start counted from the end and
      both kinds of start clipped to the sequence. */
  function SliceFrom<T>(xs: seq<T>, start: int): (r: seq<T>)
    ensures |r| == if start < 0 then (if |xs| + start < 0 then |xs| else -start)
                   else (if start > |xs| then 0 else |xs| - start)
    ensures forall i :: 0 <= i < |r| ==> r[i] == xs[|xs| - |r| + i]
  {
    var from :=
      if start < 0 then (if |xs| + start < 0 then 0 else |xs| + start)
      else (if start > |xs| then |xs| else start);
    xs[from..]
  }

  /** `vol[-lag:]` for a positive lag no larger than the series: exactly the
      last `lag` values, oldest first. */
  lemma TailOfLag<T>(xs: seq<T>, lag: Lag)
    requires lag <= |xs|
    ensures |SliceFrom(xs, -(lag as int))| == lag
    ensures SliceFrom(xs, -(lag as int)) == xs[|xs| - lag..]
  {
  }

  /** The positivity of the lag matters: `vol[-0:]` is the whole series. */
  lemma ZeroTailIsWhole<T>(xs: seq<T>)
    ensures SliceFrom(xs, -0) == xs
  {
  }
}
