/** The `/predict-from-prices` handler: check there are enough prices,
    derive the volatility series, take its last `lag` values as features,
    and answer as `/predict` would, echoing the features back. */
module FromPrices {

  import opened Results
  import opened Schemas
  import opened Errors
  import opened Bundles
  import opened Inference
  import opened Volatility

  /** The features a series yields for a lag: `vol[-lag:]`. */
  function Features(vol: seq<real>, lag: Lag): (features: seq<real>)
    ensures |features| == if lag <= |vol| then lag else |vol|
    ensures forall i :: 0 <= i < |features| ==> features[i] == vol[|vol| - |features| + i]
  {
    SliceFrom(vol, -(lag as int))
  }

  /** Adds the echoed features to a successful answer; errors pass through. */
  function WithInput(prediction: Result<Response, ApiError>, features: seq<real>): (r: Result<Response, ApiError>)
    ensures r.Ok? <==> prediction.Ok?
    ensures r.Err? ==> r.error == prediction.error
    ensures r.Ok? ==> r.value.forecast == prediction.value.forecast && r.value.volatilityInput == Some(features)
  {
    match prediction
    case Ok(resp) => Ok(resp.(volatilityInput := Some(features)))
    case Err(e) => Err(e)
  }

  /** `predict_from_prices`. */
  function PredictFromPrices(dir: Directory, num: Numerics, input: PriceInput): (r: Result<Response, ApiError>)
    ensures r == Err(InvalidInput(TooFewPrices(input.lag, input.lag + 7, input.estimator))) <==>
              |input.prices| < input.lag + 7
    ensures r == Err(InvalidInput(InsufficientVolatility(input.lag))) <==>
              |input.prices| >= input.lag + 7 && |Series(num, input.prices, input.estimator)| < input.lag
    ensures r.Ok? ==>
              var vol := Series(num, input.prices, input.estimator);
              && |input.prices| >= input.lag + 7
              && |vol| >= input.lag
              && r.value.volatilityInput == Some(vol[|vol| - input.lag..])
    ensures r.Ok? ==> |r.value.volatilityInput.value| == input.lag && NonNegative(r.value.forecast)
    ensures r.Ok? ==>
              Predict(dir, VolatilityInput(input.lag, r.value.volatilityInput.value))
                == Ok(Response(r.value.forecast, None))
  {
    var minRequired := MinRequired(input.lag, input.estimator);
    if |input.prices| < minRequired then
      Err(InvalidInput(TooFewPrices(input.lag, minRequired, input.estimator)))
    else
      var vol := Series(num, input.prices, input.estimator);
      if |vol| < input.lag then
        Err(InvalidInput(InsufficientVolatility(input.lag)))
      else
        var features := Features(vol, input.lag);
        TailOfLag(vol, input.lag);
        WithInput(Predict(dir, VolatilityInput(input.lag, features)), features)
  }

  /** Once both length checks pass, the handler is exactly `/predict` on the
      derived features, with those features added to a successful answer. */
  lemma DelegatesToPredict(dir: Directory, num: Numerics, input: PriceInput)
    requires |input.prices| >= input.lag + 7
    requires |Series(num, input.prices, input.estimator)| >= input.lag
    ensures
      var vol := Series(num, input.prices, input.estimator);
      var features := vol[|vol| - input.lag..];
      PredictFromPrices(dir, num, input) == WithInput(Predict(dir, VolatilityInput(input.lag, features)), features)
  {
    var vol := Series(num, input.prices, input.estimator);
    TailOfLag(vol, input.lag);
  }

  /** The documented minimum of `lag + 7` prices is exactly what the first
      check enforces, for either estimator. */
  lemma DocumentedMinimumEnforced(dir: Directory, num: Numerics, input: PriceInput)
    ensures PredictFromPrices(dir, num, input).Err? &&
            PredictFromPrices(dir, num, input).error.InvalidInput? &&
            PredictFromPrices(dir, num, input).error.reason.TooFewPrices?
            <==> |input.prices| < input.lag + DocumentedExtraPrices
  {
  }

  /** Too few prices are refused before any logarithm or deviation is taken
      and before the store is consulted: the answer is the same whatever
      the numeric routines and the directory. */
  lemma TooFewPricesComputesNothing(dir1: Directory, dir2: Directory, num1: Numerics, num2: Numerics, input: PriceInput)
    requires |input.prices| < input.lag + 7
    ensures PredictFromPrices(dir1, num1, input) == PredictFromPrices(dir2, num2, input)
  {
  }

  /** With positive prices the second length check never fires: `lag + 7`
      prices leave `lag` rolling values and `lag + 5` weighted ones. */
  lemma PositivePricesPassSecondCheck(dir: Directory, num: Numerics, input: PriceInput)
    requires AllPositive(input.prices)
    ensures PredictFromPrices(dir, num, input) != Err(InvalidInput(InsufficientVolatility(input.lag)))
  {
    if |input.prices| >= input.lag + 7 {
      SeriesLength(num, input.prices, input.estimator);
    }
  }

  /** The second length check fires only through a non-positive price. A
      zero first price followed by a positive one makes the first log-return
      `+inf`, so the one rolling window and every weighted deviation are NaN;
      `dropna` leaves nothing, and eight prices with lag 1 pass the first
      check only to be refused by the second, whatever the method. */
  lemma ZeroPriceCanRunShort(dir: Directory, prices: seq<real>, m: Method)
    requires |prices| == 8 && prices[0] == 0.0 && prices[1] > 0.0
    ensures
      var num := Numerics(x => x, w => 0.0, (xs, span) => 0.0, (ps, est) => []);
      PredictFromPrices(dir, num, PriceInput(1, prices, m)) == Err(InvalidInput(InsufficientVolatility(1)))
  {
    assert !AllPositive(prices);
  }

  /** In a consistent store, a request with enough positive prices is never
      refused as invalid input, whatever the method: neither length check
      fires, and the derived features have exactly the count the bundle
      expects. */
  lemma EnoughPositivePricesNever400(dir: Directory, num: Numerics, input: PriceInput)
    requires ConsistentStore(dir)
    requires AllPositive(input.prices) && |input.prices| >= input.lag + 7
    ensures
      var r := PredictFromPrices(dir, num, input);
      r.Err? ==> Status(r.error) != 400
  {
    var r := PredictFromPrices(dir, num, input);
    SeriesLength(num, input.prices, input.estimator);
    var vol := Series(num, input.prices, input.estimator);
    TailOfLag(vol, input.lag);
    var features := vol[|vol| - input.lag..];
    assert r == WithInput(Predict(dir, VolatilityInput(input.lag, features)), features);
    var path := ModelFileName(input.lag);
    if path in dir && dir[path].Loaded? {
      assert dir[path].bundle.infoLag == input.lag;
    }
  }

  /** Fourteen positive prices are enough for lag 7 with the rolling
      estimator: in a consistent store the answer is never a 400, and a
      successful one echoes seven features. */
  lemma FourteenPricesServeLagSeven(dir: Directory, num: Numerics, prices: seq<real>)
    requires ConsistentStore(dir) && AllPositive(prices) && |prices| == 14
    ensures
      var r := PredictFromPrices(dir, num, PriceInput(7, prices, Rolling));
      && (r.Err? ==> Status(r.error) != 400)
      && (r.Ok? ==> |r.value.volatilityInput.value| == 7)
  {
    EnoughPositivePricesNever400(dir, num, PriceInput(7, prices, Rolling));
  }

  /** Five prices are too few for lag 7 whatever the estimator: 400. */
  lemma FivePricesRefusedForLagSeven(dir: Directory, num: Numerics, prices: seq<real>, m: Method)
    requires |prices| == 5
    ensures PredictFromPrices(dir, num, PriceInput(7, prices, m)).Err?
    ensures Status(PredictFromPrices(dir, num, PriceInput(7, prices, m)).error) == 400
  {
  }

  /** The `/predict-from-prices` route: the request body is validated first
      (422 for a non-positive lag or an unknown method), then handled. */
  function PredictFromPricesRoute(dir: Directory, num: Numerics, lag: int, prices: seq<real>, rawMethod: Option<string>): (r: Result<Response, ApiError>)
    ensures r.Err? && r.error.ValidationFailed? <==>
              lag <= 0 || (rawMethod.Some? && rawMethod.value !in {"rolling", "ewma"})
    ensures lag > 0 && rawMethod.None? ==> r == PredictFromPrices(dir, num, PriceInput(lag, prices, Rolling))
    ensures lag > 0 && rawMethod.Some? && ParseMethod(rawMethod).Some? ==>
              r == PredictFromPrices(dir, num, PriceInput(lag, prices, ParseMethod(rawMethod).value))
  {
    match ValidatePriceInput(lag, prices, rawMethod)
    case Err(fields) => Err(ValidationFailed(fields))
    case Ok(input) => PredictFromPrices(dir, num, input)
  }
}
