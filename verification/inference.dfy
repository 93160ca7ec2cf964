/** The `/predict` handler: find the bundle for the requested lag, check the
    feature count against the lag the bundle records, run the guarded
    scale-predict-unscale pipeline, and clamp the forecast at zero. */
module Inference {

  import opened Results
  import opened Schemas
  import opened Errors
  import opened Bundles

  /** The body of a successful answer: the forecast and, for an answer built
      from prices, the features that were fed to the model. */
  datatype Response = Response(forecast: seq<real>, volatilityInput: Option<seq<real>>)

  predicate NonNegative(ys: seq<real>) {
    forall i :: 0 <= i < |ys| ==> ys[i] >= 0.0
  }

  /** `np.maximum(x, 0)` on one value. */
  function Max0(x: real): real {
    if x < 0.0 then 0.0 else x
  }

  /** `np.maximum(ys, 0)`: every negative value becomes zero, every other
      value is kept, and the length does not change. */
  function Clamp(ys: seq<real>): (r: seq<real>)
    ensures |r| == |ys|
    ensures NonNegative(r)
    ensures forall i :: 0 <= i < |ys| && ys[i] >= 0.0 ==> r[i] == ys[i]
    ensures forall i :: 0 <= i < |ys| && ys[i] < 0.0 ==> r[i] == 0.0
  {
    if |ys| == 0 then [] else [Max0(ys[0])] + Clamp(ys[1..])
  }

  /** A row is left unchanged by the clamp exactly when it has no negative
      value. */
  lemma ClampFixedPoints(ys: seq<real>)
    ensures Clamp(ys) == ys <==> NonNegative(ys)
  {
    if NonNegative(ys) {
      assert forall i :: 0 <= i < |ys| ==> Clamp(ys)[i] == ys[i];
    }
  }

  /** Clamping twice is clamping once. */
  lemma ClampIdempotent(ys: seq<real>)
    ensures Clamp(Clamp(ys)) == Clamp(ys)
  {
    ClampFixedPoints(Clamp(ys));
  }

  /** The guarded part of the handler: scale the row, predict, unscale. The
      first stage that raises ends the pipeline with its message. */
  function Infer(b: Bundle, row: seq<real>): Result<seq<real>, string> {
    var scaled :- b.scalerX.transform(row);
    var predicted :- b.model.predict(scaled);
    b.scalerY.inverseTransform(predicted)
  }

  /** `predict_volatility`. Each failure is reported by the first check that
      observes it, in the order: missing file (404), unreadable bundle,
      feature count (400), pipeline failure (500). */
  function Predict(dir: Directory, input: VolatilityInput): (r: Result<Response, ApiError>)
    ensures r == Err(NotFound(input.lag)) <==> ModelFileName(input.lag) !in dir
    ensures r == Err(Unhandled(LoadFailed(ModelFileName(input.lag)))) <==>
              ModelFileName(input.lag) in dir && dir[ModelFileName(input.lag)].Corrupt?
    ensures r.Err? && r.error.InvalidInput? <==>
              && ModelFileName(input.lag) in dir
              && dir[ModelFileName(input.lag)].Loaded?
              && dir[ModelFileName(input.lag)].bundle.infoLag != |input.features|
    ensures r.Err? && r.error.InvalidInput? ==>
              r.error.reason == FeatureCountMismatch(dir[ModelFileName(input.lag)].bundle.infoLag, |input.features|)
    ensures r.Err? && r.error.InternalError? <==>
              && ModelFileName(input.lag) in dir
              && dir[ModelFileName(input.lag)].Loaded?
              && dir[ModelFileName(input.lag)].bundle.infoLag == |input.features|
              && Infer(dir[ModelFileName(input.lag)].bundle, input.features).Err?
    ensures r.Err? && r.error.InternalError? ==>
              r.error.cause == Infer(dir[ModelFileName(input.lag)].bundle, input.features).error
    ensures r.Ok? ==>
              && ModelFileName(input.lag) in dir
              && dir[ModelFileName(input.lag)].Loaded?
              && var b := dir[ModelFileName(input.lag)].bundle;
              && b.infoLag == |input.features|
              && Infer(b, input.features).Ok?
              && r.value.forecast == Clamp(Infer(b, input.features).value)
    ensures r.Ok? <==>
              && ModelFileName(input.lag) in dir
              && dir[ModelFileName(input.lag)].Loaded?
              && dir[ModelFileName(input.lag)].bundle.infoLag == |input.features|
              && Infer(dir[ModelFileName(input.lag)].bundle, input.features).Ok?
    ensures r.Err? && r.error.NotFound? ==> r.error.lag == input.lag
    ensures r.Ok? ==> NonNegative(r.value.forecast) && r.value.volatilityInput.None?
  {
    var path := ModelFileName(input.lag);
    if path !in dir then Err(NotFound(input.lag))
    else if dir[path].Corrupt? then Err(Unhandled(LoadFailed(path)))
    else
      var bundle := dir[path].bundle;
      if |input.features| != bundle.infoLag then
        Err(InvalidInput(FeatureCountMismatch(bundle.infoLag, |input.features|)))
      else
        match Infer(bundle, input.features)
        case Err(cause) => Err(InternalError(cause))
        case Ok(ys) => Ok(Response(Clamp(ys), None))
  }

  /** A missing bundle is reported without consulting anything else in the
      directory: every directory lacking the file gives the same answer. */
  lemma NotFoundIgnoresStore(dir1: Directory, dir2: Directory, input: VolatilityInput)
    requires ModelFileName(input.lag) !in dir1 && ModelFileName(input.lag) !in dir2
    ensures Predict(dir1, input) == Predict(dir2, input) == Err(NotFound(input.lag))
  {
  }

  /** A feature-count mismatch is reported before inference: the answer
      depends only on the recorded lag, not on the scalers or the model. */
  lemma MismatchSkipsInference(dir: Directory, b: Bundle, input: VolatilityInput)
    requires ModelFileName(input.lag) in dir && dir[ModelFileName(input.lag)] == Loaded(b)
    requires b.infoLag != |input.features|
    ensures Predict(dir, input) == Err(InvalidInput(FeatureCountMismatch(b.infoLag, |input.features|)))
  {
  }

  /** The `/predict` route: the request body is validated first (422 when
      the lag is not positive), then handed to `Predict`. */
  function PredictRoute(dir: Directory, lag: int, features: seq<real>): (r: Result<Response, ApiError>)
    ensures lag <= 0 ==> r == Err(ValidationFailed(["lag"]))
    ensures lag > 0 ==> r == Predict(dir, VolatilityInput(lag, features))
  {
    match ValidateVolatilityInput(lag, features)
    case Err(fields) => Err(ValidationFailed(fields))
    case Ok(input) => Predict(dir, input)
  }

  /** A request for a lag with no stored bundle is answered 404 whatever its
      features, as for lag 99 with ninety-nine features. */
  lemma MissingLagAnswers404(dir: Directory, lag: int, features: seq<real>)
    requires lag > 0 && ModelFileName(lag) !in dir
    ensures PredictRoute(dir, lag, features).Err?
    ensures Status(PredictRoute(dir, lag, features).error) == 404
  {
  }

  /** In a consistent store holding a readable bundle for the lag, a request
      with as many features as the lag is neither refused nor missing: it is
      answered with a non-negative forecast or fails inside inference. */
  lemma MatchingFeaturesServed(dir: Directory, lag: int, features: seq<real>)
    requires ConsistentStore(dir) && lag > 0 && |features| == lag
    requires ModelFileName(lag) in dir && dir[ModelFileName(lag)].Loaded?
    ensures PredictRoute(dir, lag, features).Ok? || PredictRoute(dir, lag, features).error.InternalError?
  {
    assert dir[ModelFileName(lag)].bundle.infoLag == lag;
  }
}
