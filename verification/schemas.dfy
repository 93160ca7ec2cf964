/** The request bodies accepted by the API and the field constraints the
    request parser enforces before any handler runs. */
module Schemas {

  import opened Results

  /** A lag is the number of past days fed to a model; the schema demands it
      be strictly positive. */
  type Lag = n: int | n > 0 witness 1

  /** The two volatility estimators a price request may ask for. */
  datatype Method = Rolling | Ewma

  /** The estimator used when a price request names none. */
  const DefaultMethod: Method := Rolling

  /** The number of prices beyond the lag that the price field's description
      promises are enough: "for lag X, at least X + 7 prices". */
  const DocumentedExtraPrices: nat := 7

  datatype VolatilityInput = VolatilityInput(lag: Lag, features: seq<real>)

  datatype PriceInput = PriceInput(lag: Lag, prices: seq<real>, estimator: Method)

  /** The literal a method is spelled as in a request body. */
  function MethodName(m: Method): string {
    match m
    case Rolling => "rolling"
    case Ewma => "ewma"
  }

  /** Reads the optional `method` field: absent means the default, and only
      the two literals are accepted. */
  function ParseMethod(raw: Option<string>): (r: Option<Method>)
    ensures raw.None? ==> r == Some(DefaultMethod)
    ensures raw.Some? ==> (r.Some? <==> raw.value in {"rolling", "ewma"})
  {
    match raw
    case None => Some(DefaultMethod)
    case Some(s) =>
      if s == "rolling" then Some(Rolling)
      else if s == "ewma" then Some(Ewma)
      else None
  }

  /** Names the fields of a request that fail their constraint, in
      declaration order; empty when the request is well formed. */
  function LagViolation(lag: int): seq<string> {
    if lag > 0 then [] else ["lag"]
  }

  /** Validates a `/predict` request body. */
  function ValidateVolatilityInput(lag: int, features: seq<real>): (r: Result<VolatilityInput, seq<string>>)
    ensures r.Ok? <==> lag > 0
    ensures r.Ok? ==> r.value.lag == lag && r.value.features == features
    ensures r.Err? ==> r.error == ["lag"]
  {
    if lag > 0 then Ok(VolatilityInput(lag, features)) else Err(LagViolation(lag))
  }

  /** Validates a `/predict-from-prices` request body; every failing field is
      reported, not only the first. */
  function ValidatePriceInput(lag: int, prices: seq<real>, rawMethod: Option<string>): (r: Result<PriceInput, seq<string>>)
    ensures r.Ok? <==> lag > 0 && (rawMethod.None? || rawMethod.value in {"rolling", "ewma"})
    ensures r.Ok? ==> r.value.lag == lag && r.value.prices == prices
    ensures r.Ok? && rawMethod.None? ==> r.value.estimator == Rolling
    ensures r.Ok? && rawMethod.Some? ==> MethodName(r.value.estimator) == rawMethod.value
    ensures r.Err? ==> ("lag" in r.error <==> lag <= 0)
    ensures r.Err? ==> ("method" in r.error <==> rawMethod.Some? && rawMethod.value !in {"rolling", "ewma"})
  {
    var parsed := ParseMethod(rawMethod);
    var bad := LagViolation(lag) + (if parsed.None? then ["method"] else []);
    if bad == [] then Ok(PriceInput(lag, prices, parsed.value)) else Err(bad)
  }

  /** Spelling a method and reading it back are inverse to each other, and
      no other literal is read as a method. */
  lemma MethodNameRoundTrip(s: string, m: Method)
    ensures ParseMethod(Some(s)) == Some(m) <==> s == MethodName(m)
  {
  }
}
