# BTC volatility forecast API — a Dafny model of its request layer

The service answers three HTTP routes. `/predict` takes a lag and a
feature vector, loads the trained bundle stored for that lag, scales the
features, runs the regressor, unscales the result and clamps negative values
to zero. `/predict-from-prices` derives the feature vector from a raw price
series first: log-returns, then a rolling (window 7) or exponentially
weighted (span 7) standard deviation, then the last `lag` values. Then it
answers as `/predict` would, echoing the features back. `/available-models`
lists the lags encoded in the names of the bundle files.

This project models that layer in Dafny:

- the decision tree of each handler, with its error cases and status codes;
- the length arithmetic of the feature builder;
- the file-name parsing of the catalog.

The numeric routines and the trained artefacts are opaque function values.

Modules, one file each:

- `Results` (`results.dfy`): `Option` and `Result` types.
- `Errors` (`errors.dfy`): the error kinds: not found, invalid input, internal error, an uncaught failure and a schema violation. It also gives the HTTP status of each.
- `Schemas` (`schemas.dfy`): the request bodies and the checks the request parser makes on them. These are the positive `Lag` type, the two-valued `Method` with default `Rolling`, and the two validators.
- `Text` (`text.dfy`): the Python string behaviour the catalog relies on. That is `startswith`/`endswith`, the first field of `split`, the decimal spelling of an integer, and `int()` of a string.
- `Bundles` (`bundles.dfy`): the bundle record and the model directory as a map from file name to loaded artefact. It also holds the bundle file-naming scheme.
- `Inference` (`inference.dfy`): `predict_volatility` and the clamp.
- `Volatility` (`volatility.dfy`): log-returns, the rolling and exponentially weighted deviations, how many values each defines, Python's `xs[-k:]`, and the window size.
- `FromPrices` (`from_prices.dfy`): `predict_from_prices`.
- `Catalog` (`catalog.dfy`): `available_models`, with its filter, parse and sort.
- `Service` (`service.dfy`): how the catalog and `/predict` see the same directory.

Behaviours of the code worth knowing:

- The listing is sorted but not de-duplicated. Names such as `model_lag07.joblib` and `model_lag7.joblib` both read as 7, and 7 is listed twice (`Catalog.PaddedNamesDuplicate`).
- `/predict` compares the feature count with the lag recorded inside the bundle, not with the requested lag. Properties that need the two to agree assume `Bundles.ConsistentStore`.
- A zero-padded bundle name is listed by the catalog, but `/predict` looks up the unpadded name and answers 404 (`Service.PaddedListingNotServed`).
- With positive prices, `lag + 7` prices always leave at least `lag` volatility values. The second length check (app/api.py:81-85) therefore fires only when some price is zero or negative, which makes a logarithm non-finite (`FromPrices.PositivePricesPassSecondCheck`, `FromPrices.ZeroPriceCanRunShort`).
- The "method not recognised" branch of `predict_from_prices` (app/api.py:78-79) cannot be reached. The schema admits only the two literals, so the model's `Method` has only two values.

## Model

| member | source | states |
|---|---|---|
| Schemas.ValidateVolatilityInput | app/schemas.py:4-15 | a `/predict` body is accepted exactly when its lag is positive; the accepted value keeps lag and features; otherwise the `lag` field is reported |
| Schemas.ValidatePriceInput | app/schemas.py:17-32 | a price body is accepted exactly when the lag is positive and the method is absent or one of `rolling`/`ewma`; an absent method becomes `rolling`; a present one is read back as the literal given; the `lag` field is reported exactly when the lag is not positive, and the `method` field exactly when a method is given that is neither literal |
| Schemas.ParseMethod | app/schemas.py:29-30 | no method means the default; a given literal is accepted exactly when it is `rolling` or `ewma` |
| Schemas.MethodNameRoundTrip | app/schemas.py:29 | a literal reads as a method exactly when it is that method's spelling, so the enum has exactly the two values |
| Errors.Status | app/api.py:19-49 | not-found answers 404, invalid input 400, a schema violation 422, and every other failure 500 |
| Bundles.ModelFileName | app/api.py:17 | the f-string `model_lag{lag}.joblib` (a definition; `Bundles.ModelFileNameShape` states its shape and `Catalog.ParseLagOfModelFileName` its read-back) |
| Bundles.ModelFileNameShape | app/api.py:17 | the bundle name for a lag starts with `model_lag`, ends with `.joblib`, and holds exactly the lag's decimal spelling between the two |
| Bundles.ModelFileNameInjective | app/api.py:17 | two lags share a bundle file name exactly when they are equal |
| Inference.Clamp | app/api.py:44 | the clamp keeps the length, leaves no negative value, keeps every non-negative value and turns every negative one into zero |
| Inference.ClampFixedPoints | app/api.py:44 | the clamp leaves a row unchanged exactly when the row has no negative value |
| Inference.ClampIdempotent | app/api.py:44 | clamping twice equals clamping once |
| Inference.Infer | app/api.py:40-43 | scaling, prediction and unscaling in sequence, ending at the first stage that raises with its message (a definition; its outcomes are stated by `Inference.Predict`) |
| Inference.Predict | app/api.py:14-53 | 404 naming the requested lag exactly when the bundle file is absent; an uncaught load failure exactly when the file is unreadable; 400 with expected and received counts exactly when the count differs from the recorded lag; 500 carrying the first failing stage's message exactly when inference fails; a success exactly when none of these happens, carrying the clamped output, all non-negative, without an echoed input |
| Inference.NotFoundIgnoresStore | app/api.py:19-23 | a missing bundle gets the same 404 whatever else the directory holds, so nothing is loaded |
| Inference.MismatchSkipsInference | app/api.py:34-38 | a count mismatch is answered from the recorded lag alone, whatever the scalers and regressor would do |
| Inference.PredictRoute | app/api.py:14-16 | a non-positive lag is refused by validation before the handler runs; a positive one is handed to the handler unchanged |
| Inference.MissingLagAnswers404 | test/test_api.py:26-32 | a request for a lag with no stored bundle, such as 99, is answered 404 |
| Inference.MatchingFeaturesServed | test/test_api.py:6-13 | in a consistent store with a readable bundle for the lag, as many features as the lag give a forecast or an inference failure, never a 404 or 400 |
| Volatility.Window | app/api.py:61 | the window is 7 for both methods, the number the price field's description uses |
| Volatility.MinRequired | app/api.py:61-62 | the minimum price count is the lag plus 7 and exceeds the window |
| Volatility.LogReturns | app/api.py:71 | log-returns are one fewer than the prices, and each is the difference of the logs of two consecutive prices |
| Volatility.RollingStd | app/api.py:75 | the rolling series drops the first window-minus-one positions; each remaining value is the deviation of the full window that starts there |
| Volatility.EwmStd | app/api.py:77 | the weighted deviation drops the first position, whose single value has no bias-corrected deviation; each remaining value is the deviation of the log-returns up to its position |
| Volatility.Series | app/api.py:71-79 | the series of the request's method over the log-returns; with a non-positive price, whatever `dropna` leaves (a definition; its lengths are stated by `Volatility.SeriesLength`) |
| Volatility.SeriesLength | app/api.py:71-77 | with positive prices the series has exactly the number of values the method defines: `n - 7` rolling and `n - 2` weighted values for `n` prices |
| Volatility.SeriesNeverLonger | app/api.py:75-77 | since `dropna` only removes values, no price series gives a method more values than it defines on positive prices |
| Volatility.EwmaSeriesLength | app/api.py:71-77 | for at least two positive prices the weighted series is two shorter than the prices |
| Volatility.RollingSeriesLength | app/api.py:71-75 | from at least 7 positive prices the rolling series has exactly 7 fewer values than the prices |
| Volatility.SliceFrom | app/api.py:87 | Python's `xs[start:]` has the length Python's clipping gives (the last `-start` values for a negative start, all from `start` on for a non-negative one, both clipped to the sequence) and holds the last values of `xs` in order |
| Volatility.TailOfLag | app/api.py:87 | for a positive lag no larger than the series, `vol[-lag:]` is exactly the last `lag` values |
| Volatility.ZeroTailIsWhole | app/api.py:87 | with a lag of 0, the slice would be the whole series, which is why the positive lag matters |
| FromPrices.PredictFromPrices | app/api.py:55-95 | too few prices (fewer than lag plus 7) is exactly the first 400, whatever the method; the second 400 is exactly when enough prices leave fewer volatility values than the lag; a success echoes exactly the last `lag` values of the volatility series and carries the forecast `/predict` gives for them |
| FromPrices.DelegatesToPredict | app/api.py:87-95 | once both length checks pass, the answer is `/predict` on the derived features, with those features added to a success and errors passed through |
| FromPrices.Features | app/api.py:87 | the features are the last `lag` values of the series, or the whole series when it is shorter |
| FromPrices.WithInput | app/api.py:93-95 | adding `volatility_input` keeps a success a success with the same forecast and the given features, and passes every error through |
| FromPrices.DocumentedMinimumEnforced | app/schemas.py:26 | the documented need for at least lag plus 7 prices is exactly when the first check refuses |
| FromPrices.TooFewPricesComputesNothing | app/api.py:61-68 | a too-short series gets the same answer whatever the numeric routines and the directory, so nothing is computed or loaded |
| FromPrices.ZeroPriceCanRunShort | app/api.py:71-85 | a zero first price followed by a positive one makes the first log-return `+inf`, after which no rolling window and no weighted deviation is defined; `dropna` leaves nothing, so eight prices with lag 1 pass the first check and get the second 400, for either method |
| FromPrices.EnoughPositivePricesNever400 | app/api.py:64-85 | in a consistent store, a request with at least lag plus 7 positive prices is never answered 400, for either method |
| FromPrices.PositivePricesPassSecondCheck | app/api.py:81-85 | with positive prices the second length check never fires |
| FromPrices.FourteenPricesServeLagSeven | test/test_api.py:15-24 | 14 positive prices, lag 7, rolling: never 400, and a success echoes 7 features |
| FromPrices.FivePricesRefusedForLagSeven | app/api.py:61-68 | 5 prices, lag 7, either method: answered 400 |
| FromPrices.PredictFromPricesRoute | app/api.py:55-56 | validation refuses exactly a non-positive lag or an unknown method before the handler runs; an absent method is handled as `rolling`, and a given valid method as that method |
| Text.Before | app/api.py:101 | `split(sep)[0]` is a prefix of the string with no occurrence of `sep` inside it, and is followed by `sep` unless it is the whole string |
| Text.ParseInt | app/api.py:101 | `int()` succeeds exactly on one or more digits, optionally after one `+` or `-`, and only a `-` gives a negative value |
| Text.DecimalString | app/api.py:17 | the f-string spelling of a non-negative integer is non-empty, all digits, without a leading zero |
| Text.ParseIntOfDecimal | app/api.py:101 | `int()` reads back the decimal spelling of any non-negative integer |
| Text.ParseIntLeadingZero | app/api.py:101 | `int()` ignores a leading zero before a non-empty digit string, so with `Text.ParseIntOfDecimal` every digit string reads as its value |
| Text.ParseIntPlus | app/api.py:101 | a `+` before a digit string does not change what `int()` reads |
| Text.ParseIntMinus | app/api.py:101 | a `-` before a non-empty digit string makes `int()` read the negation of its value |
| Catalog.ListedLags | app/api.py:100-103 | the list comprehension over the listing, raising on the first bundle file whose lag does not parse (a definition; `Catalog.ListedLagsSpec` states what it gives) |
| Catalog.ListedLagsSpec | app/api.py:100-103 | the comprehension succeeds exactly when no bundle file has an unparsable lag; it then yields the parsed lags of the bundle files with multiplicity, and otherwise fails on a listed bundle file whose lag does not parse |
| Catalog.IsModelFile | app/api.py:102 | the filter keeps exactly the names that start with `model_lag` and end with `.joblib` (a definition; its partner is `Catalog.ParseLagOfModelFileName`) |
| Catalog.LagText | app/api.py:101 | the text after the first `model_lag` and before the next `.joblib` (a definition; `Catalog.LagTextOf` states what it gives) |
| Catalog.LagTextOf | app/api.py:101 | for any text without an `m` or a `.`, the name built around it passes the filter and its lag text is that text |
| Catalog.Sort | app/api.py:100 | sorting yields an ascending rearrangement of its input |
| Catalog.AvailableModels | app/api.py:97-104 | the answer is ascending and holds exactly the parsed lags of the bundle files, with multiplicity; a bundle file with a non-integer lag makes it fail with that file |
| Catalog.ParseLagOfModelFileName | app/api.py:101-102 | the name `/predict` looks up for a lag passes the filter and parses back to that lag |
| Catalog.PaddedNamesDuplicate | app/api.py:100-103 | `model_lag07.joblib` and `model_lag7.joblib` are listed as `[7, 7]`; the listing is not de-duplicated |
| Catalog.PaddedNameParses | app/api.py:101-102 | `model_lag07.joblib` passes the filter and reads as lag 7, because `int()` accepts a leading zero |
| Catalog.SameLagListedTwice | app/api.py:100-103 | two bundle files whose lags parse to the same value are listed as that value twice |
| Catalog.ListedLagsAppend | app/api.py:100-102 | listing two groups of files one after the other lists their lags one after the other |
| Catalog.ListingOrderIrrelevant | app/api.py:99-103 | whatever order the directory is listed in, a successful answer is the same |
| Catalog.OtherFilesIgnored | app/api.py:102 | a file that is not a bundle file changes nothing, wherever it is listed |
| Catalog.CatalogOfStore | app/api.py:97-104 | a directory with one canonically named bundle per distinct lag, plus other files, in any order, lists exactly those lags, strictly ascending |
| Service.CanonicalListingIsServed | app/api.py:17-19 | a lag read from a canonically named file is one `/predict` finds |
| Service.ListedLagsAreServed | app/api.py:17-19 | when the listing covers the directory `/predict` reads and every bundle file there is canonically named, every listed lag names a file in the directory; a positive one is not answered 404, and lag 0 is refused by validation first |
| Service.PaddedListingNotServed | app/api.py:99-104 | a zero-padded bundle is listed as its lag, while `/predict` for that lag answers 404 |

## Left out

- Bundle deserialisation is not modelled: `joblib.load` and the dictionary keys of the bundle become a directory of already-loaded artefacts. A file that does not load is `Corrupt`, and the framework answers it with a generic server error.
- The scalers and the regressor are opaque functions that return a row or a failure message. Their numeric behaviour is not modelled. The single-row matrix built by `reshape(1, -1)`, and the `[0]` that takes its first row, are represented by that row itself.
- Floating point is not modelled: values are `real`. A non-positive price is the one source of non-finite values the model keeps. It selects the opaque `nonFinite` routine instead of the finite computation. Overflow and NaN values coming out of the scalers or the regressor, and `np.maximum` on them, are not modelled.
- `np.log`, the window standard deviation and the exponentially weighted deviation at one position are opaque parameters (`Volatility.Numerics`). How pandas propagates `-inf` and NaN through the windows after a non-positive price is not modelled: that series is an opaque sequence, bounded only under `Volatility.DropsOnly`.
- Error detail strings (Spanish messages) are not modelled. Each error carries the quantities its message names: the lag, the expected and received counts, the minimum and the method, or the failure text.
- `Text.ParseInt` models Python's `int()` as an optional sign followed by ASCII digits. Surrounding whitespace, underscores between digits and non-ASCII digits, which Python also accepts, are treated as parse failures.
- FastAPI routing, JSON serialisation and pydantic's type coercion of lists and numbers are not modelled. Validation failures are collapsed to the list of failing field names.
- `os.path.exists` and `os.listdir` are replaced by data: the directory is a map from file name to artefact, and the listing is a sequence of names in arbitrary order. `Service.Lists` states that the listing covers the map's keys exactly once each.
- The training and evaluation code (test/test_model.py) is not modelled. Its RMSE and residual checks depend on trained weights and random noise.
