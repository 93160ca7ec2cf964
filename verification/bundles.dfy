/** The bundle store: the files of the model directory, each read back as a
    trained bundle of a regressor, two scalers and the lag it was trained
    for. */
module Bundles {

  import opened Results
  import opened Text

  /** One opaque numeric step applied to a single-row input; it either
      produces a row or raises with a message. */
  type Stage = seq<real> -> Result<seq<real>, string>

  /** A fitted scaler; the API uses only the forward transform of the input
      scaler and the inverse transform of the output scaler. */
  datatype Scaler = Scaler(transform: Stage, inverseTransform: Stage)

  /** A fitted regressor. */
  datatype Regressor = Regressor(predict: Stage)

  /** The contents of a bundle file once deserialised: the regressor, the
      input and output scalers, and the lag recorded in its metadata. */
  datatype Bundle = Bundle(model: Regressor, scalerX: Scaler, scalerY: Scaler, infoLag: int)

  /** What deserialising a file yields: a bundle with all its keys, or a
      failure (an unreadable file or a missing key). */
  datatype Artifact = Loaded(bundle: Bundle) | Corrupt

  /** The model directory: every file name in it with what loading it gives. */
  type Directory = map<string, Artifact>

  const ModelPrefix: string := "model_lag"
  const ModelSuffix: string := ".joblib"

  /** The file name the bundle for `lag` is stored under. */
  function ModelFileName(lag: nat): string {
    ModelPrefix + DecimalString(lag) + ModelSuffix
  }

  /** A bundle name starts with the prefix, ends with the suffix, and holds
      the decimal spelling of its lag in between. */
  lemma ModelFileNameShape(lag: nat)
    ensures StartsWith(ModelFileName(lag), ModelPrefix) && EndsWith(ModelFileName(lag), ModelSuffix)
    ensures |ModelFileName(lag)| == |ModelPrefix| + |DecimalString(lag)| + |ModelSuffix|
    ensures ModelFileName(lag)[|ModelPrefix|..|ModelFileName(lag)| - |ModelSuffix|] == DecimalString(lag)
  {
    var name := ModelFileName(lag);
    assert name[..|ModelPrefix|] == ModelPrefix;
    assert name[|name| - |ModelSuffix|..] == ModelSuffix;
  }

  /** Every readable bundle records the lag its file name encodes. */
  ghost predicate ConsistentStore(dir: Directory) {
    forall lag: nat ::
      ModelFileName(lag) in dir && dir[ModelFileName(lag)].Loaded? ==>
        dir[ModelFileName(lag)].bundle.infoLag == lag
  }

  /** Distinct lags are stored under distinct names. */
  lemma ModelFileNameInjective(a: nat, b: nat)
    ensures ModelFileName(a) == ModelFileName(b) <==> a == b
  {
    if ModelFileName(a) == ModelFileName(b) {
      ModelFileNameShape(a);
      ModelFileNameShape(b);
      DigitsValueOfDecimal(a);
      DigitsValueOfDecimal(b);
    }
  }
}
