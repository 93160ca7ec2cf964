/** How the catalog and the prediction route see the same directory. */
module Service {

  import opened Results
  import opened Text
  import opened Errors
  import opened Bundles
  import opened Inference
  import opened Catalog

  /** A lag the catalog reads from a canonically named file is one `/predict`
      finds: the name it looks up is that very file. */
  lemma CanonicalListingIsServed(dir: Directory, lag: nat, features: seq<real>)
    requires lag > 0 && ModelFileName(lag) in dir
    ensures IsModelFile(ModelFileName(lag)) && ParseLag(ModelFileName(lag)) == Some(lag)
    ensures PredictRoute(dir, lag, features) != Err(NotFound(lag))
  {
    ParseLagOfModelFileName(lag);
  }

  /** `os.listdir` of the store: every file of the directory exactly once,
      in some order. The catalog and `/predict` read the same directory. */
  ghost predicate Lists(names: seq<string>, dir: Directory) {
    multiset(names) == multiset(dir.Keys)
  }

  /** Every bundle file in the directory carries the name `/predict` would
      look up for some lag. */
  ghost predicate CanonicallyNamed(dir: Directory) {
    forall f :: f in dir && IsModelFile(f) ==> exists k: nat :: f == ModelFileName(k)
  }

  /** When every bundle file is named canonically, each lag the catalog lists
      for the directory names a file in it: `/predict` does not answer 404
      for it (lag 0, which validation refuses first, included). */
  lemma ListedLagsAreServed(dir: Directory, names: seq<string>, lag: int, features: seq<real>)
    requires Lists(names, dir) && CanonicallyNamed(dir)
    requires AvailableModels(names).Ok? && lag in AvailableModels(names).value
    ensures lag >= 0 && ModelFileName(lag) in dir
    ensures PredictRoute(dir, lag, features) != Err(NotFound(lag))
  {
    assert lag in multiset(AvailableModels(names).value);
    var i := BagWitness(names, Contribution, lag);
    var f := names[i];
    assert IsModelFile(f) && ParseLag(f) == Some(lag);
    assert f in multiset(names);
    assert f in dir;
    var k: nat :| f == ModelFileName(k);
    ParseLagOfModelFileName(k);
    if k > 0 {
      CanonicalListingIsServed(dir, k, features);
    }
  }

  /** A zero-padded bundle name (`model_lag07.joblib`) is listed as its lag,
      yet `/predict` for that lag looks up the unpadded name and answers 404. */
  lemma PaddedListingNotServed(b: Bundle, features: seq<real>)
    ensures Lists([ModelPrefix + "07" + ModelSuffix], map[ModelPrefix + "07" + ModelSuffix := Loaded(b)])
    ensures AvailableModels([ModelPrefix + "07" + ModelSuffix]) == Ok([7])
    ensures PredictRoute(map[ModelPrefix + "07" + ModelSuffix := Loaded(b)], 7, features) == Err(NotFound(7))
  {
    PaddedNameParses();
    ListedLagsOfParsed([ModelPrefix + "07" + ModelSuffix], [7]);
    SortedUnique(Sort([7]), [7]);
    assert ModelFileName(7) != ModelPrefix + "07" + ModelSuffix by {
      assert |DecimalString(7)| == 1;
    }
  }
}
