/** The `/available-models` handler: keep the directory entries named like
    bundle files, read the lag out of each name, and sort the lags. */
module Catalog {

  import opened Results
  import opened Text
  import opened Errors
  import opened Bundles

  /** The filter of the listing: names that start with the bundle prefix and
      end with the bundle suffix. */
  predicate IsModelFile(f: string) {
    StartsWith(f, ModelPrefix) && EndsWith(f, ModelSuffix)
  }

  /** `f.split("model_lag")[1].split(".joblib")[0]`. */
  function LagText(f: string): string
    requires IsModelFile(f)
  {
    Before(SecondField(f, ModelPrefix), ModelSuffix)
  }

  /** `int(...)` of the text between prefix and suffix. */
  function ParseLag(f: string): Option<int>
    requires IsModelFile(f)
  {
    ParseInt(LagText(f))
  }

  /** What one listed name adds to the catalog: its lag, or nothing when it
      is not a bundle file (or its lag does not parse). */
  function Contribution(f: string): multiset<int> {
    if IsModelFile(f) && ParseLag(f).Some? then multiset{ParseLag(f).value} else multiset{}
  }

  /** Everything the elements of `xs` add, counted with multiplicity. */
  function Bag<T>(xs: seq<T>, add: T -> multiset<int>): multiset<int> {
    if |xs| == 0 then multiset{} else add(xs[0]) + Bag(xs[1..], add)
  }

  /** The lags of all listed bundle files whose lag parses, counted with
      multiplicity. */
  function LagBag(names: seq<string>): multiset<int> {
    Bag(names, Contribution)
  }

  /** A bundle file whose lag text is not an integer. */
  predicate Malformed(f: string) {
    IsModelFile(f) && ParseLag(f).None?
  }

  /** No listed bundle file has an unparsable lag. */
  predicate AllParse(names: seq<string>) {
    |names| == 0 || (!Malformed(names[0]) && AllParse(names[1..]))
  }

  lemma {:induction false} AllParseEverywhere(names: seq<string>)
    ensures AllParse(names) <==> forall f :: f in names ==> !Malformed(f)
  {
    if |names| > 0 {
      AllParseEverywhere(names[1..]);
      assert names == [names[0]] + names[1..];
      assert forall f :: f in names <==> f == names[0] || f in names[1..];
    }
  }

  /** The list comprehension: the lags of the bundle files in listing order.
      The first bundle file whose lag does not parse raises, with its name. */
  function ListedLags(names: seq<string>): Result<seq<int>, string> {
    if |names| == 0 then Ok([])
    else if !IsModelFile(names[0]) then ListedLags(names[1..])
    else
      match ParseLag(names[0])
      case None => Err(names[0])
      case Some(lag) =>
        match ListedLags(names[1..])
        case Err(f) => Err(f)
        case Ok(rest) => Ok([lag] + rest)
  }

  /** The comprehension succeeds exactly when every bundle file's lag
      parses, and then yields those lags with their multiplicity; otherwise
      it fails with a listed bundle file whose lag does not parse. */
  lemma {:induction false} ListedLagsSpec(names: seq<string>)
    ensures ListedLags(names).Ok? <==> AllParse(names)
    ensures ListedLags(names).Ok? ==> multiset(ListedLags(names).value) == LagBag(names)
    ensures ListedLags(names).Err? ==> ListedLags(names).error in names && Malformed(ListedLags(names).error)
  {
    if |names| > 0 {
      var head, tail := names[0], names[1..];
      ListedLagsSpec(tail);
      assert names == [head] + tail;
      BagCons(head, tail, Contribution);
      if IsModelFile(head) && ParseLag(head).Some? && ListedLags(tail).Ok? {
        var lag, rest := ParseLag(head).value, ListedLags(tail).value;
        assert Contribution(head) == multiset{lag};
        assert multiset([lag] + rest) == multiset{lag} + multiset(rest);
      }
    }
  }

  predicate Sorted(s: seq<int>) {
    forall i, j :: 0 <= i < j < |s| ==> s[i] <= s[j]
  }

  predicate StrictlyAscending(s: seq<int>) {
    forall i, j :: 0 <= i < j < |s| ==> s[i] < s[j]
  }

  function Insert(x: int, s: seq<int>): (r: seq<int>)
    requires Sorted(s)
    ensures Sorted(r)
    ensures multiset(r) == multiset(s) + multiset{x}
    ensures r[0] == if |s| == 0 || x <= s[0] then x else s[0]
  {
    if |s| == 0 || x <= s[0] then [x] + s
    else
      var rest := Insert(x, s[1..]);
      assert s == [s[0]] + s[1..];
      assert s[0] <= rest[0];
      [s[0]] + rest
  }

  /** `sorted(...)`: an ascending rearrangement of the lags. */
  function Sort(s: seq<int>): (r: seq<int>)
    ensures Sorted(r)
    ensures multiset(r) == multiset(s)
  {
    if |s| == 0 then []
    else
      assert s == [s[0]] + s[1..];
      Insert(s[0], Sort(s[1..]))
  }

  /** `available_models` over the names `os.listdir` returns. */
  function AvailableModels(names: seq<string>): (r: Result<seq<int>, ApiError>)
    ensures r.Ok? <==> forall f :: f in names ==> !Malformed(f)
    ensures r.Ok? ==> Sorted(r.value) && multiset(r.value) == LagBag(names)
    ensures r.Err? ==> exists f :: f in names && Malformed(f) && r.error == Unhandled(MalformedLag(f))
  {
    AllParseEverywhere(names);
    ListedLagsSpec(names);
    match ListedLags(names)
    case Err(f) => Err(Unhandled(MalformedLag(f)))
    case Ok(lags) => Ok(Sort(lags))
  }

  /** The lag text of a name built from any text without an `m` or a `.` is
      that text: neither separator can occur inside it. */
  lemma {:induction false} LagTextOf(text: string)
    requires 'm' !in text && '.' !in text
    ensures IsModelFile(ModelPrefix + text + ModelSuffix)
    ensures LagText(ModelPrefix + text + ModelSuffix) == text
  {
    var f := ModelPrefix + text + ModelSuffix;
    assert f[..|ModelPrefix|] == ModelPrefix;
    assert f[|f| - |ModelSuffix|..] == ModelSuffix;
    assert f[|ModelPrefix|..] == text + ModelSuffix;
    assert 'm' !in ModelSuffix;
    BeforeAbsent(text + ModelSuffix, ModelPrefix);
    assert text + ModelSuffix == text + ModelSuffix + [];
    BeforeSeparator(text, ModelSuffix, []);
  }

  /** The name `/predict` looks up for a lag is listed as that lag. */
  lemma ParseLagOfModelFileName(lag: nat)
    ensures IsModelFile(ModelFileName(lag))
    ensures ParseLag(ModelFileName(lag)) == Some(lag)
  {
    var d := DecimalString(lag);
    assert 'm' !in d && '.' !in d by {
      forall i | 0 <= i < |d| ensures d[i] != 'm' && d[i] != '.' {
        assert IsDigit(d[i]);
      }
    }
    LagTextOf(d);
    ParseIntOfDecimal(lag);
  }

  /** Python's `int()` accepts leading zeros, so the zero-padded name
      `model_lag07.joblib` reads as lag 7, just as `model_lag7.joblib` does. */
  lemma PaddedNameParses()
    ensures IsModelFile(ModelPrefix + "07" + ModelSuffix)
    ensures ParseLag(ModelPrefix + "07" + ModelSuffix) == Some(7)
  {
    LagTextOf("07");
    assert "07"[..1] == "0";
    assert DigitsValue("07") == 7;
  }

  /** Listing a bundle file in front of others puts its lag in front. */
  lemma ListedLagsCons(f: string, lag: int, rest: seq<string>, lags: seq<int>)
    requires IsModelFile(f) && ParseLag(f) == Some(lag)
    requires ListedLags(rest) == Ok(lags)
    ensures ListedLags([f] + rest) == Ok([lag] + lags)
  {
    assert ([f] + rest)[1..] == rest;
  }

  /** Two bundle files that read as the same lag are both listed. */
  lemma SameLagListedTwice(f1: string, f2: string, lag: int)
    requires IsModelFile(f1) && ParseLag(f1) == Some(lag)
    requires IsModelFile(f2) && ParseLag(f2) == Some(lag)
    ensures AvailableModels([f1, f2]) == Ok([lag, lag])
  {
    ListedLagsOfParsed([f1, f2], [lag, lag]);
    SortedUnique(Sort([lag, lag]), [lag, lag]);
  }

  /** The catalog does not de-duplicate: `model_lag07.joblib` and
      `model_lag7.joblib` are both listed, so lag 7 appears twice. */
  lemma PaddedNamesDuplicate()
    ensures AvailableModels([ModelPrefix + "07" + ModelSuffix, ModelFileName(7)]) == Ok([7, 7])
  {
    PaddedNameParses();
    ParseLagOfModelFileName(7);
    SameLagListedTwice(ModelPrefix + "07" + ModelSuffix, ModelFileName(7), 7);
  }

  lemma {:induction false} BagAppend<T>(a: seq<T>, b: seq<T>, add: T -> multiset<int>)
    ensures Bag(a + b, add) == Bag(a, add) + Bag(b, add)
  {
    if |a| > 0 {
      assert (a + b)[0] == a[0];
      assert (a + b)[1..] == a[1..] + b;
      BagAppend(a[1..], b, add);
    } else {
      assert a + b == b;
    }
  }

  /** A value in a bag comes from one of the elements it is built from. */
  lemma {:induction false} BagWitness<T>(xs: seq<T>, add: T -> multiset<int>, x: int) returns (i: nat)
    requires x in Bag(xs, add)
    ensures i < |xs| && x in add(xs[i])
  {
    if x in add(xs[0]) {
      i := 0;
    } else {
      var j := BagWitness(xs[1..], add, x);
      i := j + 1;
    }
  }

  /** Taking one element out of a sequence takes what it adds out of the bag. */
  lemma BagRemove<T>(b: seq<T>, k: nat, add: T -> multiset<int>)
    requires k < |b|
    ensures Bag(b, add) == add(b[k]) + Bag(b[..k] + b[k + 1..], add)
  {
    var pre, post := b[..k], b[k + 1..];
    SplitAt(b, k);
    BagAppend(pre, [b[k]] + post, add);
    BagAppend(pre, post, add);
    BagCons(b[k], post, add);
    UnionSwap(Bag(pre, add), add(b[k]), Bag(post, add));
  }

  lemma SplitAt<T>(b: seq<T>, k: nat)
    requires k < |b|
    ensures b == b[..k] + ([b[k]] + b[k + 1..])
  {
  }

  lemma BagCons<T>(x: T, xs: seq<T>, add: T -> multiset<int>)
    ensures Bag([x] + xs, add) == add(x) + Bag(xs, add)
  {
    assert ([x] + xs)[1..] == xs;
  }

  lemma UnionSwap(p: multiset<int>, a: multiset<int>, q: multiset<int>)
    ensures p + (a + q) == a + (p + q)
  {
  }

  /** Removing matching elements from two permutations of each other leaves
      permutations of each other. */
  lemma MultisetRemove<T>(a: seq<T>, b: seq<T>, k: nat)
    requires multiset(a) == multiset(b) && 0 < |a| && k < |b| && b[k] == a[0]
    ensures multiset(a[1..]) == multiset(b[..k] + b[k + 1..])
  {
    assert b == b[..k] + [b[k]] + b[k + 1..];
    assert a == [a[0]] + a[1..];
    assert multiset(b) == multiset(b[..k]) + multiset{b[k]} + multiset(b[k + 1..]);
    assert multiset(a[1..]) == multiset(a) - multiset{a[0]};
  }

  /** A bag does not depend on the order of the elements it is built from. */
  lemma {:induction false} BagPermutation<T>(a: seq<T>, b: seq<T>, add: T -> multiset<int>)
    requires multiset(a) == multiset(b)
    ensures Bag(a, add) == Bag(b, add)
    decreases |a|
  {
    if |a| > 0 {
      assert a[0] in multiset(b);
      var k :| 0 <= k < |b| && b[k] == a[0];
      MultisetRemove(a, b, k);
      BagPermutation(a[1..], b[..k] + b[k + 1..], add);
      BagRemove(b, k, add);
    } else {
      assert |b| == |multiset(b)| == 0;
    }
  }

  /** Two ascending sequences with the same elements start alike. */
  lemma SortedHeads(a: seq<int>, b: seq<int>)
    requires Sorted(a) && Sorted(b) && multiset(a) == multiset(b) && |a| > 0 && |b| > 0
    ensures a[0] == b[0]
  {
    assert a[0] in multiset(b) && b[0] in multiset(a);
    var i :| 0 <= i < |a| && a[i] == b[0];
    var j :| 0 <= j < |b| && b[j] == a[0];
    assert a[0] <= a[i];
    assert b[0] <= b[j];
  }

  /** Dropping the first element of an ascending sequence keeps it
      ascending and takes that element out of its multiset. */
  lemma DropHead(a: seq<int>)
    requires Sorted(a) && |a| > 0
    ensures Sorted(a[1..])
    ensures multiset(a[1..]) == multiset(a) - multiset{a[0]}
    ensures a == [a[0]] + a[1..]
  {
    assert a == [a[0]] + a[1..];
    assert multiset(a) == multiset{a[0]} + multiset(a[1..]);
  }

  /** An ascending sequence is determined by its elements. */
  lemma {:induction false} SortedUnique(a: seq<int>, b: seq<int>)
    requires Sorted(a) && Sorted(b) && multiset(a) == multiset(b)
    ensures a == b
  {
    assert |a| == |multiset(a)| == |multiset(b)| == |b|;
    if |a| > 0 {
      SortedHeads(a, b);
      DropHead(a);
      DropHead(b);
      SortedUnique(a[1..], b[1..]);
    }
  }

  /** Whatever order the directory is listed in, the answer is the same. */
  lemma ListingOrderIrrelevant(names1: seq<string>, names2: seq<string>)
    requires multiset(names1) == multiset(names2)
    ensures AvailableModels(names1).Ok? <==> AvailableModels(names2).Ok?
    ensures AvailableModels(names1).Ok? ==> AvailableModels(names1) == AvailableModels(names2)
  {
    var r1, r2 := AvailableModels(names1), AvailableModels(names2);
    assert forall f :: f in names1 <==> f in names2 by {
      forall f ensures f in names1 <==> f in multiset(names1) {}
      forall f ensures f in names2 <==> f in multiset(names2) {}
    }
    if r1.Ok? {
      BagPermutation(names1, names2, Contribution);
      SortedUnique(r1.value, r2.value);
    }
  }

  /** Files that are not bundle files are ignored wherever they appear. */
  lemma {:induction false} OtherFilesIgnored(a: seq<string>, f: string, b: seq<string>)
    requires !IsModelFile(f)
    ensures ListedLags(a + [f] + b) == ListedLags(a + b)
  {
    if |a| > 0 {
      assert (a + [f] + b)[1..] == a[1..] + [f] + b;
      assert (a + b)[1..] == a[1..] + b;
      OtherFilesIgnored(a[1..], f, b);
    } else {
      assert a + [f] + b == [f] + b;
      assert ([f] + b)[1..] == b;
      assert a + b == b;
    }
  }

  /** The file names of a store holding one bundle per lag in `lags`. */
  function FileNames(lags: seq<nat>): seq<string> {
    seq(|lags|, i requires 0 <= i < |lags| => ModelFileName(lags[i]))
  }

  /** Bundle files whose lags all parse are listed as exactly those lags, in
      listing order. */
  lemma {:induction false} ListedLagsOfParsed(names: seq<string>, lags: seq<int>)
    requires |names| == |lags|
    requires forall i :: 0 <= i < |names| ==> IsModelFile(names[i]) && ParseLag(names[i]) == Some(lags[i])
    ensures ListedLags(names) == Ok(lags)
  {
    if |names| > 0 {
      ListedLagsOfParsed(names[1..], lags[1..]);
      ListedLagsCons(names[0], lags[0], names[1..], lags[1..]);
      assert names == [names[0]] + names[1..];
      assert lags == [lags[0]] + lags[1..];
    }
  }

  /** The lags of two listings side by side are the lags of each, side by
      side. */
  lemma {:induction false} ListedLagsAppend(a: seq<string>, b: seq<string>, x: seq<int>, y: seq<int>)
    requires ListedLags(a) == Ok(x) && ListedLags(b) == Ok(y)
    ensures ListedLags(a + b) == Ok(x + y)
  {
    if |a| == 0 {
      assert a + b == b;
      assert x + y == y;
    } else {
      assert (a + b)[0] == a[0];
      assert (a + b)[1..] == a[1..] + b;
      if IsModelFile(a[0]) {
        var lag := ParseLag(a[0]).value;
        var rest := ListedLags(a[1..]).value;
        assert x == [lag] + rest;
        ListedLagsAppend(a[1..], b, rest, y);
        assert x + y == [lag] + (rest + y);
      } else {
        ListedLagsAppend(a[1..], b, x, y);
      }
    }
  }

  /** Listing a store of bundle files named by `FileNames`, followed by
      other files, reads every lag back in listing order. */
  lemma ListedLagsOfStore(lags: seq<nat>, others: seq<string>)
    requires forall i :: 0 <= i < |others| ==> !IsModelFile(others[i])
    ensures ListedLags(FileNames(lags) + others) == Ok(lags)
  {
    var names := FileNames(lags);
    forall i | 0 <= i < |names|
      ensures IsModelFile(names[i]) && ParseLag(names[i]) == Some(lags[i])
    {
      ParseLagOfModelFileName(lags[i]);
    }
    ListedLagsOfParsed(names, lags);
    ListedLagsOfOthers(others);
    ListedLagsAppend(names, others, lags, []);
    assert lags + [] == lags;
  }

  lemma {:induction false} ListedLagsOfOthers(others: seq<string>)
    requires forall i :: 0 <= i < |others| ==> !IsModelFile(others[i])
    ensures ListedLags(others) == Ok([])
  {
    if |others| > 0 {
      ListedLagsOfOthers(others[1..]);
    }
  }

  /** A sequence without repeated lags has no lag twice in its multiset. */
  lemma {:induction false} DistinctCountsOne(s: seq<int>, x: int)
    requires forall i, j :: 0 <= i < j < |s| ==> s[i] != s[j]
    ensures multiset(s)[x] <= 1
  {
    if |s| > 0 {
      assert s == [s[0]] + s[1..];
      DistinctCountsOne(s[1..], x);
      if x == s[0] {
        assert x !in s[1..];
      }
    }
  }

  /** A value at two positions is counted at least twice. */
  lemma TwiceCounted(s: seq<int>, i: nat, j: nat)
    requires i < j < |s| && s[i] == s[j]
    ensures multiset(s)[s[j]] >= 2
  {
    assert s == s[..j] + [s[j]] + s[j + 1..];
    assert s[i] in s[..j];
    assert multiset(s) == multiset(s[..j]) + multiset{s[j]} + multiset(s[j + 1..]);
  }

  /** An ascending sequence with no element twice is strictly ascending. */
  lemma SortedOnceIsStrict(s: seq<int>)
    requires Sorted(s)
    requires forall x :: multiset(s)[x] <= 1
    ensures StrictlyAscending(s)
  {
    forall i, j | 0 <= i < j < |s| ensures s[i] < s[j] {
      if s[i] == s[j] {
        TwiceCounted(s, i, j);
      }
    }
  }

  /** For a store with one bundle file per lag (and any other files), listed
      in any order, the catalog is exactly those lags, strictly ascending. */
  lemma CatalogOfStore(lags: seq<nat>, others: seq<string>, names: seq<string>)
    requires forall i, j :: 0 <= i < j < |lags| ==> lags[i] != lags[j]
    requires forall i :: 0 <= i < |others| ==> !IsModelFile(others[i])
    requires multiset(names) == multiset(FileNames(lags) + others)
    ensures AvailableModels(names).Ok?
    ensures StrictlyAscending(AvailableModels(names).value)
    ensures forall x :: x in AvailableModels(names).value <==> x in lags
  {
    ListedLagsOfStore(lags, others);
    ListingOrderIrrelevant(names, FileNames(lags) + others);
    var r := AvailableModels(names).value;
    assert multiset(r) == multiset(lags);
    forall x ensures multiset(r)[x] <= 1 {
      DistinctCountsOne(lags, x);
    }
    SortedOnceIsStrict(r);
    forall x ensures x in r <==> x in lags {
      assert x in r <==> x in multiset(r);
      assert x in lags <==> x in multiset(lags);
    }
  }
}
