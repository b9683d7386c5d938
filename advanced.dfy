/** Embedding-path ranking (advanced_comparison.py): the guards around the
    cosine similarity of two feature vectors, and the assembly of one
    (path, score) pair per comparison image, stably sorted by score,
    highest first. The feature extractor and the cosine distance are
    library computations and stay abstract (`Embedder`). */
module AdvancedComparison {
  import opened Common
  import opened StableSort
  import opened MaskUtils

  /** The outcome of scipy's cosine distance: a number, NaN, or an
      exception. */
  datatype Num = Real(v: real) | NaN | Raised

  /** What opening, flipping top to bottom and embedding one comparison
      image gives: an exception, or the features (None when extraction
      failed). */
  datatype Attempt = Failed | Extracted(features: Option<seq<real>>)

  /** An ImageComparator together with the libraries it depends on. Its
      `model` is set once, when it is constructed, and never changed. */
  datatype Embedder = Embedder(
    /** Pillow and TensorFlow/Keras were importable. */
    librariesPresent: bool,
    /** `_load_vgg16_model` returned a model. */
    modelLoads: bool,
    /** get_features on an image path. */
    features: string -> Option<seq<real>>,
    /** Image.open, transpose(FLIP_TOP_BOTTOM) and get_features on a path. */
    flippedFeatures: string -> Attempt,
    /** scipy.spatial.distance.cosine. */
    cosine: (seq<real>, seq<real>) -> Num
  )

  /** `np.all(v == 0)`; true for the empty vector. */
  predicate AllZeros(v: seq<real>)
  {
    forall i :: 0 <= i < |v| ==> v[i] == 0.0
  }

  /** compare_features: 0.0 for a missing or all-zero vector and for a
      cosine distance that is NaN or raises; otherwise 1 - distance. */
  function CompareFeatures(f1: Option<seq<real>>, f2: Option<seq<real>>, cosine: (seq<real>, seq<real>) -> Num): (r: real)
    ensures f1.None? || f2.None? ==> r == 0.0
    ensures f1.Some? && f2.Some? && (AllZeros(f1.value) || AllZeros(f2.value)) ==> r == 0.0
    ensures f1.Some? && f2.Some? && !cosine(f1.value, f2.value).Real? ==> r == 0.0
    ensures r != 0.0 ==>
      && f1.Some? && f2.Some? && !AllZeros(f1.value) && !AllZeros(f2.value)
      && cosine(f1.value, f2.value) == Real(1.0 - r)
    ensures f1.Some? && f2.Some? && !AllZeros(f1.value) && !AllZeros(f2.value) && cosine(f1.value, f2.value).Real? ==>
      r == 1.0 - cosine(f1.value, f2.value).v
  {
    if f1.None? || f2.None? then 0.0
    else if AllZeros(f1.value) || AllZeros(f2.value) then 0.0
    else
      match cosine(f1.value, f2.value)
      case Real(d) => 1.0 - d
      case NaN => 0.0
      case Raised => 0.0
  }

  /** A cosine distance that stays in its range [0, 2] whenever it is a
      number makes every similarity lie in [-1, 1], the 0.0 of the guards
      included. */
  ghost predicate CosineInRange(cosine: (seq<real>, seq<real>) -> Num)
  {
    forall a, b :: cosine(a, b).Real? ==> 0.0 <= cosine(a, b).v <= 2.0
  }

  lemma SimilarityInRange(f1: Option<seq<real>>, f2: Option<seq<real>>, cosine: (seq<real>, seq<real>) -> Num)
    requires CosineInRange(cosine)
    ensures -1.0 <= CompareFeatures(f1, f2, cosine) <= 1.0
  {
    if f1.Some? && f2.Some? {
      var d := cosine(f1.value, f2.value);
      if d.Real? {
        assert 0.0 <= d.v <= 2.0;
      }
    }
  }

  /** The score of one comparison path: 0.0 when the image cannot be
      opened or embedded, otherwise compare_features against the
      reference. */
  function ScoreFor(e: Embedder, reference: seq<real>, path: string): (s: real)
    ensures e.flippedFeatures(path).Failed? ==> s == 0.0
    ensures e.flippedFeatures(path).Extracted? && e.flippedFeatures(path).features.None? ==> s == 0.0
    ensures e.flippedFeatures(path).Extracted? && e.flippedFeatures(path).features.Some? ==>
      s == CompareFeatures(Some(reference), e.flippedFeatures(path).features, e.cosine)
  {
    match e.flippedFeatures(path)
    case Failed => 0.0
    case Extracted(None) => 0.0
    case Extracted(Some(f)) => CompareFeatures(Some(reference), Some(f), e.cosine)
  }

  /** The pairs in input order, before sorting. */
  function Pairs(e: Embedder, reference: seq<real>, paths: seq<string>): (ps: seq<(string, real)>)
    ensures |ps| == |paths|
    ensures forall i :: 0 <= i < |paths| ==> ps[i] == (paths[i], ScoreFor(e, reference, paths[i]))
  {
    seq(|paths|, i requires 0 <= i < |paths| => (paths[i], ScoreFor(e, reference, paths[i])))
  }

  function Score(p: (string, real)): real
  {
    p.1
  }

  /** What run_vgg16_comparison returns: [] when a library or the model is
      missing or the reference cannot be embedded; otherwise the pairs
      stably sorted by score, highest first. */
  function VggResult(e: Embedder, referencePath: string, paths: seq<string>): seq<(string, real)>
  {
    if !e.librariesPresent || !e.modelLoads then []
    else
      match e.features(referencePath)
      case None => []
      case Some(reference) => Sort(Pairs(e, reference, paths), Score, Greater)
  }

  /** run_vgg16_comparison: one loop appending a pair per path, then the
      descending sort of that list. */
  method RunVgg16Comparison(e: Embedder, referencePath: string, paths: seq<string>)
    returns (similarities: seq<(string, real)>)
    ensures similarities == VggResult(e, referencePath, paths)
  {
    if !e.librariesPresent {
      return [];
    }
    if !e.modelLoads {
      return [];
    }
    var refFeatures := e.features(referencePath);
    if refFeatures.None? {
      return [];
    }
    similarities := [];
    var i := 0;
    while i < |paths|
      invariant 0 <= i <= |paths|
      invariant similarities == Pairs(e, refFeatures.value, paths[..i])
    {
      var compPath := paths[i];
      match e.flippedFeatures(compPath) {
        case Failed =>
          similarities := similarities + [(compPath, 0.0)];
        case Extracted(compFeaturesFlipped) =>
          if compFeaturesFlipped.Some? {
            var similarity := CompareFeatures(refFeatures, compFeaturesFlipped, e.cosine);
            similarities := similarities + [(compPath, similarity)];
          } else {
            similarities := similarities + [(compPath, 0.0)];
          }
      }
      assert paths[..i + 1] == paths[..i] + [paths[i]];
      i := i + 1;
    }
    assert paths[..i] == paths;
    similarities := Sort(similarities, Score, Greater);
  }

  /** The first components of a list of pairs. */
  function Firsts<A, B>(s: seq<(A, B)>): (r: seq<A>)
    ensures |r| == |s|
  {
    if s == [] then [] else [s[0].0] + Firsts(s[1..])
  }

  lemma {:induction false} FirstsAt<A, B>(s: seq<(A, B)>, i: nat)
    requires i < |s|
    ensures Firsts(s)[i] == s[i].0
    decreases i
  {
    if i > 0 {
      FirstsAt(s[1..], i - 1);
    }
  }

  /** Removing position m from a sequence removes one occurrence of its
      element. */
  lemma RemoveAt<T>(t: seq<T>, m: nat)
    requires m < |t|
    ensures multiset(t) == multiset(t[..m] + t[m + 1..]) + multiset{t[m]}
  {
    assert t == t[..m] + [t[m]] + t[m + 1..];
  }

  /** Removing position m commutes with taking first components. */
  lemma FirstsRemoveAt<A, B>(t: seq<(A, B)>, m: nat)
    requires m < |t|
    ensures Firsts(t[..m] + t[m + 1..]) == Firsts(t)[..m] + Firsts(t)[m + 1..]
  {
    var rest := t[..m] + t[m + 1..];
    var f := Firsts(t);
    forall i | 0 <= i < |rest| ensures Firsts(rest)[i] == (f[..m] + f[m + 1..])[i] {
      FirstsAt(rest, i);
      if i < m {
        FirstsAt(t, i);
      } else {
        FirstsAt(t, i + 1);
      }
    }
  }

  lemma MultisetCancel<T>(a: multiset<T>, b: multiset<T>, x: T)
    requires a + multiset{x} == b + multiset{x}
    ensures a == b
  {
    assert a == (a + multiset{x}) - multiset{x};
    assert b == (b + multiset{x}) - multiset{x};
  }

  /** Removing position m from a list of pairs removes one occurrence of
      its first component from the first components. */
  lemma FirstsRemove<A, B>(t: seq<(A, B)>, m: nat)
    requires m < |t|
    ensures multiset(Firsts(t)) == multiset(Firsts(t[..m] + t[m + 1..])) + multiset{t[m].0}
  {
    FirstsRemoveAt(t, m);
    FirstsAt(t, m);
    RemoveAt(Firsts(t), m);
  }

  /** Lists of pairs that are permutations of each other have first
      components that are permutations of each other. */
  lemma {:induction false} FirstsOfPermutation<A, B>(s: seq<(A, B)>, t: seq<(A, B)>)
    requires multiset(s) == multiset(t)
    ensures multiset(Firsts(s)) == multiset(Firsts(t))
    decreases |s|
  {
    if s == [] {
      assert |t| == |multiset(t)| == 0;
    } else {
      assert s[0] in t by {
        assert s[0] in multiset(s);
      }
      var m :| 0 <= m < |t| && t[m] == s[0];
      var rest := t[..m] + t[m + 1..];
      assert multiset(s[1..]) == multiset(rest) by {
        assert s == [s[0]] + s[1..];
        RemoveAt(t, m);
        MultisetCancel(multiset(s[1..]), multiset(rest), s[0]);
      }
      calc {
        multiset(Firsts(s));
        { assert Firsts(s) == [s[0].0] + Firsts(s[1..]); }
        multiset{s[0].0} + multiset(Firsts(s[1..]));
        { FirstsOfPermutation(s[1..], rest); }
        multiset{t[m].0} + multiset(Firsts(rest));
        { FirstsRemove(t, m); }
        multiset(Firsts(t));
      }
    }
  }

  /** A permutation of the pairs still pairs every path with its own
      score. */
  lemma PermutedPairsScored(e: Embedder, reference: seq<real>, paths: seq<string>, r: seq<(string, real)>)
    requires multiset(r) == multiset(Pairs(e, reference, paths))
    ensures forall i :: 0 <= i < |r| ==> r[i].1 == ScoreFor(e, reference, r[i].0)
  {
    var pairs := Pairs(e, reference, paths);
    forall i | 0 <= i < |r| ensures r[i].1 == ScoreFor(e, reference, r[i].0) {
      assert r[i] in multiset(pairs);
      var m :| 0 <= m < |pairs| && pairs[m] == r[i];
    }
  }

  /** The first components of the pairs are the paths. */
  lemma FirstsOfPairs(e: Embedder, reference: seq<real>, paths: seq<string>)
    ensures Firsts(Pairs(e, reference, paths)) == paths
  {
    var pairs := Pairs(e, reference, paths);
    forall i | 0 <= i < |paths| ensures Firsts(pairs)[i] == paths[i] {
      FirstsAt(pairs, i);
    }
  }

  /** run_vgg16_comparison returns [] exactly on a setup failure or when
      there are no paths. Otherwise every input path appears exactly once,
      each with its own score (0.0 on a per-image failure), scores never
      increase along the list, and pairs of equal score keep input order. */
  lemma VggResultProperties(e: Embedder, referencePath: string, paths: seq<string>)
    ensures var r := VggResult(e, referencePath, paths);
      r == [] <==> !e.librariesPresent || !e.modelLoads || e.features(referencePath).None? || paths == []
    ensures e.librariesPresent && e.modelLoads && e.features(referencePath).Some? ==>
      var reference := e.features(referencePath).value;
      var r := VggResult(e, referencePath, paths);
      && multiset(Firsts(r)) == multiset(paths)
      && (forall i :: 0 <= i < |r| ==> r[i].1 == ScoreFor(e, reference, r[i].0))
      && (forall i, j :: 0 <= i < j < |r| ==> r[i].1 >= r[j].1)
      && KeepsOrderPerKey(r, Pairs(e, reference, paths), Score)
  {
    if e.librariesPresent && e.modelLoads && e.features(referencePath).Some? {
      var reference := e.features(referencePath).value;
      var pairs := Pairs(e, reference, paths);
      var r := Sort(pairs, Score, Greater);
      assert r == VggResult(e, referencePath, paths);
      GreaterIsStrictTotal();
      SortPermutes(pairs, Score, Greater);
      SortSorted(pairs, Score, Greater);
      SortKeepsOrderPerKey(pairs, Score, Greater);
      assert |r| == |multiset(r)| == |multiset(pairs)| == |paths|;
      FirstsOfPermutation(r, pairs);
      FirstsOfPairs(e, reference, paths);
      PermutedPairsScored(e, reference, paths, r);
      forall i, j | 0 <= i < j < |r| ensures r[i].1 >= r[j].1 {
        assert !Greater(Score(r[j]), Score(r[i]));
      }
    }
  }

  /** With a cosine distance in its range, every score run_vgg16_comparison
      returns lies in [-1, 1]. */
  lemma VggScoresInRange(e: Embedder, referencePath: string, paths: seq<string>)
    requires CosineInRange(e.cosine)
    ensures var r := VggResult(e, referencePath, paths);
      forall i :: 0 <= i < |r| ==> -1.0 <= r[i].1 <= 1.0
  {
    VggResultProperties(e, referencePath, paths);
    if e.librariesPresent && e.modelLoads && e.features(referencePath).Some? {
      var reference := e.features(referencePath).value;
      var r := VggResult(e, referencePath, paths);
      forall i | 0 <= i < |r| ensures -1.0 <= r[i].1 <= 1.0 {
        if e.flippedFeatures(r[i].0).Extracted? {
          SimilarityInRange(Some(reference), e.flippedFeatures(r[i].0).features, e.cosine);
        }
      }
    }
  }
}
