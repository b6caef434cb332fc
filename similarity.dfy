/**
 * `SimilarityMeasures`: five ways of scoring how alike two feature dictionaries are, and
 * `compute_similarity`, which looks two keys up in an index and scores the features of their first
 * entries.
 *
 * Every generator expression of the form `... for feature in features1 if feature in features2`
 * becomes a sum over `CommonKeys(a, b)`: the feature names of `a`, in order, that `b` also has.
 * Square roots come from the parameter `sqrt`.
 */
module Similarity {
  import opened Wrappers
  import opened Features
  import Statistics
  import RealArith

  // ---------------------------------------------------------------- sums over feature names

  /** The feature names of `a`, in order, that `b` also has. */
  function CommonKeys(a: FeatureVector, b: FeatureVector): (ks: seq<string>)
    ensures forall k :: k in ks <==> HasKey(a, k) && HasKey(b, k)
    decreases |a|
  {
    if a == [] then []
    else
      var init := a[..|a| - 1];
      var k := a[|a| - 1].0;
      assert Keys(a) == Keys(init) + [k];
      CommonKeys(init, b) + (if HasKey(b, k) then [k] else [])
  }

  /** `sum(g(k) for k in ks)`. */
  function SumOver(ks: seq<string>, g: string -> real): real
    decreases |ks|
  {
    if ks == [] then 0.0 else SumOver(ks[..|ks| - 1], g) + g(ks[|ks| - 1])
  }

  /** `sum(value ** 2 for value in fv.values())`. */
  function SquaresOfValues(fv: FeatureVector): real
    decreases |fv|
  {
    if fv == [] then 0.0 else SquaresOfValues(fv[..|fv| - 1]) + fv[|fv| - 1].1 * fv[|fv| - 1].1
  }

  /** `(fv1[k] - fv2[k]) ** 2`, one term of the Euclidean distance. */
  function SquaredDifference(a: FeatureVector, b: FeatureVector, k: string): (r: real)
    ensures r >= 0.0
    ensures r == 0.0 <==> ValueOf(a, k) == ValueOf(b, k)
  {
    var d := ValueOf(a, k) - ValueOf(b, k);
    RealArith.SquareSign(d);
    d * d
  }

  /** `abs(fv1[k] - fv2[k])`, one term of the Manhattan distance. */
  function AbsDifference(a: FeatureVector, b: FeatureVector, k: string): (r: real)
    ensures r >= 0.0
    ensures r == 0.0 <==> ValueOf(a, k) == ValueOf(b, k)
  {
    var d := ValueOf(a, k) - ValueOf(b, k);
    if d < 0.0 then -d else d
  }

  /** The Euclidean distance before its square root: never negative. */
  function SquaredDistance(a: FeatureVector, b: FeatureVector): (d: real)
    ensures d >= 0.0
  {
    SumOverNonNegative(CommonKeys(a, b), k => SquaredDifference(a, b, k));
    SumOver(CommonKeys(a, b), k => SquaredDifference(a, b, k))
  }

  /** The Manhattan distance over the common features: never negative. */
  function ManhattanDistance(a: FeatureVector, b: FeatureVector): (d: real)
    ensures d >= 0.0
  {
    SumOverNonNegative(CommonKeys(a, b), k => AbsDifference(a, b, k));
    SumOver(CommonKeys(a, b), k => AbsDifference(a, b, k))
  }

  // ---------------------------------------------------------------- the five metrics

  /** `euclidean_similarity`: `1 / (1 + sqrt(sum of squared differences over the common features))`. */
  function Euclidean(a: FeatureVector, b: FeatureVector, sqrt: real -> real): (r: real)
    requires Statistics.SqrtSpec(sqrt)
    ensures 0.0 < r <= 1.0
  {
    RealArith.Reciprocal(sqrt(SquaredDistance(a, b)));
    1.0 / (1.0 + sqrt(SquaredDistance(a, b)))
  }

  /** `cosine_similarity`: the dot product over the common features divided by both full magnitudes, or 0 when a magnitude is 0. */
  function Cosine(a: FeatureVector, b: FeatureVector, sqrt: real -> real): (r: real)
    ensures SumProducts(CommonKeys(a, b), a, b) == 0.0 ==> r == 0.0
  {
    var dot := SumProducts(CommonKeys(a, b), a, b);
    var magnitude1 := sqrt(SquaresOfValues(a));
    var magnitude2 := sqrt(SquaresOfValues(b));
    if magnitude1 == 0.0 || magnitude2 == 0.0 then 0.0 else dot / (magnitude1 * magnitude2)
  }

  /** Why a metric raises: `math.sqrt` of a negative number. */
  const MathDomainError: string := "math domain error"

  /** `sum(fv[k] for k in ks)`. */
  function SumValues(ks: seq<string>, fv: FeatureVector): real
  {
    SumOver(ks, k => ValueOf(fv, k))
  }

  /** `sum(a[k] * b[k] for k in ks)`. */
  function SumProducts(ks: seq<string>, a: FeatureVector, b: FeatureVector): real
  {
    SumOver(ks, k => ValueOf(a, k) * ValueOf(b, k))
  }

  /** `sum_products - sum1 * sum2 / n` over the common features: `n` times the covariance of `a` and `b` on them. */
  function CoSpread(common: seq<string>, a: FeatureVector, b: FeatureVector): real
    requires |common| > 0
  {
    SumProducts(common, a, b) - SumValues(common, a) * SumValues(common, b) / (|common| as real)
  }

  /** `sum_sq - sum ** 2 / n` over the common features: `n` times the variance of `fv` on them. */
  function Spread(common: seq<string>, fv: FeatureVector): real
    requires |common| > 0
  {
    CoSpread(common, fv, fv)
  }

  /**
   * `pearson_similarity`: 0 without common features or with a zero denominator; `math.sqrt` raises
   * on a negative radicand.
   */
  function Pearson(a: FeatureVector, b: FeatureVector, sqrt: real -> real): (r: Result<real, string>)
    ensures r.Failure? ==> r.error == MathDomainError && |CommonKeys(a, b)| > 0
  {
    var common := CommonKeys(a, b);
    if |common| == 0 then Success(0.0)
    else PearsonRatio(CoSpread(common, a, b), Spread(common, a), Spread(common, b), sqrt)
  }

  /** The last step of `pearson_similarity`: `numerator / sqrt(spread1 * spread2)`, guarded as the source guards it. */
  function PearsonRatio(numerator: real, spread1: real, spread2: real, sqrt: real -> real): Result<real, string>
  {
    var radicand := spread1 * spread2;
    if radicand < 0.0 then Failure(MathDomainError)
    else
      var denominator := sqrt(radicand);
      if denominator == 0.0 then Success(0.0) else Success(numerator / denominator)
  }

  /** The set of feature names of `fv`. */
  function KeySet(fv: FeatureVector): (s: set<string>)
    ensures forall k :: k in s <==> HasKey(fv, k)
  {
    set k | k in Keys(fv)
  }

  /** `jaccard_similarity`: shared feature names over all feature names, or 0 when there are none. */
  function Jaccard(a: FeatureVector, b: FeatureVector): (r: real)
    ensures 0.0 <= r <= 1.0
  {
    var A, B := KeySet(a), KeySet(b);
    var intersection := |A * B|;
    var union := |A + B|;
    if union == 0 then 0.0
    else
      assert A * B <= A + B;
      SubsetCard(A * B, A + B);
      RealArith.RatioBounds(intersection as real, union as real);
      (intersection as real) / (union as real)
  }

  /** `manhattan_similarity`: `1 / (1 + sum of absolute differences over the common features)`. */
  function Manhattan(a: FeatureVector, b: FeatureVector): (r: real)
    ensures 0.0 < r <= 1.0
  {
    RealArith.Reciprocal(ManhattanDistance(a, b));
    1.0 / (1.0 + ManhattanDistance(a, b))
  }

  /** The metrics the application offers. */
  datatype Metric = EuclideanMetric | CosineMetric | PearsonMetric | JaccardMetric | ManhattanMetric

  /** Calling the chosen metric. */
  function Measure(metric: Metric, a: FeatureVector, b: FeatureVector, sqrt: real -> real): (r: Result<real, string>)
    requires Statistics.SqrtSpec(sqrt)
    ensures r.Failure? ==> metric == PearsonMetric && r.error == MathDomainError
    ensures metric in {EuclideanMetric, ManhattanMetric} ==> r.Success? && 0.0 < r.value <= 1.0
    ensures metric == JaccardMetric ==> r.Success? && 0.0 <= r.value <= 1.0
  {
    match metric
    case EuclideanMetric => Success(Euclidean(a, b, sqrt))
    case CosineMetric => Success(Cosine(a, b, sqrt))
    case PearsonMetric => Pearson(a, b, sqrt)
    case JaccardMetric => Success(Jaccard(a, b))
    case ManhattanMetric => Success(Manhattan(a, b))
  }

  // ---------------------------------------------------------------- compute_similarity

  /** What `compute_similarity` raises: a `ValueError` with its message, or an `IndexError` for a key whose list is empty. */
  datatype SimilarityError = ValueError(message: string) | IndexError(key: string)

  function NotFound1(id1: string): string
  {
    "Artist Name " + id1 + " not found in the dataset."
  }

  /** The second message has no `f` prefix, so it names `{id2}` literally. */
  const NotFound2: string := "Artist Name {id2} not found in the dataset."

  /**
   * `compute_similarity`: a missing `id1` is reported first and names it; a missing `id2` is reported
   * with the literal message; otherwise the first entries' features, normalized only when `stats`
   * is not empty, are scored.
   */
  function ComputeSimilarity(data: Index, id1: string, id2: string, metric: Metric, stats: Statistics.Stats, sqrt: real -> real): (r: Result<real, SimilarityError>)
    requires Statistics.SqrtSpec(sqrt)
    ensures Lookup(data, id1).None? ==> r == Failure(ValueError(NotFound1(id1)))
    ensures Lookup(data, id1).Some? && Lookup(data, id2).None? ==> r == Failure(ValueError(NotFound2))
    ensures Lookup(data, id1) == Some([]) && Lookup(data, id2).Some? ==> r == Failure(IndexError(id1))
    ensures Lookup(data, id1).Some? && Lookup(data, id1).value != [] && Lookup(data, id2) == Some([]) ==> r == Failure(IndexError(id2))
    ensures r.Failure? && r.error.IndexError? ==>
      (Lookup(data, id1) == Some([]) && r.error.key == id1) || (Lookup(data, id1).Some? && Lookup(data, id2) == Some([]) && r.error.key == id2)
  {
    match Lookup(data, id1)
    case None => Failure(ValueError(NotFound1(id1)))
    case Some(items1) =>
      match Lookup(data, id2)
      case None => Failure(ValueError(NotFound2))
      case Some(items2) =>
        if items1 == [] then Failure(IndexError(id1))
        else if items2 == [] then Failure(IndexError(id2))
        else
          var features1 := items1[0].features;
          var features2 := items2[0].features;
          var (f1, f2) := if |stats| > 0 then (Statistics.NormalizeFeatures(features1, stats), Statistics.NormalizeFeatures(features2, stats))
                          else (features1, features2);
          match Measure(metric, f1, f2, sqrt)
          case Success(score) => Success(score)
          case Failure(message) => Failure(ValueError(message))
  }

  // ---------------------------------------------------------------- properties of the sums

  /** Removing one name from the list removes its term from the sum. */
  lemma {:induction false} SumOverRemove(ks: seq<string>, g: string -> real, j: nat)
    requires j < |ks|
    ensures SumOver(ks, g) == SumOver(ks[..j] + ks[j + 1..], g) + g(ks[j])
    decreases |ks|
  {
    var init := ks[..|ks| - 1];
    if j < |ks| - 1 {
      SumOverRemove(init, g, j);
      var rest := ks[..j] + ks[j + 1..];
      assert rest[..|rest| - 1] == init[..j] + init[j + 1..];
      assert rest[|rest| - 1] == ks[|ks| - 1];
    } else {
      assert ks[..j] + ks[j + 1..] == init;
    }
  }

  /** The order of the names does not change the sum. */
  lemma {:induction false} SumOverPermutation(ks1: seq<string>, ks2: seq<string>, g: string -> real)
    requires multiset(ks1) == multiset(ks2)
    ensures SumOver(ks1, g) == SumOver(ks2, g)
    decreases |ks1|
  {
    if ks1 != [] {
      var x := ks1[|ks1| - 1];
      var init := ks1[..|ks1| - 1];
      assert ks1 == init + [x];
      assert x in multiset(ks2);
      var j :| 0 <= j < |ks2| && ks2[j] == x;
      var rest := ks2[..j] + ks2[j + 1..];
      assert ks2 == ks2[..j] + [x] + ks2[j + 1..];
      assert multiset(ks2) == multiset(ks2[..j]) + multiset{x} + multiset(ks2[j + 1..]);
      assert multiset(rest) == multiset(ks2[..j]) + multiset(ks2[j + 1..]);
      assert multiset(ks1) == multiset(init) + multiset{x};
      assert multiset(init) == multiset(ks1) - multiset{x};
      assert multiset(rest) == multiset(ks2) - multiset{x};
      SumOverPermutation(init, rest, g);
      SumOverRemove(ks2, g, j);
    } else {
      assert |ks2| == |multiset(ks2)| == 0;
    }
  }

  /** Sums of terms that agree on every name agree. */
  lemma {:induction false} SumOverPointwise(ks: seq<string>, g1: string -> real, g2: string -> real)
    requires forall k :: k in ks ==> g1(k) == g2(k)
    ensures SumOver(ks, g1) == SumOver(ks, g2)
    decreases |ks|
  {
    if ks != [] {
      assert forall k :: k in ks[..|ks| - 1] ==> k in ks;
      SumOverPointwise(ks[..|ks| - 1], g1, g2);
    }
  }

  /** A sum of non-negative terms is non-negative, and is zero exactly when every term is. */
  lemma {:induction false} SumOverNonNegative(ks: seq<string>, g: string -> real)
    requires forall k :: k in ks ==> g(k) >= 0.0
    ensures SumOver(ks, g) >= 0.0
    ensures SumOver(ks, g) == 0.0 <==> forall k :: k in ks ==> g(k) == 0.0
    decreases |ks|
  {
    if ks != [] {
      var init := ks[..|ks| - 1];
      assert ks == init + [ks[|ks| - 1]];
      assert forall k :: k in ks <==> k in init || k == ks[|ks| - 1];
      SumOverNonNegative(init, g);
    }
  }

  /** With distinct names in `a`, every shared name occurs once in `CommonKeys(a, b)`. */
  lemma {:induction false} CommonKeysCount(a: FeatureVector, b: FeatureVector, x: string)
    requires DistinctKeys(a)
    ensures multiset(CommonKeys(a, b))[x] == if HasKey(a, x) && HasKey(b, x) then 1 else 0
    decreases |a|
  {
    if a != [] {
      var init := a[..|a| - 1];
      var k := a[|a| - 1].0;
      assert Keys(a) == Keys(init) + [k];
      assert forall i :: 0 <= i < |init| ==> Keys(init)[i] != k;
      assert !HasKey(init, k);
      CommonKeysCount(init, b, x);
    }
  }

  /** For dictionaries, the shared names of `a` and `b` are those of `b` and `a`, in another order. */
  lemma CommonKeysSymmetric(a: FeatureVector, b: FeatureVector)
    requires DistinctKeys(a) && DistinctKeys(b)
    ensures multiset(CommonKeys(a, b)) == multiset(CommonKeys(b, a))
  {
    forall x
      ensures multiset(CommonKeys(a, b))[x] == multiset(CommonKeys(b, a))[x]
    {
      CommonKeysCount(a, b, x);
      CommonKeysCount(b, a, x);
    }
  }

  // ---------------------------------------------------------------- properties of the metrics

  /**
   * Manhattan similarity lies in (0, 1], and is 1 exactly when every common feature has the same
   * value on both sides (in particular when there are no common features).
   */
  lemma ManhattanRange(a: FeatureVector, b: FeatureVector)
    ensures 0.0 < Manhattan(a, b) <= 1.0
    ensures Manhattan(a, b) == 1.0 <==> forall k :: HasKey(a, k) && HasKey(b, k) ==> ValueOf(a, k) == ValueOf(b, k)
  {
    var ks := CommonKeys(a, b);
    SumOverNonNegative(ks, k => AbsDifference(a, b, k));
    RealArith.Reciprocal(ManhattanDistance(a, b));
  }

  /** Manhattan similarity of two dictionaries does not depend on their order. */
  lemma ManhattanSymmetric(a: FeatureVector, b: FeatureVector)
    requires DistinctKeys(a) && DistinctKeys(b)
    ensures Manhattan(a, b) == Manhattan(b, a)
  {
    ManhattanDistanceSymmetric(a, b);
  }

  lemma ManhattanDistanceSymmetric(a: FeatureVector, b: FeatureVector)
    requires DistinctKeys(a) && DistinctKeys(b)
    ensures ManhattanDistance(a, b) == ManhattanDistance(b, a)
  {
    var gab := k => AbsDifference(a, b, k);
    var gba := k => AbsDifference(b, a, k);
    CommonKeysSymmetric(a, b);
    SumOverPermutation(CommonKeys(a, b), CommonKeys(b, a), gab);
    SumOverPointwise(CommonKeys(b, a), gab, gba);
  }

  /** Euclidean similarity of two dictionaries does not depend on their order. */
  lemma EuclideanSymmetric(a: FeatureVector, b: FeatureVector, sqrt: real -> real)
    requires Statistics.SqrtSpec(sqrt)
    requires DistinctKeys(a) && DistinctKeys(b)
    ensures Euclidean(a, b, sqrt) == Euclidean(b, a, sqrt)
  {
    SquaredDistanceSymmetric(a, b);
  }

  lemma SquaredDistanceSymmetric(a: FeatureVector, b: FeatureVector)
    requires DistinctKeys(a) && DistinctKeys(b)
    ensures SquaredDistance(a, b) == SquaredDistance(b, a)
  {
    var gab := k => SquaredDifference(a, b, k);
    var gba := k => SquaredDifference(b, a, k);
    CommonKeysSymmetric(a, b);
    SumOverPermutation(CommonKeys(a, b), CommonKeys(b, a), gab);
    forall k | k in CommonKeys(b, a)
      ensures gab(k) == gba(k)
    {
      SquaredDifferenceSymmetric(a, b, k);
    }
    SumOverPointwise(CommonKeys(b, a), gab, gba);
  }

  lemma SquaredDifferenceSymmetric(a: FeatureVector, b: FeatureVector, k: string)
    ensures SquaredDifference(a, b, k) == SquaredDifference(b, a, k)
  {
    var d := ValueOf(a, k) - ValueOf(b, k);
    assert ValueOf(b, k) - ValueOf(a, k) == -d;
    RealArith.NegatedSquare(d);
  }

  /**
   * Euclidean similarity is 1 exactly when the common features all have equal values (in
   * particular when there are none).
   */
  lemma EuclideanIdentical(a: FeatureVector, b: FeatureVector, sqrt: real -> real)
    requires Statistics.SqrtSpec(sqrt)
    ensures Euclidean(a, b, sqrt) == 1.0 <==> forall k :: HasKey(a, k) && HasKey(b, k) ==> ValueOf(a, k) == ValueOf(b, k)
  {
    var d := SquaredDistance(a, b);
    SquaredDistanceZero(a, b);
    RootOfZero(sqrt, d);
    RealArith.Reciprocal(sqrt(d));
  }

  /** The squared distance is 0 exactly when the common features all have equal values. */
  lemma SquaredDistanceZero(a: FeatureVector, b: FeatureVector)
    ensures SquaredDistance(a, b) == 0.0 <==> forall k :: HasKey(a, k) && HasKey(b, k) ==> ValueOf(a, k) == ValueOf(b, k)
  {
    SumOverNonNegative(CommonKeys(a, b), k => SquaredDifference(a, b, k));
  }

  lemma RootOfZero(sqrt: real -> real, x: real)
    requires Statistics.SqrtSpec(sqrt) && x >= 0.0
    ensures sqrt(x) >= 0.0
    ensures sqrt(x) == 0.0 <==> x == 0.0
  {
  }

  /** Cosine similarity is 0 when either dictionary has only zero values (its magnitude is 0). */
  lemma CosineZeroMagnitude(a: FeatureVector, b: FeatureVector, sqrt: real -> real)
    requires Statistics.SqrtSpec(sqrt)
    requires SquaresOfValues(a) == 0.0 || SquaresOfValues(b) == 0.0
    ensures Cosine(a, b, sqrt) == 0.0
  {
  }

  /** Cosine similarity of two dictionaries does not depend on their order. */
  lemma CosineSymmetric(a: FeatureVector, b: FeatureVector, sqrt: real -> real)
    requires DistinctKeys(a) && DistinctKeys(b)
    ensures Cosine(a, b, sqrt) == Cosine(b, a, sqrt)
  {
    CommonKeysSymmetric(a, b);
    SumsPermutation(CommonKeys(a, b), CommonKeys(b, a), a, b);
    var m1, m2 := sqrt(SquaresOfValues(a)), sqrt(SquaresOfValues(b));
    assert m1 * m2 == m2 * m1;
  }

  /** Pearson similarity of two dictionaries, and whether it raises, do not depend on their order. */
  lemma PearsonSymmetric(a: FeatureVector, b: FeatureVector, sqrt: real -> real)
    requires DistinctKeys(a) && DistinctKeys(b)
    ensures Pearson(a, b, sqrt) == Pearson(b, a, sqrt)
  {
    var cab, cba := CommonKeys(a, b), CommonKeys(b, a);
    CommonKeysSymmetric(a, b);
    assert |cab| == |cba| by { assert |multiset(cab)| == |multiset(cba)|; }
    if |cab| > 0 {
      CoSpreadSymmetric(cab, cba, a, b);
      CoSpreadSymmetric(cab, cba, a, a);
      CoSpreadSymmetric(cab, cba, b, b);
      PearsonOfCommon(a, b, sqrt);
      PearsonOfCommon(b, a, sqrt);
      PearsonRatioSymmetric(CoSpread(cab, a, b), Spread(cab, a), Spread(cab, b), sqrt);
    }
  }

  lemma PearsonOfCommon(a: FeatureVector, b: FeatureVector, sqrt: real -> real)
    requires |CommonKeys(a, b)| > 0
    ensures var common := CommonKeys(a, b);
      Pearson(a, b, sqrt) == PearsonRatio(CoSpread(common, a, b), Spread(common, a), Spread(common, b), sqrt)
  {
  }

  lemma PearsonRatioSymmetric(numerator: real, spread1: real, spread2: real, sqrt: real -> real)
    ensures PearsonRatio(numerator, spread1, spread2, sqrt) == PearsonRatio(numerator, spread2, spread1, sqrt)
  {
    RealArith.ProductCommutes(spread1, spread2);
  }

  /** The order of the features does not change the sums, nor does swapping the factors of the products. */
  lemma SumsPermutation(ks1: seq<string>, ks2: seq<string>, a: FeatureVector, b: FeatureVector)
    requires multiset(ks1) == multiset(ks2)
    ensures SumValues(ks1, a) == SumValues(ks2, a)
    ensures SumProducts(ks1, a, b) == SumProducts(ks2, b, a)
  {
    var gab := k => ValueOf(a, k) * ValueOf(b, k);
    SumOverPermutation(ks1, ks2, k => ValueOf(a, k));
    SumOverPermutation(ks1, ks2, gab);
    SumOverPointwise(ks2, gab, k => ValueOf(b, k) * ValueOf(a, k));
  }

  /** The co-spread does not depend on the order of the features or of the two vectors. */
  lemma CoSpreadSymmetric(ks1: seq<string>, ks2: seq<string>, a: FeatureVector, b: FeatureVector)
    requires |ks1| > 0 && multiset(ks1) == multiset(ks2)
    ensures |ks2| > 0 && CoSpread(ks1, a, b) == CoSpread(ks2, b, a)
  {
    assert |ks1| == |ks2| by { assert |multiset(ks1)| == |multiset(ks2)|; }
    SumsPermutation(ks1, ks2, a, b);
    SumsPermutation(ks1, ks2, b, a);
    RealArith.ProductCommutes(SumValues(ks1, a), SumValues(ks1, b));
  }

  /** Pearson similarity is 0 when there are no common features. */
  lemma PearsonNoCommon(a: FeatureVector, b: FeatureVector, sqrt: real -> real)
    requires forall k :: HasKey(a, k) ==> !HasKey(b, k)
    ensures Pearson(a, b, sqrt) == Success(0.0)
  {
    assert CommonKeys(a, b) == [] by {
      if CommonKeys(a, b) != [] {
        assert CommonKeys(a, b)[0] in CommonKeys(a, b);
      }
    }
  }

  /** A sum of the same value `c` over `ks` is `|ks|` times `c`. */
  lemma {:induction false} SumOverConstant(ks: seq<string>, g: string -> real, c: real)
    requires forall k :: k in ks ==> g(k) == c
    ensures SumOver(ks, g) == (|ks| as real) * c
    decreases |ks|
  {
    if ks != [] {
      var init := ks[..|ks| - 1];
      assert forall k :: k in init ==> k in ks;
      SumOverConstant(init, g, c);
      assert ks[|ks| - 1] in ks;
      RealArith.MultiplySuccessor(c, |init|, |ks|);
    }
  }

  /**
   * When either vector has the same value `c` on every common feature, its spread is 0, so the
   * denominator is `sqrt(0) == 0` and Pearson similarity is 0 rather than an error.
   */
  lemma PearsonConstant(a: FeatureVector, b: FeatureVector, sqrt: real -> real, c: real)
    requires Statistics.SqrtSpec(sqrt)
    requires (forall k :: HasKey(a, k) && HasKey(b, k) ==> ValueOf(a, k) == c)
          || (forall k :: HasKey(a, k) && HasKey(b, k) ==> ValueOf(b, k) == c)
    ensures Pearson(a, b, sqrt) == Success(0.0)
  {
    var common := CommonKeys(a, b);
    if |common| > 0 {
      PearsonOfCommon(a, b, sqrt);
      if forall k :: HasKey(a, k) && HasKey(b, k) ==> ValueOf(a, k) == c {
        SpreadOfConstant(common, a, c);
      } else {
        SpreadOfConstant(common, b, c);
      }
      PearsonRatioNoSpread(CoSpread(common, a, b), Spread(common, a), Spread(common, b), sqrt);
    }
  }

  lemma PearsonRatioNoSpread(numerator: real, spread1: real, spread2: real, sqrt: real -> real)
    requires Statistics.SqrtSpec(sqrt)
    requires spread1 == 0.0 || spread2 == 0.0
    ensures PearsonRatio(numerator, spread1, spread2, sqrt) == Success(0.0)
  {
  }

  /** On features where `fv` is constant its spread is 0. */
  lemma SpreadOfConstant(common: seq<string>, fv: FeatureVector, c: real)
    requires |common| > 0 && forall k :: k in common ==> ValueOf(fv, k) == c
    ensures Spread(common, fv) == 0.0
  {
    var n := |common| as real;
    SumOverConstant(common, k => ValueOf(fv, k), c);
    SumOverConstant(common, k => ValueOf(fv, k) * ValueOf(fv, k), c * c);
    assert SumValues(common, fv) == n * c;
    assert SumProducts(common, fv, fv) == n * (c * c);
    RealArith.SquaredSumOverCount(n, c);
  }


  /** Jaccard similarity does not depend on the order of its arguments. */
  lemma JaccardSymmetric(a: FeatureVector, b: FeatureVector)
    ensures Jaccard(a, b) == Jaccard(b, a)
  {
    var A, B := KeySet(a), KeySet(b);
    assert A * B == B * A && A + B == B + A;
  }

  /**
   * Jaccard similarity is 0 when neither has features, 1 when both have the same non-empty set of
   * feature names, and 0 when they have features but share none.
   */
  lemma JaccardCases(a: FeatureVector, b: FeatureVector)
    ensures KeySet(a) == {} && KeySet(b) == {} ==> Jaccard(a, b) == 0.0
    ensures KeySet(a) == KeySet(b) != {} ==> Jaccard(a, b) == 1.0
    ensures (KeySet(a) != {} || KeySet(b) != {}) && KeySet(a) * KeySet(b) == {} ==> Jaccard(a, b) == 0.0
  {
    var A, B := KeySet(a), KeySet(b);
    if A == B != {} {
      assert A * B == A && A + B == A;
      RealArith.RatioBounds(|A| as real, |A| as real);
    }
    if A != {} && A * B == {} {
      assert A <= A + B;
      SubsetCard(A, A + B);
      RealArith.RatioBounds(0 as real, |A + B| as real);
    }
    if B != {} && A * B == {} {
      assert B <= A + B;
      SubsetCard(B, A + B);
      RealArith.RatioBounds(0 as real, |A + B| as real);
    }
  }

  /** Jaccard similarity is 1 only when both have the same feature names. */
  lemma JaccardOne(a: FeatureVector, b: FeatureVector)
    requires Jaccard(a, b) == 1.0
    ensures KeySet(a) == KeySet(b) != {}
  {
    var A, B := KeySet(a), KeySet(b);
    assert |A + B| > 0;
    RealArith.RatioBounds(|A * B| as real, |A + B| as real);
    assert A * B <= A + B;
    SubsetEqualCard(A * B, A + B);
    assert forall k :: k in A <==> k in B by {
      forall k | k in A + B
        ensures k in A && k in B
      {
        assert k in A * B;
      }
    }
  }

  lemma {:induction false} SubsetCard(A: set<string>, B: set<string>)
    requires A <= B
    ensures |A| <= |B|
    decreases |B|
  {
    if A != {} {
      var x :| x in A;
      SubsetCard(A - {x}, B - {x});
    }
  }

  lemma SubsetEqualCard(A: set<string>, B: set<string>)
    requires A <= B && |A| == |B|
    ensures A == B
  {
    if A != B {
      var x :| x in B && x !in A;
      SubsetCard(A, B - {x});
    }
  }

  // ---------------------------------------------------------------- properties of compute_similarity

  /**
   * Only the first entry of each key matters: two indexes whose keys have the same first features
   * give the same result.
   */
  lemma FirstEntriesDecide(data1: Index, data2: Index, id1: string, id2: string, metric: Metric, stats: Statistics.Stats, sqrt: real -> real)
    requires Statistics.SqrtSpec(sqrt)
    requires Lookup(data1, id1).None? <==> Lookup(data2, id1).None?
    requires Lookup(data1, id2).None? <==> Lookup(data2, id2).None?
    requires forall id :: id in {id1, id2} && Lookup(data1, id).Some? ==>
      Lookup(data2, id).Some? && (Lookup(data1, id).value == [] <==> Lookup(data2, id).value == [])
      && (Lookup(data1, id).value != [] ==> Lookup(data1, id).value[0].features == Lookup(data2, id).value[0].features)
    ensures ComputeSimilarity(data1, id1, id2, metric, stats, sqrt) == ComputeSimilarity(data2, id1, id2, metric, stats, sqrt)
  {
    assert id1 in {id1, id2} && id2 in {id1, id2};
  }

  /** Without statistics, the raw features of the first entries are scored. */
  lemma ComputeWithoutStats(data: Index, id1: string, id2: string, metric: Metric, sqrt: real -> real, items1: seq<Entry>, items2: seq<Entry>)
    requires Statistics.SqrtSpec(sqrt)
    requires Lookup(data, id1) == Some(items1) && Lookup(data, id2) == Some(items2) && items1 != [] && items2 != []
    ensures ComputeSimilarity(data, id1, id2, metric, [], sqrt) ==
      match Measure(metric, items1[0].features, items2[0].features, sqrt)
      case Success(score) => Success(score)
      case Failure(message) => Failure(ValueError(message))
  {
  }

  /** With statistics, the first entries' features are normalized with them before they are scored. */
  lemma ComputeWithStats(data: Index, id1: string, id2: string, metric: Metric, stats: Statistics.Stats, sqrt: real -> real, items1: seq<Entry>, items2: seq<Entry>)
    requires Statistics.SqrtSpec(sqrt) && |stats| > 0
    requires Lookup(data, id1) == Some(items1) && Lookup(data, id2) == Some(items2) && items1 != [] && items2 != []
    ensures ComputeSimilarity(data, id1, id2, metric, stats, sqrt) ==
      match Measure(metric, Statistics.NormalizeFeatures(items1[0].features, stats), Statistics.NormalizeFeatures(items2[0].features, stats), sqrt)
      case Success(score) => Success(score)
      case Failure(message) => Failure(ValueError(message))
  {
  }
}
