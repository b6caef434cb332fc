/**
 * `FeatureStatistics`: per-feature summary statistics over every entry of an index, the z-score
 * normalisation used before comparing two feature dictionaries, and the search for the entry with
 * the highest or lowest value of one feature.
 *
 * Numbers are exact reals; Python's floating-point rounding is not modelled, and the square root
 * behind `std_dev` is the parameter `sqrt`.
 */
module Statistics {
  import opened Wrappers
  import opened Features
  import RealArith

  // ---------------------------------------------------------------- aggregates over a list of values

  function Sum(xs: seq<real>): real
    decreases |xs|
  {
    if xs == [] then 0.0 else Sum(xs[..|xs| - 1]) + xs[|xs| - 1]
  }

  /** `min(xs)`: a value of the list no larger than any other. */
  function Min(xs: seq<real>): (m: real)
    requires |xs| > 0
    ensures m in xs && forall x :: x in xs ==> m <= x
    decreases |xs|
  {
    if |xs| == 1 then xs[0]
    else
      var init := xs[..|xs| - 1];
      assert xs == init + [xs[|xs| - 1]];
      var m0 := Min(init);
      if xs[|xs| - 1] < m0 then xs[|xs| - 1] else m0
  }

  /** `max(xs)`: a value of the list no smaller than any other. */
  function Max(xs: seq<real>): (m: real)
    requires |xs| > 0
    ensures m in xs && forall x :: x in xs ==> x <= m
    decreases |xs|
  {
    if |xs| == 1 then xs[0]
    else
      var init := xs[..|xs| - 1];
      assert xs == init + [xs[|xs| - 1]];
      var m0 := Max(init);
      if xs[|xs| - 1] > m0 then xs[|xs| - 1] else m0
  }

  function Mean(xs: seq<real>): real
    requires |xs| > 0
  {
    Sum(xs) / (|xs| as real)
  }

  /** `sum((x - m) ** 2 for x in xs)`. */
  function SquaredDeviations(xs: seq<real>, m: real): real
    decreases |xs|
  {
    if xs == [] then 0.0 else SquaredDeviations(xs[..|xs| - 1], m) + (xs[|xs| - 1] - m) * (xs[|xs| - 1] - m)
  }

  /** The population variance: the mean squared deviation from the mean. */
  function Variance(xs: seq<real>): real
    requires |xs| > 0
  {
    SquaredDeviations(xs, Mean(xs)) / (|xs| as real)
  }

  /** How often `x` occurs in `xs`: the count `Counter(xs)` keeps for it. */
  function Occurrences(xs: seq<real>, x: real): nat
  {
    multiset(xs)[x]
  }

  /** The position of the first occurrence of `x`. */
  function FirstIndex(xs: seq<real>, x: real): (i: nat)
    requires x in xs
    ensures i < |xs| && xs[i] == x && forall j :: 0 <= j < i ==> xs[j] != x
    decreases |xs|
  {
    if xs[0] == x then 0 else 1 + FirstIndex(xs[1..], x)
  }

  /** The scan behind `Counter(xs).most_common()[0][0]`: from position `i` on, a value replaces `best` only when it is strictly more frequent. */
  function ModeFrom(xs: seq<real>, i: nat, best: real): real
    requires i <= |xs|
    decreases |xs| - i
  {
    if i == |xs| then best
    else ModeFrom(xs, i + 1, if Occurrences(xs, xs[i]) > Occurrences(xs, best) then xs[i] else best)
  }

  /**
   * `Counter(xs).most_common()[0][0]`: `most_common` sorts the distinct values, kept in order of first
   * appearance, by decreasing count with a stable sort, so the mode is the first-seen among the most
   * frequent values.
   */
  function Mode(xs: seq<real>): (m: real)
    requires |xs| > 0
    ensures m in xs
  {
    assert xs[..1] == [xs[0]];
    assert FirstIndex(xs, xs[0]) == 0;
    ModeFromSpec(xs, 1, xs[0]);
    assert xs[..|xs|] == xs;
    ModeFrom(xs, 1, xs[0])
  }

  /** What the scan keeps after `i` positions: the first-seen most frequent value among `xs[..i]`. */
  ghost predicate ModeSoFar(xs: seq<real>, i: nat, best: real)
    requires i <= |xs|
  {
    best in xs[..i]
    && (forall j :: 0 <= j < i ==> Occurrences(xs, xs[j]) <= Occurrences(xs, best))
    && (forall j :: 0 <= j < i && j < FirstIndex(xs, best) ==> Occurrences(xs, xs[j]) < Occurrences(xs, best))
  }

  lemma {:induction false} ModeFromSpec(xs: seq<real>, i: nat, best: real)
    requires 0 < i <= |xs| && ModeSoFar(xs, i, best)
    ensures ModeSoFar(xs, |xs|, ModeFrom(xs, i, best))
    decreases |xs| - i
  {
    if i < |xs| {
      var next := if Occurrences(xs, xs[i]) > Occurrences(xs, best) then xs[i] else best;
      assert xs[..i + 1] == xs[..i] + [xs[i]];
      if Occurrences(xs, xs[i]) > Occurrences(xs, best) {
        assert forall j :: 0 <= j < i ==> xs[j] != xs[i];
        assert FirstIndex(xs, xs[i]) == i;
      } else {
        var b := FirstIndex(xs, best);
        assert b < i by {
          var j :| 0 <= j < i && xs[..i][j] == best;
          assert xs[j] == best;
        }
      }
      assert ModeSoFar(xs, i + 1, next);
      ModeFromSpec(xs, i + 1, next);
    }
  }

  /**
   * The mode is one of the values, no value occurs more often, and every value seen before it
   * occurs strictly less often (ties go to the first-seen value).
   */
  lemma ModeSpec(xs: seq<real>)
    requires |xs| > 0
    ensures Mode(xs) in xs
    ensures forall x :: x in xs ==> Occurrences(xs, x) <= Occurrences(xs, Mode(xs))
    ensures forall j :: 0 <= j < FirstIndex(xs, Mode(xs)) ==> Occurrences(xs, xs[j]) < Occurrences(xs, Mode(xs))
  {
    assert xs[..1] == [xs[0]];
    assert FirstIndex(xs, xs[0]) == 0;
    ModeFromSpec(xs, 1, xs[0]);
    assert xs[..|xs|] == xs;
    forall x | x in xs
      ensures Occurrences(xs, x) <= Occurrences(xs, Mode(xs))
    {
      var j :| 0 <= j < |xs| && xs[j] == x;
    }
  }

  /** Bounds on every value bound the sum. */
  lemma {:induction false} SumBounds(xs: seq<real>, lo: real, hi: real)
    requires forall x :: x in xs ==> lo <= x <= hi
    ensures lo * (|xs| as real) <= Sum(xs) <= hi * (|xs| as real)
    decreases |xs|
  {
    if xs != [] {
      var init := xs[..|xs| - 1];
      assert forall x :: x in init ==> x in xs;
      SumBounds(init, lo, hi);
      assert xs[|xs| - 1] in xs;
      RealArith.MultiplySuccessor(lo, |init|, |xs|);
      RealArith.MultiplySuccessor(hi, |init|, |xs|);
    }
  }

  /** The mean lies between the minimum and the maximum. */
  lemma MeanBetweenMinAndMax(xs: seq<real>)
    requires |xs| > 0
    ensures Min(xs) <= Mean(xs) <= Max(xs)
  {
    MeanBounds(xs, Min(xs), Max(xs));
  }

  /** Bounds on every value bound the mean. */
  lemma MeanBounds(xs: seq<real>, lo: real, hi: real)
    requires |xs| > 0 && forall x :: x in xs ==> lo <= x <= hi
    ensures lo <= Mean(xs) <= hi
  {
    SumBounds(xs, lo, hi);
    RealArith.QuotientBounds(Sum(xs), |xs| as real, lo, hi);
  }

  /** A sum of squared deviations is never negative, and is zero when every value is `m`. */
  lemma {:induction false} SquaredDeviationsSign(xs: seq<real>, m: real)
    ensures SquaredDeviations(xs, m) >= 0.0
    ensures (forall x :: x in xs ==> x == m) ==> SquaredDeviations(xs, m) == 0.0
    decreases |xs|
  {
    if xs != [] {
      var init := xs[..|xs| - 1];
      var last := xs[|xs| - 1];
      SquaredDeviationsSign(init, m);
      assert forall x :: x in init ==> x in xs;
      RealArith.SquareSign(last - m);
      if forall x :: x in xs ==> x == m {
        assert last in xs;
      }
    }
  }

  /** The variance is never negative, and is zero when every value is the same. */
  lemma VarianceSpec(xs: seq<real>)
    requires |xs| > 0
    ensures Variance(xs) >= 0.0
    ensures (forall x :: x in xs ==> x == xs[0]) ==> Variance(xs) == 0.0 && Mean(xs) == xs[0]
  {
    SquaredDeviationsSign(xs, Mean(xs));
    if forall x :: x in xs ==> x == xs[0] {
      MeanBounds(xs, xs[0], xs[0]);
      SquaredDeviationsSign(xs, xs[0]);
    }
  }

  // ---------------------------------------------------------------- calculate_statistics

  /** The summary of one feature, as `calculate_statistics` stores it. */
  datatype FeatureStats = FeatureStats(mean: real, min: real, max: real, variance: real, stdDev: real, mode: real)

  /** The statistics dictionary: one summary per feature name, in the order the names were met. */
  type Stats = seq<(string, FeatureStats)>

  /**
   * The square root behaves like one where the model relies on it: the root of 0 is 0, the root
   * of a non-negative number is non-negative, and that of a positive number is positive.
   */
  ghost predicate SqrtSpec(sqrt: real -> real)
  {
    && sqrt(0.0) == 0.0
    && (forall x :: 0.0 <= x ==> 0.0 <= sqrt(x))
    && (forall x :: 0.0 < x ==> 0.0 < sqrt(x))
  }

  function Summarize(xs: seq<real>, sqrt: real -> real): FeatureStats
    requires |xs| > 0
  {
    FeatureStats(Mean(xs), Min(xs), Max(xs), Variance(xs), sqrt(Variance(xs)), Mode(xs))
  }

  /** Every feature dictionary of the index, in iteration order. */
  function Pool(data: Index): seq<FeatureVector>
    decreases |data|
  {
    if data == [] then [] else Pool(data[..|data| - 1]) + FeaturesOf(data[|data| - 1].1)
  }

  /** The pool holds the features of every entry `Flatten` lists, in the same order. */
  lemma {:induction false} PoolFlatten(data: Index)
    ensures |Pool(data)| == |Flatten(data)|
    ensures forall i :: 0 <= i < |Pool(data)| ==> Pool(data)[i] == Flatten(data)[i].1.features
    decreases |data|
  {
    if data != [] {
      PoolFlatten(data[..|data| - 1]);
    }
  }

  /** The feature dictionaries of some entries, in order. */
  function FeaturesOf(es: seq<Entry>): (fs: seq<FeatureVector>)
    ensures |fs| == |es| && forall j :: 0 <= j < |es| ==> fs[j] == es[j].features
  {
    seq(|es|, j requires 0 <= j < |es| => es[j].features)
  }

  /** `[f[name] for f in pool if name in f]`. */
  function ValuesOf(pool: seq<FeatureVector>, name: string): (xs: seq<real>)
    decreases |pool|
  {
    if pool == [] then []
    else ValuesOf(pool[..|pool| - 1], name) + (if HasKey(pool[|pool| - 1], name) then [ValueOf(pool[|pool| - 1], name)] else [])
  }

  /** A feature of some pooled dictionary has at least one value. */
  lemma {:induction false} ValuesOfNonEmpty(pool: seq<FeatureVector>, name: string, i: nat)
    requires i < |pool| && HasKey(pool[i], name)
    ensures |ValuesOf(pool, name)| > 0
    decreases |pool|
  {
    if i < |pool| - 1 {
      ValuesOfNonEmpty(pool[..|pool| - 1], name, i);
    }
  }

  /** `stats` holds, in order, one summary per name of `names`, over the values `pool` has for that name. */
  ghost predicate Summarized(stats: Stats, pool: seq<FeatureVector>, names: seq<string>, sqrt: real -> real)
    decreases |names|
  {
    |stats| == |names|
    && (names != [] ==>
      var name := names[|names| - 1];
      && Summarized(stats[..|stats| - 1], pool, names[..|names| - 1], sqrt)
      && |ValuesOf(pool, name)| > 0
      && stats[|stats| - 1] == (name, Summarize(ValuesOf(pool, name), sqrt)))
  }

  /** What `Summarized` says position by position. */
  lemma {:induction false} SummarizedAt(stats: Stats, pool: seq<FeatureVector>, names: seq<string>, sqrt: real -> real, k: nat)
    requires Summarized(stats, pool, names, sqrt) && k < |names|
    ensures |stats| == |names| && |ValuesOf(pool, names[k])| > 0
    ensures stats[k] == (names[k], Summarize(ValuesOf(pool, names[k]), sqrt))
    decreases |names|
  {
    if k < |names| - 1 {
      SummarizedAt(stats[..|stats| - 1], pool, names[..|names| - 1], sqrt, k);
    }
  }

  /** Why `calculate_statistics` raises: there is no entry at all (`all_features[0]`). */
  datatype StatsError = NoEntries

  /**
   * `calculate_statistics`: fails exactly when the index holds no entry (`PoolFlatten`); otherwise one summary per
   * feature name of the first pooled dictionary, in its order, over the values of every pooled
   * dictionary that has that feature.
   */
  method CalculateStatistics(data: Index, sqrt: real -> real) returns (r: Result<Stats, StatsError>)
    ensures r.Failure? <==> |Pool(data)| == 0
    ensures r.Success? ==> |Pool(data)| > 0 && Summarized(r.value, Pool(data), Keys(Pool(data)[0]), sqrt)
  {
    var allFeatures: seq<FeatureVector> := [];
    for i := 0 to |data|
      invariant allFeatures == Pool(data[..i])
    {
      var items := data[i].1;
      PoolStep(data, i);
      for j := 0 to |items|
        invariant allFeatures == Pool(data[..i]) + FeaturesOf(items[..j])
      {
        FeaturesOfStep(items, j);
        allFeatures := allFeatures + [items[j].features];
      }
      assert items[..|items|] == items;
    }
    assert data[..|data|] == data;
    if |allFeatures| == 0 {
      return Failure(NoEntries);
    }
    var featureNames := Keys(allFeatures[0]);
    var stats: Stats := [];
    for k := 0 to |featureNames|
      invariant Summarized(stats, allFeatures, featureNames[..k], sqrt)
    {
      var feature := featureNames[k];
      var values := ValuesOf(allFeatures, feature);
      assert HasKey(allFeatures[0], feature);
      ValuesOfNonEmpty(allFeatures, feature, 0);
      SummarizedStep(stats, allFeatures, featureNames, k, sqrt);
      stats := stats + [(feature, Summarize(values, sqrt))];
    }
    assert featureNames[..|featureNames|] == featureNames;
    return Success(stats);
  }

  lemma PoolStep(data: Index, i: nat)
    requires i < |data|
    ensures Pool(data[..i + 1]) == Pool(data[..i]) + FeaturesOf(data[i].1)
  {
    assert data[..i + 1][..i] == data[..i];
  }

  lemma FeaturesOfStep(items: seq<Entry>, j: nat)
    requires j < |items|
    ensures FeaturesOf(items[..j + 1]) == FeaturesOf(items[..j]) + [items[j].features]
  {
  }

  /** Summarizing one more feature name extends the summaries by that feature's summary. */
  lemma SummarizedStep(stats: Stats, pool: seq<FeatureVector>, names: seq<string>, k: nat, sqrt: real -> real)
    requires k < |names| && Summarized(stats, pool, names[..k], sqrt) && |ValuesOf(pool, names[k])| > 0
    ensures Summarized(stats + [(names[k], Summarize(ValuesOf(pool, names[k]), sqrt))], pool, names[..k + 1], sqrt)
  {
    var next := stats + [(names[k], Summarize(ValuesOf(pool, names[k]), sqrt))];
    assert next[..|next| - 1] == stats;
    assert names[..k + 1][..k] == names[..k];
  }

  /**
   * Every summary has min <= mean <= max, a non-negative variance and standard deviation, and a mode
   * that is one of the values; a feature whose values are all equal has no spread.
   */
  lemma SummarizeSpec(xs: seq<real>, sqrt: real -> real)
    requires |xs| > 0 && SqrtSpec(sqrt)
    ensures var s := Summarize(xs, sqrt);
      && s.min <= s.mean <= s.max
      && s.variance >= 0.0 && s.stdDev >= 0.0
      && s.mode in xs && s.min <= s.mode <= s.max
      && ((forall x :: x in xs ==> x == xs[0]) ==> s.variance == 0.0 && s.stdDev == 0.0 && s.mean == s.mode == xs[0])
  {
    MeanBetweenMinAndMax(xs);
    VarianceSpec(xs);
    ModeSpec(xs);
  }

  // ---------------------------------------------------------------- normalize_features

  /** The z-score of one value: 0 when the spread is not positive. */
  function ZScore(value: real, s: FeatureStats): real
  {
    if s.stdDev > 0.0 then (value - s.mean) / s.stdDev else 0.0
  }

  /** `normalize_features`: the features that have statistics, in order, each replaced by its z-score. */
  function NormalizeFeatures(features: FeatureVector, stats: Stats): (normalized: FeatureVector)
    ensures Keys(normalized) == WithStats(Keys(features), stats)
    decreases |features|
  {
    if features == [] then []
    else
      var init := NormalizeFeatures(features[..|features| - 1], stats);
      var (name, value) := features[|features| - 1];
      assert Keys(features)[..|features| - 1] == Keys(features[..|features| - 1]);
      match Lookup(stats, name)
      case None => init
      case Some(s) =>
        assert Keys(init + [(name, ZScore(value, s))]) == Keys(init) + [name];
        init + [(name, ZScore(value, s))]
  }

  /** The names of `names` that have statistics, in order. */
  function WithStats(names: seq<string>, stats: Stats): (kept: seq<string>)
    ensures forall n :: n in kept <==> n in names && Lookup(stats, n).Some?
    decreases |names|
  {
    if names == [] then []
    else
      var init := names[..|names| - 1];
      assert names == init + [names[|names| - 1]];
      WithStats(init, stats) + (if Lookup(stats, names[|names| - 1]).Some? then [names[|names| - 1]] else [])
  }

  /** `item` is the z-score of some feature of `features` that has statistics. */
  ghost predicate ZScoreOfSome(features: FeatureVector, stats: Stats, item: (string, real))
  {
    exists j :: 0 <= j < |features| && ZScoreOfAt(features, stats, item, j)
  }

  ghost predicate ZScoreOfAt(features: FeatureVector, stats: Stats, item: (string, real), j: nat)
    requires j < |features|
  {
    features[j].0 == item.0
    && Lookup(stats, item.0).Some?
    && item.1 == ZScore(features[j].1, Lookup(stats, item.0).value)
  }

  /** Every normalized value is the z-score of the feature of the same name. */
  lemma {:induction false} NormalizedValues(features: FeatureVector, stats: Stats)
    ensures forall i :: 0 <= i < |NormalizeFeatures(features, stats)| ==>
      ZScoreOfSome(features, stats, NormalizeFeatures(features, stats)[i])
    decreases |features|
  {
    if features != [] {
      var init := features[..|features| - 1];
      var (name, value) := features[|features| - 1];
      NormalizedValues(init, stats);
      var r0 := NormalizeFeatures(init, stats);
      forall i | 0 <= i < |r0|
        ensures ZScoreOfSome(features, stats, r0[i])
      {
        var j :| 0 <= j < |init| && ZScoreOfAt(init, stats, r0[i], j);
        assert ZScoreOfAt(features, stats, r0[i], j);
      }
      match Lookup(stats, name)
      case None =>
      case Some(st) =>
        assert ZScoreOfAt(features, stats, (name, ZScore(value, st)), |features| - 1);
    }
  }

  /**
   * A z-score is 0 when the spread is not positive and when the value is the mean; with a positive
   * spread the value is recovered as `z * std_dev + mean`.
   */
  lemma ZScoreSpec(value: real, s: FeatureStats)
    ensures s.stdDev <= 0.0 ==> ZScore(value, s) == 0.0
    ensures value == s.mean ==> ZScore(value, s) == 0.0
    ensures s.stdDev > 0.0 ==> ZScore(value, s) * s.stdDev + s.mean == value
  {
  }

  // ---------------------------------------------------------------- query_best_feature

  /** The value `query_best_feature` compares for a pooled entry that has `feature`. */
  function FeatureValue(item: (string, Entry), feature: string): real
  {
    ValueOf(item.1.features, feature)
  }

  /**
   * `query_best_feature`: the first entry, in iteration order, holding the largest (`"highest"`) or
   * smallest (`"lowest"`) value of `feature`, together with its key; for any other criterion the
   * first entry that has `feature`; `None` exactly when no entry has it.
   */
  method QueryBestFeature(data: Index, feature: string, criterion: string) returns (best: Option<(string, Entry)>)
    ensures QueryAnswer(Flatten(data), feature, criterion, best)
  {
    best := None;
    var bestValue: real := 0.0;
    ghost var seen: seq<(string, Entry)> := [];
    ghost var b: nat := 0;
    for i := 0 to |data|
      invariant seen == Flatten(data[..i])
      invariant BestSoFar(seen, feature, criterion, best, bestValue, b)
    {
      var key := data[i].0;
      var items := data[i].1;
      FlattenStep(data, i);
      for j := 0 to |items|
        invariant seen == Flatten(data[..i]) + Tag(key, items[..j])
        invariant BestSoFar(seen, feature, criterion, best, bestValue, b)
      {
        var features := items[j].features;
        ghost var seen' := seen + [(key, items[j])];
        TagStep(key, items, j);
        if HasKey(features, feature) {
          var value := ValueOf(features, feature);
          if best.None? || (criterion == "highest" && value > bestValue) || (criterion == "lowest" && value < bestValue) {
            BestTake(seen, (key, items[j]), feature, criterion, best, bestValue, b);
            best := Some((key, items[j]));
            bestValue := value;
            b := |seen|;
          } else {
            BestKeep(seen, (key, items[j]), feature, criterion, best, bestValue, b);
          }
        } else {
          BestKeep(seen, (key, items[j]), feature, criterion, best, bestValue, b);
        }
        seen := seen';
      }
      assert items[..|items|] == items;
    }
    assert data[..|data|] == data;
    BestSoFarFound(seen, feature, criterion, best, bestValue, b);
  }

  /** The loop state after the last entry is the promised answer, with `b` as the witness. */
  lemma BestSoFarFound(seen: seq<(string, Entry)>, feature: string, criterion: string, best: Option<(string, Entry)>, bestValue: real, b: nat)
    requires BestSoFar(seen, feature, criterion, best, bestValue, b)
    ensures best.Some? ==> IsBestAt(seen, feature, criterion, best.value, b)
    ensures QueryAnswer(seen, feature, criterion, best)
  {
    if best.Some? {
      assert IsBestAt(seen, feature, criterion, best.value, b);
    }
  }

  /**
   * What `query_best_feature` returns for the pooled entries `all`: `None` exactly when no entry has
   * `feature`, and otherwise an entry that is the best at some position.
   */
  ghost predicate QueryAnswer(all: seq<(string, Entry)>, feature: string, criterion: string, best: Option<(string, Entry)>)
  {
    && (best.None? <==> forall i :: 0 <= i < |all| ==> !HasKey(all[i].1.features, feature))
    && (best.Some? ==> exists b :: IsBestAt(all, feature, criterion, best.value, b))
  }

  /**
   * `best` is `all[b]` and has `feature`; for `"highest"` no entry has a larger value and every
   * earlier entry a smaller one, for `"lowest"` the same with the order reversed, and for any other
   * criterion no earlier entry has the feature.
   */
  ghost predicate IsBestAt(all: seq<(string, Entry)>, feature: string, criterion: string, best: (string, Entry), b: nat)
  {
    && b < |all| && all[b] == best && HasKey(best.1.features, feature)
    && (criterion == "highest" ==> forall i :: 0 <= i < |all| && HasKey(all[i].1.features, feature) ==>
          FeatureValue(all[i], feature) <= FeatureValue(best, feature)
          && (i < b ==> FeatureValue(all[i], feature) < FeatureValue(best, feature)))
    && (criterion == "lowest" ==> forall i :: 0 <= i < |all| && HasKey(all[i].1.features, feature) ==>
          FeatureValue(best, feature) <= FeatureValue(all[i], feature)
          && (i < b ==> FeatureValue(best, feature) < FeatureValue(all[i], feature)))
    && (criterion != "highest" && criterion != "lowest" ==> forall i :: 0 <= i < b ==> !HasKey(all[i].1.features, feature))
  }

  lemma FlattenStep(data: Index, i: nat)
    requires i < |data|
    ensures Flatten(data[..i + 1]) == Flatten(data[..i]) + Tag(data[i].0, data[i].1)
  {
    assert data[..i + 1][..i] == data[..i];
  }

  lemma TagStep(key: string, items: seq<Entry>, j: nat)
    requires j < |items|
    ensures Tag(key, items[..j + 1]) == Tag(key, items[..j]) + [(key, items[j])]
  {
  }

  /** The loop state of `query_best_feature` after scanning `seen`. */
  ghost predicate BestSoFar(seen: seq<(string, Entry)>, feature: string, criterion: string, best: Option<(string, Entry)>, bestValue: real, b: nat)
  {
    && (best.None? <==> forall i :: 0 <= i < |seen| ==> !HasKey(seen[i].1.features, feature))
    && (best.Some? ==>
      && b < |seen| && seen[b] == best.value && HasKey(best.value.1.features, feature)
      && bestValue == FeatureValue(best.value, feature)
      && (criterion == "highest" ==> forall i :: 0 <= i < |seen| && HasKey(seen[i].1.features, feature) ==>
            FeatureValue(seen[i], feature) <= bestValue && (i < b ==> FeatureValue(seen[i], feature) < bestValue))
      && (criterion == "lowest" ==> forall i :: 0 <= i < |seen| && HasKey(seen[i].1.features, feature) ==>
            bestValue <= FeatureValue(seen[i], feature) && (i < b ==> bestValue < FeatureValue(seen[i], feature)))
      && (criterion != "highest" && criterion != "lowest" ==> forall i :: 0 <= i < b ==> !HasKey(seen[i].1.features, feature)))
  }

  /** An entry that does not beat the current best leaves it in place. */
  lemma BestKeep(seen: seq<(string, Entry)>, item: (string, Entry), feature: string, criterion: string,
                 best: Option<(string, Entry)>, bestValue: real, b: nat)
    requires BestSoFar(seen, feature, criterion, best, bestValue, b)
    requires HasKey(item.1.features, feature) ==>
      best.Some? && !(criterion == "highest" && FeatureValue(item, feature) > bestValue)
      && !(criterion == "lowest" && FeatureValue(item, feature) < bestValue)
    ensures BestSoFar(seen + [item], feature, criterion, best, bestValue, b)
  {
    var seen' := seen + [item];
    assert seen'[|seen|] == item;
    assert forall i :: 0 <= i < |seen| ==> seen'[i] == seen[i];
  }

  /** An entry that has the feature and beats the current best (or is the first with it) becomes the best. */
  lemma BestTake(seen: seq<(string, Entry)>, item: (string, Entry), feature: string, criterion: string,
                 best: Option<(string, Entry)>, bestValue: real, b: nat)
    requires BestSoFar(seen, feature, criterion, best, bestValue, b)
    requires HasKey(item.1.features, feature)
    requires best.None? || (criterion == "highest" && FeatureValue(item, feature) > bestValue)
      || (criterion == "lowest" && FeatureValue(item, feature) < bestValue)
    ensures BestSoFar(seen + [item], feature, criterion, Some(item), FeatureValue(item, feature), |seen|)
  {
    var seen' := seen + [item];
    assert seen'[|seen|] == item;
    assert forall i :: 0 <= i < |seen| ==> seen'[i] == seen[i];
  }
}
