/**
 * The application's handlers, without the windows: what each button press shows, given the text in
 * its entry fields. A message box becomes a `Reaction` value; an exception that no handler catches
 * becomes `Raised`.
 */
module App {
  import opened Wrappers
  import opened Features
  import opened Text
  import Statistics
  import opened Similarity
  import Loader

  // ---------------------------------------------------------------- similarity_outcome

  /** `similarity_outcome`: the label shown next to a similarity score. */
  function SimilarityOutcome(similarity: real): (outcome: string)
    ensures outcome == "Highly Identical" <==> similarity == 1.0
    ensures outcome == "Very Similar" <==> 0.8 <= similarity < 1.0
    ensures outcome == "Moderately Identical" <==> 0.6 <= similarity < 0.8
    ensures outcome == "Slightly Identical" <==> 0.4 <= similarity < 0.6
    ensures outcome == "Not Identical" <==> 0.0 < similarity < 0.4
    ensures outcome == "Completely Dissimilar" <==> similarity <= 0.0 || 1.0 < similarity
  {
    if similarity == 1.0 then "Highly Identical"
    else if 0.8 <= similarity < 1.0 then "Very Similar"
    else if 0.6 <= similarity < 0.8 then "Moderately Identical"
    else if 0.4 <= similarity < 0.6 then "Slightly Identical"
    else if 0.0 < similarity < 0.4 then "Not Identical"
    else "Completely Dissimilar"
  }

  /** The labels from least to most alike. */
  const Grades: seq<string> :=
    ["Completely Dissimilar", "Not Identical", "Slightly Identical", "Moderately Identical", "Very Similar", "Highly Identical"]

  /** The position of an outcome among `Grades`. */
  function Grade(outcome: string): nat
  {
    FirstPosition(Grades, outcome, 0)
  }

  function FirstPosition(outcomes: seq<string>, outcome: string, i: nat): nat
    requires i <= |outcomes|
    decreases |outcomes| - i
  {
    if i == |outcomes| || outcomes[i] == outcome then i else FirstPosition(outcomes, outcome, i + 1)
  }

  /** Within (0, 1], a higher score never gets a lower label. */
  lemma OutcomeMonotone(s: real, t: real)
    requires 0.0 < s <= t <= 1.0
    ensures Grade(SimilarityOutcome(s)) <= Grade(SimilarityOutcome(t))
    ensures Grade(SimilarityOutcome(s)) >= 1
  {
  }

  /** Euclidean and Manhattan scores always fall in one of the labelled bands, never "Completely Dissimilar". */
  lemma DistanceScoresAreGraded(a: FeatureVector, b: FeatureVector, sqrt: real -> real)
    requires Statistics.SqrtSpec(sqrt)
    ensures SimilarityOutcome(Euclidean(a, b, sqrt)) != "Completely Dissimilar"
    ensures SimilarityOutcome(Manhattan(a, b)) != "Completely Dissimilar"
  {
  }

  // ---------------------------------------------------------------- choosing a metric

  /** The names offered by the metric menu. */
  function MetricName(metric: Metric): string
  {
    match metric
    case EuclideanMetric => "Euclidean"
    case CosineMetric => "Cosine"
    case PearsonMetric => "Pearson"
    case JaccardMetric => "Jaccard"
    case ManhattanMetric => "Manhattan"
  }

  /** The `{name: function}.get(metric)` lookup of both similarity handlers. */
  function MetricByName(name: string): (m: Option<Metric>)
    ensures m.Some? <==> name in {"Euclidean", "Cosine", "Pearson", "Jaccard", "Manhattan"}
    ensures m.Some? ==> MetricName(m.value) == name
  {
    if name == "Euclidean" then Some(EuclideanMetric)
    else if name == "Cosine" then Some(CosineMetric)
    else if name == "Pearson" then Some(PearsonMetric)
    else if name == "Jaccard" then Some(JaccardMetric)
    else if name == "Manhattan" then Some(ManhattanMetric)
    else None
  }

  /** Every menu entry selects its own metric. */
  lemma MetricNameRoundTrip(metric: Metric)
    ensures MetricByName(MetricName(metric)) == Some(metric)
  {
  }

  // ---------------------------------------------------------------- the similarity handlers

  /** What a handler does: an error box, an information box with the score and its label, or an uncaught exception. */
  datatype Reaction =
    | ShowError(text: string)
    | ShowInfo(similarity: real, outcome: string)
    | Raised(key: string)

  const FillInAllFields: string := "Please fill in all fields."
  const InvalidMetric: string := "Invalid similarity metric."

  /**
   * The body shared by `compute_similarity_result_artists` and `compute_similarity_result_tracks`:
   * the two ids are stripped (the metric is not); an empty field, then an unknown metric, is
   * reported before anything is computed; a `ValueError` is shown as `Error: ` and its message;
   * an `IndexError` escapes the handler.
   */
  function CompareEntities(data: Index, rawId1: string, rawId2: string, metricName: string, sqrt: real -> real): (r: Reaction)
    requires Statistics.SqrtSpec(sqrt)
    ensures Strip(rawId1) == [] || Strip(rawId2) == [] || metricName == [] ==> r == ShowError(FillInAllFields)
    ensures Strip(rawId1) != [] && Strip(rawId2) != [] && metricName != [] && MetricByName(metricName).None? ==>
      r == ShowError(InvalidMetric)
    ensures r.ShowInfo? ==>
      && MetricByName(metricName).Some?
      && ComputeSimilarity(data, Strip(rawId1), Strip(rawId2), MetricByName(metricName).value, [], sqrt) == Success(r.similarity)
      && r.outcome == SimilarityOutcome(r.similarity)
    ensures r.Raised? ==> Lookup(data, r.key) == Some([])
    ensures Strip(rawId1) != [] && Strip(rawId2) != [] && MetricByName(metricName).Some? && Lookup(data, Strip(rawId1)).None? ==>
      r == ShowError("Error: " + NotFound1(Strip(rawId1)))
    ensures (Strip(rawId1) != [] && Strip(rawId2) != [] && MetricByName(metricName).Some?
             && Lookup(data, Strip(rawId1)).Some? && Lookup(data, Strip(rawId2)).None?) ==>
      r == ShowError("Error: " + NotFound2)
    ensures Strip(rawId1) != [] && Strip(rawId2) != [] && MetricByName(metricName).Some? ==>
      match ComputeSimilarity(data, Strip(rawId1), Strip(rawId2), MetricByName(metricName).value, [], sqrt)
      case Success(similarity) => r == ShowInfo(similarity, SimilarityOutcome(similarity))
      case Failure(ValueError(message)) => r == ShowError("Error: " + message)
      case Failure(IndexError(key)) => r == Raised(key)
  {
    var id1 := Strip(rawId1);
    var id2 := Strip(rawId2);
    if id1 == [] || id2 == [] || metricName == [] then ShowError(FillInAllFields)
    else
      match MetricByName(metricName)
      case None => ShowError(InvalidMetric)
      case Some(metric) =>
        match ComputeSimilarity(data, id1, id2, metric, [], sqrt)
        case Success(similarity) => ShowInfo(similarity, SimilarityOutcome(similarity))
        case Failure(ValueError(message)) => ShowError("Error: " + message)
        case Failure(IndexError(key)) => Raised(key)
  }

  /** An unknown metric is rejected whatever the data and the ids: no similarity is computed. */
  lemma InvalidMetricComputesNothing(data1: Index, data2: Index, rawId1: string, rawId2: string, metricName: string,
                                     sqrt1: real -> real, sqrt2: real -> real)
    requires Statistics.SqrtSpec(sqrt1) && Statistics.SqrtSpec(sqrt2)
    requires metricName != [] && MetricByName(metricName).None?
    ensures CompareEntities(data1, rawId1, rawId2, metricName, sqrt1) == CompareEntities(data2, rawId1, rawId2, metricName, sqrt2)
    ensures CompareEntities(data1, rawId1, rawId2, metricName, sqrt1).ShowError?
  {
  }

  /** An index whose every list is non-empty, as the loader builds them, never lets an `IndexError` escape. */
  lemma LoadedIndexNeverRaises(d: Dict, rawId1: string, rawId2: string, metricName: string, sqrt: real -> real)
    requires d.Valid() && Loader.NonEmptyBuckets(d) && Statistics.SqrtSpec(sqrt)
    ensures !CompareEntities(d.Items(), rawId1, rawId2, metricName, sqrt).Raised?
  {
  }

  /** `compute_similarity_result_artists`: compares two artists of the loaded artist index. */
  function CompareArtists(processor: Loader.MusicDataProcessor, rawArtist1: string, rawArtist2: string, metricName: string, sqrt: real -> real): (r: Reaction)
    reads processor
    requires processor.Valid() && Statistics.SqrtSpec(sqrt)
    ensures Strip(rawArtist1) != [] && Strip(rawArtist2) != [] && MetricByName(metricName).Some? && Strip(rawArtist1) !in processor.artistMusic.entries ==>
      r == ShowError("Error: " + NotFound1(Strip(rawArtist1)))
    ensures (Strip(rawArtist1) != [] && Strip(rawArtist2) != [] && MetricByName(metricName).Some?
             && Strip(rawArtist1) in processor.artistMusic.entries && Strip(rawArtist2) !in processor.artistMusic.entries) ==>
      r == ShowError("Error: " + NotFound2)
    ensures r == CompareEntities(processor.GetArtistMusic(), rawArtist1, rawArtist2, metricName, sqrt)
  {
    var items := processor.GetArtistMusic();
    assert Lookup(items, Strip(rawArtist1)).None? <==> Strip(rawArtist1) !in processor.artistMusic.entries;
    assert Lookup(items, Strip(rawArtist2)).None? <==> Strip(rawArtist2) !in processor.artistMusic.entries;
    CompareEntities(items, rawArtist1, rawArtist2, metricName, sqrt)
  }

  /** `compute_similarity_result_tracks`: compares two tracks of the loaded track-id index, by their first genre record. */
  function CompareTracks(processor: Loader.MusicDataProcessor, rawId1: string, rawId2: string, metricName: string, sqrt: real -> real): (r: Reaction)
    reads processor
    requires processor.Valid() && Statistics.SqrtSpec(sqrt)
    ensures Strip(rawId1) != [] && Strip(rawId2) != [] && MetricByName(metricName).Some? && Strip(rawId1) !in processor.musicFeatures.entries ==>
      r == ShowError("Error: " + NotFound1(Strip(rawId1)))
    ensures (Strip(rawId1) != [] && Strip(rawId2) != [] && MetricByName(metricName).Some?
             && Strip(rawId1) in processor.musicFeatures.entries && Strip(rawId2) !in processor.musicFeatures.entries) ==>
      r == ShowError("Error: " + NotFound2)
    ensures r == CompareEntities(processor.GetMusicFeatures(), rawId1, rawId2, metricName, sqrt)
  {
    var items := processor.GetMusicFeatures();
    assert Lookup(items, Strip(rawId1)).None? <==> Strip(rawId1) !in processor.musicFeatures.entries;
    assert Lookup(items, Strip(rawId2)).None? <==> Strip(rawId2) !in processor.musicFeatures.entries;
    CompareEntities(items, rawId1, rawId2, metricName, sqrt)
  }

  // ---------------------------------------------------------------- the statistics query

  /** What the query button shows: an error box, or the best item found (if any). */
  datatype QueryReaction = QueryError(text: string) | QueryResult(best: Option<(string, Entry)>) | NoChoice

  /**
   * `perform_query`: the feature is stripped and the criterion stripped and lower-cased (`lower`);
   * choice "1" searches the artist index, "2" the track-id index.
   */
  method PerformQuery(processor: Loader.MusicDataProcessor, rawFeature: string, rawCriterion: string, choice: string,
                      lower: string -> string) returns (r: QueryReaction)
    requires processor.Valid()
    ensures Strip(rawFeature) == [] || lower(Strip(rawCriterion)) == [] ==> r == QueryError(FillInAllFields)
    ensures Strip(rawFeature) != [] && lower(Strip(rawCriterion)) != [] ==>
      (choice == "1" || choice == "2" <==> r.QueryResult?)
    ensures r.QueryResult? ==>
      var data := if choice == "1" then processor.GetArtistMusic() else processor.GetMusicFeatures();
      Statistics.QueryAnswer(Flatten(data), Strip(rawFeature), lower(Strip(rawCriterion)), r.best)
  {
    var feature := Strip(rawFeature);
    var criterion := lower(Strip(rawCriterion));
    if feature == [] || criterion == [] {
      return QueryError(FillInAllFields);
    }
    if choice == "1" {
      var best := Statistics.QueryBestFeature(processor.GetArtistMusic(), feature, criterion);
      r := QueryResult(best);
    } else if choice == "2" {
      var best := Statistics.QueryBestFeature(processor.GetMusicFeatures(), feature, criterion);
      r := QueryResult(best);
    } else {
      r := NoChoice;
    }
  }
}
