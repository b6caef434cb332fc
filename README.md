# Music data analytics: loaders, statistics and similarity, in Dafny

This project models the data core of a small music analytics tool written in Python:

- **Loading.** `MusicDataProcessor` reads two CSV files.
  - The genre file becomes a map from a track `key` to that key's genre records, in file order.
  - The artist file is split with a quote-aware splitter. Each row:
    - registers the track under every artist named in its `artists` cell;
    - if its key has genre records, stores copies of those records under the track id.
  - A row whose numeric cells do not parse is skipped.
  - A row too short for a column raises an uncaught `IndexError`, which ends loading. Updates from earlier rows stay.
- **Statistics.** `FeatureStatistics` computes per-feature mean, min, max, variance, standard deviation and mode. It also z-score normalizes a feature dictionary and finds the entry with the highest or lowest value of a feature.
- **Similarity.** There are five metrics: Euclidean, cosine, Pearson, Jaccard and Manhattan. `compute_similarity` checks that both ids exist and scores the features of their first entries.
- **Front end.** The two similarity handlers and the query handler of the GUI, minus the GUI:
  - they strip and check the input fields;
  - they pick a metric by name and reject an unknown one before anything is computed;
  - they grade the score with `similarity_outcome`;
  - they turn a `ValueError` into an error message.

Modules:

- `Wrappers`: `Option` and `Result`.
- `Text`: Python's `strip`, `strip(chars)` and `split(sep)` with `join` as its inverse.
- `CsvLine`: the quote-aware line splitter and the parsing of the artists cell.
- `Features`: feature dictionaries, indexes and the insertion-ordered dictionary.
- `Loader`: `MusicDataProcessor`, a class whose two dictionary fields are updated in place.
- `Statistics`: `FeatureStatistics`.
- `Similarity`: `SimilarityMeasures`.
- `App`: the handlers of `main.py`.
- `RealArith`: small facts about real products and quotients, used by the proofs.

How Python values are represented:

- A feature dictionary is an association list in insertion order.
- A data dictionary (`artist_music`, `music_features`) is a map plus the order of its keys. Its `items()` is a sequence of (key, entries) pairs.
- Numbers are exact reals.
- `float()`, `int()`, the square root and `str.lower` are parameters:
  - `parseFloat: string -> Option<real>` and `parseInt: string -> Option<int>` return `None` where Python raises `ValueError`.
  - `sqrt` stands for both square roots of the source: `math.sqrt` in the metrics and `** 0.5` in the standard deviation (statistical_functions.py:30). It is constrained only by `SqrtSpec`: `sqrt(0) == 0`, `sqrt(x) >= 0` for `x >= 0`, and `sqrt(x) > 0` for `x > 0`.
- Files are sequences of data lines (without the header). The header lookups are a map `cols` from column name to position.

The source's not-found message for the second id lacks its `f` prefix, so the user sees the literal text `{id2}`. The model keeps that text.

## Model

| member | source | states |
|---|---|---|
| Text.StripCharsSpec | load_data_set.py:126 | `strip(chars)` removes only characters of the set, from the two ends, and leaves neither end in the set. |
| Text.StripCharsOfStripped | load_data_set.py:126 | Stripping a string that is already stripped changes nothing. |
| Text.FindFrom | load_data_set.py:100 | The position found is the first occurrence of the separator at or after the start, or the end of the string. |
| Text.JoinSplitOn | load_data_set.py:20 | Joining the pieces of `split(sep)` with `sep` gives back the original string. |
| Text.SplitOn | load_data_set.py:100 | `split(sep)` always gives at least one piece. Its inverse is stated by `Text.JoinSplitOn`, and `Text.SplitOnPiecesFree` says the pieces are free of the separator. |
| Text.SplitOnPiecesFree | load_data_set.py:100 | No piece of `split(sep)` contains the separator. |
| CsvLine.SplitLine | load_data_set.py:83-96 | The loop returns the stripped fields of the quote-aware reading. Their number is the count of commas outside quotes plus one, and no field contains a quote or has whitespace at its ends. |
| CsvLine.FieldCount | load_data_set.py:86-96 | A line has one more field than it has commas outside quotes. |
| CsvLine.JoinRawFields | load_data_set.py:86-95 | Joining the raw fields with commas gives the line with its quote characters removed. |
| CsvLine.FieldsClean | load_data_set.py:92-96 | Every field is stripped and free of quote characters. |
| CsvLine.QuotedCommaKept | load_data_set.py:87-91 | A comma inside quotes does not end a field. |
| CsvLine.UnterminatedQuote | load_data_set.py:87-96 | After a quote that is never closed, the rest of the line, commas included, belongs to the last field. |
| CsvLine.QuotedCommaExample | load_data_set.py:83-96 | `a,"b,c",d` splits into `a`, `b,c` and `d`. |
| CsvLine.OpenQuoteExample | load_data_set.py:83-96 | `a,"b,c` splits into `a` and `b,c`. |
| CsvLine.ArtistPieces | load_data_set.py:100 | The artists cell always gives at least one piece. |
| CsvLine.ArtistPiecesJoin | load_data_set.py:100 | Joining the pieces with `', '` gives back the cell with its brackets and double quotes stripped, and no piece still contains `', '`. |
| CsvLine.ArtistNames | load_data_set.py:99-126 | Name i is piece i of the artists cell, normalized. So there is one name per piece, in order, and no name has whitespace at either end. |
| CsvLine.NormalizeArtist | load_data_set.py:126 | A normalized artist name has no whitespace at either end. |
| CsvLine.NormalizeAll | load_data_set.py:125-126 | The artist loop's name i is `NormalizeArtist` of piece i. So there is one name per piece, in order, none with whitespace at either end. |
| CsvLine.NormalizedArtistClean | load_data_set.py:126 | When a piece's only whitespace is spaces, its name also has no quote or space at either end. |
| CsvLine.TabShieldsQuote | load_data_set.py:126 | A tab before a quote keeps that quote in the name. |
| Features.ValueOf | statistical_functions.py:66 | With distinct keys, the value read is the value stored under the key. |
| Features.Lookup | similarity_module.py:65-71 | The lookup is `None` exactly when no item has the key; otherwise it returns the value of an item with that key. It serves data dictionaries and the statistics dictionary alike. |
| Features.Dict.Items | load_data_set.py:153-157 | `items()` lists the keys in insertion order, and looking a key up in it finds exactly the dictionary's entries for that key. |
| Features.Dict.Put | load_data_set.py:138 | Assigning a key sets its entries. A new key goes last, an existing key keeps its place, and the dictionary stays well formed. |
| Features.Dict.Append | load_data_set.py:127-133 | `setdefault(k, []).append(e)` adds `e` at the end of the key's entries, which start empty if the key is new. |
| Features.PutThenAppend | load_data_set.py:138-146 | Appending under a key that was just assigned extends the assigned entries. |
| Loader.GenreFeatures | load_data_set.py:27-45 | A genre row's features are the eleven names in literal order. Each value is the parsed cell, or 0.0 when the cell does not parse. |
| Loader.GenreRow | load_data_set.py:24-53 | A genre record is named by the stripped `genres` cell, or "Unknown" when there is no such column, and carries the row's features. |
| Loader.KeysUpToRecords | load_data_set.py:47-53 | A key is in the index exactly when some row with that key has been read. |
| Loader.GenreIndexBuckets | load_data_set.py:47-55 | The genre index holds, for each key, the records of all its rows in file order. |
| Loader.GenreIndexNonEmpty | load_data_set.py:47-53 | No key of the genre index has an empty list. |
| Loader.GenreInsertStep | load_data_set.py:49-53 | Appending a row's record under its key, or creating the key, turns the index of the earlier rows into the index of the rows so far. |
| Loader.IndexesAllRows | load_data_set.py:55 | An index of all the rows is the genre index. |
| Loader.MusicDataProcessor.LoadGenreData | load_data_set.py:11-55 | Loading fails exactly when some row is too short, and it reports the first such row. Otherwise it returns the genre index. |
| Loader.FirstFailure | load_data_set.py:106-119 | Every numeric cell before the returned position exists and parses, and the cell at that position does not. |
| Loader.ParseFeaturesFrom | load_data_set.py:106-118 | When all cells parse, the features are the names in literal order with their parsed values. |
| Loader.ParseFeaturesOutcome | load_data_set.py:106-122 | The first failing cell decides: a missing cell is an `IndexError`, a cell that does not parse is a `ValueError`, and no failure gives values. |
| Loader.ParsedKeys | load_data_set.py:108-118 | The parsed features carry exactly the names read. |
| Loader.ParseMusicRow | load_data_set.py:98-122 | A row aborts (`IndexError`) exactly when one of the `artists`, `name`, `id` or `key` cells is missing or the first failing numeric cell is missing. It is skipped (`ValueError`) exactly when those four cells exist and the first failing numeric cell does not parse. A registered row has a track with the nine music features and artist names without surrounding whitespace. |
| Loader.RegisterArtists | load_data_set.py:125-133 | Registering artists keeps the dictionary well formed. |
| Loader.RegisterArtistsStep | load_data_set.py:125-133 | Registering one more artist appends the track to that artist's bucket. |
| Loader.RegisterArtistsHas | load_data_set.py:127-128 | An artist has a bucket afterwards exactly when it had one before or is named in the row. |
| Loader.RegisterArtistsBucket | load_data_set.py:125-133 | An artist's bucket is its old bucket followed by the track, repeated as often as the row names the artist. |
| Loader.BucketAfterAppend | load_data_set.py:127-133 | One append adds the track to the bucket of the artist appended to and leaves every other bucket unchanged. |
| Loader.RegisterArtistsOrder | load_data_set.py:127-128 | Existing artists keep their order. The artists not yet present follow them, each once, in the order of their first mention in the row (`Loader.NewArtists`). |
| Loader.MusicFeaturesJoin | load_data_set.py:136-146 | If the row's key is non-empty and has genre records, the track id maps to copies of them. Otherwise `music_features` is unchanged. Other ids keep their entries, and an existing id keeps its place. |
| Loader.ApplyRow | load_data_set.py:124-146 | Applying a row keeps both dictionaries well formed. What it changes is stated by `Loader.MusicFeaturesJoin`, `Loader.SkippedRowChangesNothing` and the `RegisterArtists` lemmas. |
| Loader.LoadRowsOk | load_data_set.py:79-122 | Loading completes exactly when no row raises `IndexError`. |
| Loader.LoadRows | load_data_set.py:79-146 | Loading the rows in order keeps both dictionaries well formed. When it completes is stated by `Loader.LoadRowsOk`. |
| Loader.SkippedRowChangesNothing | load_data_set.py:119-122 | A row skipped for a `ValueError` leaves both dictionaries as if it were absent. |
| Loader.LoadRowsKeepsShape | load_data_set.py:124-146 | Starting from non-empty buckets and stripped artist names, loading keeps every bucket of both dictionaries non-empty and every artist name stripped. |
| Loader.RowOutcomesWellFormed | load_data_set.py:98-133 | Every parsed row holds a track and artist names without whitespace at their ends. |
| Loader.MusicDataProcessor.constructor | load_data_set.py:5-9 | Both dictionaries start empty. |
| Loader.MusicDataProcessor.RegisterTrack | load_data_set.py:125-133 | The artist loop leaves `artist_music` as `RegisterArtists` of its old value and does not touch `music_features`. |
| Loader.MusicDataProcessor.StoreGenres | load_data_set.py:136-146 | The genre loop sets the track id to the copies of the genre records and does not touch `artist_music`. |
| Loader.MusicDataProcessor.LoadMusicRow | load_data_set.py:79-146 | One line updates the state as its outcome says. It reports failure exactly for an `IndexError`. |
| Loader.MusicDataProcessor.LoadMusicData | load_data_set.py:57-146 | The state and the completion flag are those of loading the rows in order, stopping at the first `IndexError`. |
| Loader.MusicDataProcessor.LoadData | load_data_set.py:148-151 | A genre file with a short row changes nothing. Otherwise the music rows are loaded against the genre index. |
| Loader.MusicDataProcessor.GetMusicFeatures | load_data_set.py:153-154 | Looking an id up in the result finds exactly the stored genre entries. |
| Loader.MusicDataProcessor.GetArtistMusic | load_data_set.py:156-157 | Looking an artist up in the result finds exactly the stored tracks. |
| Statistics.Min | statistical_functions.py:27 | `min` is an element of the values and no value is below it. |
| Statistics.Max | statistical_functions.py:28 | `max` is an element of the values and no value is above it. |
| Statistics.Mode | statistical_functions.py:33-36 | The mode is one of the values. `Statistics.ModeSpec` says which one. |
| Statistics.ModeSpec | statistical_functions.py:33-36 | The mode is a value of maximal count. No value that first appears earlier has that count, as with `Counter.most_common`. |
| Statistics.SumBounds | statistical_functions.py:26 | A sum of n values within [lo, hi] lies within [n·lo, n·hi]. |
| Statistics.MeanBetweenMinAndMax | statistical_functions.py:26-28 | The mean lies between the minimum and the maximum. |
| Statistics.VarianceSpec | statistical_functions.py:29 | The variance is non-negative. It is 0 when all values are equal, and then the mean is that value. |
| Statistics.SummarizeSpec | statistical_functions.py:24-39 | In one feature's summary, min ≤ mean ≤ max, the variance and standard deviation are non-negative, and the mode is a value within [min, max]. Constant values give 0 spread and mean == mode. |
| Statistics.PoolFlatten | statistical_functions.py:11-16 | The pooled features are those of all entries, in dictionary order. |
| Statistics.ValuesOfNonEmpty | statistical_functions.py:19-23 | A feature of the first entry has at least one value, so its mean is defined. |
| Statistics.CalculateStatistics | statistical_functions.py:7-40 | Calculation fails (`IndexError`) exactly when there are no entries. Otherwise it gives, for each feature name of the first entry in order, the summary of that feature's values over all entries. |
| Statistics.SummarizedAt | statistical_functions.py:22-39 | Position k of the result holds feature k's name and summary. |
| Statistics.WithStats | statistical_functions.py:47-48 | A name is kept exactly when it is a feature name that has statistics. |
| Statistics.NormalizeFeatures | statistical_functions.py:44-55 | The normalized dictionary keeps, in order, exactly the features that have statistics. |
| Statistics.NormalizedValues | statistical_functions.py:47-54 | Every normalized value is the z-score of the original value under that feature's statistics. |
| Statistics.ZScoreSpec | statistical_functions.py:49-54 | The z-score is 0 when the standard deviation is not positive or when the value is the mean. Otherwise it maps back to the value (z·std + mean). |
| Statistics.QueryBestFeature | statistical_functions.py:57-73 | `QueryAnswer` holds of the result over the pooled entries: `None` exactly when no entry has the feature. Otherwise the result is an entry with the feature: the first maximal one for "highest", the first minimal one for "lowest", and the first one for any other criterion. |
| Statistics.BestSoFarFound | statistical_functions.py:57-73 | The loop state after the last entry is the promised answer. |
| Statistics.BestTake | statistical_functions.py:68-71 | An entry that beats the current best, or the first entry with the feature, becomes the best. |
| Statistics.BestKeep | statistical_functions.py:62-71 | An entry that does not beat the current best leaves the best in place. |
| Similarity.CommonKeys | similarity_module.py:8 | A feature is common exactly when both dictionaries have it. |
| Similarity.SquaredDifference | similarity_module.py:7 | A squared difference is non-negative, and 0 exactly for equal values. |
| Similarity.AbsDifference | similarity_module.py:58 | An absolute difference is non-negative, and 0 exactly for equal values. |
| Similarity.SquaredDistance | similarity_module.py:7-8 | The sum of squared differences is non-negative, so the square root and `1 / (1 + d)` are defined. |
| Similarity.ManhattanDistance | similarity_module.py:58-59 | The Manhattan distance is non-negative, so `1 / (1 + d)` is defined. |
| Similarity.SumOverPermutation | similarity_module.py:7-8 | A sum over features does not depend on their order. |
| Similarity.SumOverNonNegative | similarity_module.py:58-59 | A sum of non-negative terms is non-negative, and 0 exactly when every term is 0. |
| Similarity.SumOverConstant | similarity_module.py:30-34 | A sum of one value c over n features is n·c. |
| Similarity.CommonKeysSymmetric | similarity_module.py:8 | Both argument orders have the same common features, each once. |
| Similarity.Euclidean | similarity_module.py:5-9 | Euclidean similarity lies in (0, 1]. |
| Similarity.EuclideanIdentical | similarity_module.py:5-9 | Euclidean similarity is 1 exactly when all common values are equal, which includes the case of no common features. |
| Similarity.SquaredDistanceZero | similarity_module.py:7-8 | The sum of squared differences is 0 exactly when all common values are equal. |
| Similarity.EuclideanSymmetric | similarity_module.py:5-9 | Euclidean similarity does not depend on argument order. |
| Similarity.Cosine | similarity_module.py:11-20 | Cosine similarity is 0 when the dot product over the common features is 0. |
| Similarity.CosineSymmetric | similarity_module.py:11-20 | Cosine similarity does not depend on argument order. |
| Similarity.CosineZeroMagnitude | similarity_module.py:11-20 | Cosine similarity is 0 when either magnitude is 0. |
| Similarity.Pearson | similarity_module.py:22-42 | The only error Pearson similarity raises is the math domain error of `math.sqrt`, and only when there are common features. |
| Similarity.PearsonSymmetric | similarity_module.py:22-42 | Pearson similarity, and whether it raises, do not depend on argument order. |
| Similarity.CoSpreadSymmetric | similarity_module.py:30-39 | The covariance term `sum_products - sum1 * sum2 / n` does not depend on the order of the features or of the two vectors. |
| Similarity.SumsPermutation | similarity_module.py:30-34 | The sums over the common features do not depend on their order, and a sum of products does not depend on the order of its factors. |
| Similarity.PearsonNoCommon | similarity_module.py:25-28 | Pearson similarity is 0 without common features. |
| Similarity.SpreadOfConstant | similarity_module.py:33-39 | `sum_sq - sum ** 2 / n` is 0 when the values are all equal. |
| Similarity.PearsonConstant | similarity_module.py:30-42 | Pearson similarity is 0, not an error, when either side is constant on the common features. There the denominator is `sqrt(0) == 0`. |
| Similarity.Jaccard | similarity_module.py:44-53 | Jaccard similarity lies in [0, 1]. |
| Similarity.JaccardSymmetric | similarity_module.py:44-53 | Jaccard similarity does not depend on argument order. |
| Similarity.JaccardCases | similarity_module.py:44-53 | Jaccard similarity is 0 when both key sets are empty, 1 for equal non-empty key sets, and 0 for disjoint key sets that are not both empty. |
| Similarity.JaccardOne | similarity_module.py:44-53 | Jaccard similarity is 1 only for equal non-empty key sets. |
| Similarity.ManhattanRange | similarity_module.py:55-60 | Manhattan similarity lies in (0, 1]. It is 1 exactly when all common values are equal, including the case of no common features. |
| Similarity.ManhattanSymmetric | similarity_module.py:55-60 | Manhattan similarity does not depend on argument order. |
| Similarity.Manhattan | similarity_module.py:55-60 | Manhattan similarity lies in (0, 1]. |
| Similarity.Measure | main.py:126-139 | Only the Pearson metric can fail, and only with the math domain error. Euclidean and Manhattan scores lie in (0, 1] and Jaccard scores in [0, 1]. |
| Similarity.ComputeSimilarity | similarity_module.py:63-78 | A missing `id1` is reported first, with its name. A missing `id2` is reported with the literal `{id2}` message. When both are present, an empty list for `id1`, and otherwise an empty list for `id2`, raises `IndexError` with that key. An `IndexError` arises in no other case. |
| Similarity.FirstEntriesDecide | similarity_module.py:70-71 | The result depends on nothing but whether the ids are present and the features of their first entries. |
| Similarity.ComputeWithoutStats | similarity_module.py:70-78 | Without statistics the first entries' features are scored unnormalized, and a metric's error becomes a `ValueError`. |
| Similarity.ComputeWithStats | similarity_module.py:70-78 | With statistics the first entries' features are normalized with them before they are scored, and a metric's error becomes a `ValueError`. |
| App.SimilarityOutcome | main.py:8-20 | Each of the six grades holds exactly on its band. The bands are disjoint and cover every real. |
| App.OutcomeMonotone | main.py:8-20 | On (0, 1] a higher score never gets a lower grade, and no score there is "Completely Dissimilar". |
| App.DistanceScoresAreGraded | main.py:8-20 | Euclidean and Manhattan scores are never "Completely Dissimilar". |
| App.MetricByName | main.py:126-132 | A metric is found exactly for the five names, and the name of the metric found is the name given. |
| App.MetricNameRoundTrip | main.py:126-132 | Each metric's name maps back to it. |
| App.CompareEntities | main.py:120-145 | Checks run in this order, and each failure produces its own message: an empty field, then an unknown metric, then a missing first id, then a missing second id. Once the fields and the metric are accepted, a score is shown with its grade, a `ValueError` is shown as `Error: ` followed by its message, and an `IndexError` escapes. It escapes only for an empty entry list. |
| App.InvalidMetricComputesNothing | main.py:134-136 | With an unknown metric the reaction is an error and depends on neither the data nor `sqrt`. |
| App.LoadedIndexNeverRaises | main.py:138-143 | On a dictionary whose buckets are non-empty, as loading leaves them, the handler never lets `IndexError` escape. |
| App.CompareArtists | main.py:120-145 | The handler is the shared handler on the processor's `artist_music`. An unknown first or second artist is reported by name or with the literal message. |
| App.CompareTracks | main.py:169-194 | The handler is the shared handler on the processor's `music_features`. An unknown first or second track id is reported by name or with the literal message. |
| App.PerformQuery | main.py:77-93 | An empty feature or criterion is an error. Choices "1" and "2", and only those, give a result. A result is the `query_best_feature` answer (`Statistics.QueryAnswer`) over the chosen dictionary. |

## Left out

- The tkinter windows, buttons and message boxes are not modelled. A handler's reaction is returned as a value.
- Opening and reading the files is not modelled. A file is the sequence of its data lines.
- Reading the header and mapping column names to positions is not modelled. `cols` is a parameter.
  - A header that lacks a column the music loader looks up with `index` raises `ValueError` before any row is read; that case is outside the model.
- `tabulate` and `print` are not modelled.
- The lexical rules of Python's `float()` and `int()` are not modelled. They are the parameters `parseFloat` and `parseInt`.
- The square root (`math.sqrt`, and `** 0.5` in the standard deviation) is only constrained by `SqrtSpec`; its value on other inputs is not modelled.
- `str.lower` in the query handler is a parameter.
- Floating-point rounding is not modelled; reals are exact.
  - A negative Pearson radicand, which rounding can produce and `math.sqrt` rejects, is kept as `Failure("math domain error")`. `compute_similarity` reports it as a `ValueError`.
- The `{:.4f}` formatting of the score in the message box is not modelled. The reaction carries the exact score.
- The query result's message-box text (`Result: {...}`) is not modelled. The reaction carries the best entry.
- `FeatureStatistics` is modelled as functions and methods over the data it would hold, not as a class. Its only field is set once by the constructor.
- `compute_similarity` is called by the handlers without statistics. The model passes empty statistics, which normalize nothing, exactly as `None` does.
- Statistics.VarianceSpec: the converse, that a variance of 0 means all values are equal, is not proved.
- Similarity.Cosine: the bound −1 ≤ score ≤ 1 (the Cauchy–Schwarz inequality) is not proved. Only the zero cases and symmetry are.
- Similarity.Pearson: the bound −1 ≤ score ≤ 1 is not proved, for the same reason.
- Similarity.EuclideanSymmetric: assumes distinct keys in each dictionary, which Python dictionaries always have. The same holds for Similarity.ManhattanSymmetric, Similarity.CosineSymmetric, Similarity.PearsonSymmetric and Similarity.CommonKeysSymmetric.
- App.CompareEntities: an `IndexError` from an empty entry list escapes the handler in the source. It is modelled as the `Raised` reaction, and the model does not say what the GUI then does.
