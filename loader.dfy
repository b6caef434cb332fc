/**
 * The two CSV loaders of `MusicDataProcessor` and the join between them.
 *
 * The genre file becomes a map from a track `key` to the genre records of every row with that key,
 * in file order. The music file is read row by row with the quote-aware splitter: a row whose
 * numeric cells do not all parse is skipped, and every other row registers its track under each of
 * its artists and, when its key names genre records, stores a copy of those records under the track
 * id. A row too short for one of the columns the loader reads raises `IndexError`, which nothing
 * catches: loading stops there and the updates of the earlier rows stay.
 *
 * Files are replaced by the sequences of their data lines (after the header), the header lookups by
 * a map `cols` from column name to position, and Python's `float()` / `int()` by the parameters
 * `parseFloat` / `parseInt` (`None` where Python raises `ValueError`).
 */
module Loader {
  import opened Wrappers
  import opened Text
  import opened CsvLine
  import opened Features

  type FloatParser = string -> Option<real>
  type IntParser = string -> Option<int>

  /** The features of a genre row, in the order of its dictionary literal. */
  const GenreFeatureNames: seq<string> :=
    ["acousticness", "danceability", "duration_ms", "energy", "instrumentalness", "liveness",
     "loudness", "speechiness", "tempo", "valence", "popularity"]

  /** The features of a track, in the order of its dictionary literal (and of evaluation). */
  const MusicFeatureNames: seq<string> :=
    ["valence", "acousticness", "danceability", "energy", "liveness", "loudness", "popularity",
     "speechiness", "tempo"]

  /** One record of the genre index: `{"genre_name": ..., "features": ...}`. */
  datatype GenreRecord = GenreRecord(genreName: string, features: FeatureVector)

  type GenreIndexMap = map<string, seq<GenreRecord>>

  /** The uncaught `IndexError`: data line `row` (0-based) is too short. */
  datatype LoadError = RowTooShort(row: nat)

  /** Every name of `names` is a known column. */
  predicate HasColumns(cols: map<string, nat>, names: seq<string>)
  {
    forall n :: n in names ==> n in cols
  }

  /** The row `v` has a cell for each of `names`. */
  predicate CellsExist(v: seq<string>, cols: map<string, nat>, names: seq<string>)
    requires HasColumns(cols, names)
  {
    forall n :: n in names ==> cols[n] < |v|
  }

  // ---------------------------------------------------------------- genre rows

  /** The header names the genre loader looks up unconditionally. */
  predicate GenreColumnsKnown(cols: map<string, nat>)
  {
    "key" in cols && HasColumns(cols, GenreFeatureNames)
  }

  /** A genre line is stripped and cut at every comma; quotes get no special treatment. */
  function GenreCells(line: string): (v: seq<string>)
    ensures |v| >= 1
  {
    SplitOn(Strip(line), ",")
  }

  /** Every cell the genre loader reads exists. */
  predicate GenreRowFits(v: seq<string>, cols: map<string, nat>)
    requires GenreColumnsKnown(cols)
  {
    cols["key"] < |v| && ("genres" in cols ==> cols["genres"] < |v|) && CellsExist(v, cols, GenreFeatureNames)
  }

  /** `safe_float`: the parsed value, or 0.0 when the cell is not a number. */
  function SafeFloat(cell: string, parseFloat: FloatParser): real
  {
    match parseFloat(cell)
    case Some(x) => x
    case None => 0.0
  }

  /** The features of a genre row: every genre feature, each read with `SafeFloat` from the unstripped cell. */
  function GenreFeatures(v: seq<string>, cols: map<string, nat>, parseFloat: FloatParser): (fv: FeatureVector)
    requires GenreColumnsKnown(cols) && GenreRowFits(v, cols)
    ensures Keys(fv) == GenreFeatureNames
    ensures forall i :: 0 <= i < |fv| ==>
      fv[i].1 == (if parseFloat(v[cols[GenreFeatureNames[i]]]).Some? then parseFloat(v[cols[GenreFeatureNames[i]]]).value else 0.0)
  {
    seq(|GenreFeatureNames|, i requires 0 <= i < |GenreFeatureNames| =>
      (GenreFeatureNames[i], SafeFloat(v[cols[GenreFeatureNames[i]]], parseFloat)))
  }

  function GenreKey(v: seq<string>, cols: map<string, nat>): string
    requires GenreColumnsKnown(cols) && GenreRowFits(v, cols)
  {
    Strip(v[cols["key"]])
  }

  /** The record of a genre row; without a `genres` column every record is named "Unknown". */
  function GenreRow(v: seq<string>, cols: map<string, nat>, parseFloat: FloatParser): (g: GenreRecord)
    requires GenreColumnsKnown(cols) && GenreRowFits(v, cols)
    ensures "genres" !in cols ==> g.genreName == "Unknown"
    ensures "genres" in cols ==> g.genreName == Strip(v[cols["genres"]])
    ensures g.features == GenreFeatures(v, cols, parseFloat)
  {
    GenreRecord(if "genres" in cols then Strip(v[cols["genres"]]) else "Unknown", GenreFeatures(v, cols, parseFloat))
  }

  /** Some data line of the genre file is too short, so loading it raises. */
  predicate GenreLoadFails(lines: seq<string>, cols: map<string, nat>)
    requires GenreColumnsKnown(cols)
  {
    exists i :: 0 <= i < |lines| && !GenreRowFits(GenreCells(lines[i]), cols)
  }

  /** The records, in file order, of the rows among the first `n` whose key is `k`. */
  function RecordsFor(lines: seq<string>, cols: map<string, nat>, parseFloat: FloatParser, k: string, n: nat): seq<GenreRecord>
    requires GenreColumnsKnown(cols) && n <= |lines|
  {
    if n == 0 then []
    else
      var v := GenreCells(lines[n - 1]);
      RecordsFor(lines, cols, parseFloat, k, n - 1)
      + (if GenreRowFits(v, cols) && GenreKey(v, cols) == k then [GenreRow(v, cols, parseFloat)] else [])
  }

  /** The keys of the fitting rows among the first `n`. */
  function KeysUpTo(lines: seq<string>, cols: map<string, nat>, n: nat): set<string>
    requires GenreColumnsKnown(cols) && n <= |lines|
  {
    if n == 0 then {}
    else
      var v := GenreCells(lines[n - 1]);
      KeysUpTo(lines, cols, n - 1) + (if GenreRowFits(v, cols) then {GenreKey(v, cols)} else {})
  }

  /** What `load_genre_data` returns when it does not raise. */
  function GenreIndex(lines: seq<string>, cols: map<string, nat>, parseFloat: FloatParser): GenreIndexMap
    requires GenreColumnsKnown(cols)
  {
    map k | k in KeysUpTo(lines, cols, |lines|) :: RecordsFor(lines, cols, parseFloat, k, |lines|)
  }

  /** A key has records exactly when some fitting row carries it. */
  lemma {:induction false} KeysUpToRecords(lines: seq<string>, cols: map<string, nat>, parseFloat: FloatParser, k: string, n: nat)
    requires GenreColumnsKnown(cols) && n <= |lines|
    ensures k in KeysUpTo(lines, cols, n) <==> RecordsFor(lines, cols, parseFloat, k, n) != []
    decreases n
  {
    if n > 0 {
      KeysUpToRecords(lines, cols, parseFloat, k, n - 1);
    }
  }

  /**
   * The genre index holds a key exactly when some row has it, and that key's bucket lists one record
   * per such row, in file order.
   */
  lemma GenreIndexBuckets(lines: seq<string>, cols: map<string, nat>, parseFloat: FloatParser, k: string)
    requires GenreColumnsKnown(cols)
    ensures k in GenreIndex(lines, cols, parseFloat) <==> RecordsFor(lines, cols, parseFloat, k, |lines|) != []
    ensures k in GenreIndex(lines, cols, parseFloat) ==> GenreIndex(lines, cols, parseFloat)[k] == RecordsFor(lines, cols, parseFloat, k, |lines|)
  {
    KeysUpToRecords(lines, cols, parseFloat, k, |lines|);
  }

  // ---------------------------------------------------------------- music rows

  /** The header names the music loader looks up. */
  predicate MusicColumnsKnown(cols: map<string, nat>)
  {
    "artists" in cols && "name" in cols && "id" in cols && "key" in cols && HasColumns(cols, MusicFeatureNames)
  }

  /** `popularity` goes through `int()`, every other feature through `float()`. */
  function ParseCell(name: string, cell: string, parseFloat: FloatParser, parseInt: IntParser): Option<real>
  {
    if name == "popularity" then
      match parseInt(cell)
      case Some(n) => Some(n as real)
      case None => None
    else parseFloat(cell)
  }

  /** How reading a track's numeric cells ends: all parsed, a `ValueError`, or an `IndexError`. */
  datatype FeatureParse = Values(fv: FeatureVector) | BadNumber | MissingCell

  /** The cell of feature `names[j]` exists and parses. */
  predicate CellParses(names: seq<string>, v: seq<string>, cols: map<string, nat>, parseFloat: FloatParser, parseInt: IntParser, j: nat)
    requires HasColumns(cols, names) && j < |names|
  {
    cols[names[j]] < |v| && ParseCell(names[j], Strip(v[cols[names[j]]]), parseFloat, parseInt).Some?
  }

  /** The cells of `names[i..]`, read in order; the first failure decides the outcome. */
  function ParseFeaturesFrom(names: seq<string>, v: seq<string>, cols: map<string, nat>, parseFloat: FloatParser, parseInt: IntParser, i: nat): (r: FeatureParse)
    requires HasColumns(cols, names) && i <= |names|
    ensures r.Values? ==> |r.fv| == |names| - i
    ensures r.Values? ==> forall j :: i <= j < |names| ==>
      CellParses(names, v, cols, parseFloat, parseInt, j)
      && r.fv[j - i] == (names[j], ParseCell(names[j], Strip(v[cols[names[j]]]), parseFloat, parseInt).value)
    decreases |names| - i
  {
    if i == |names| then Values([])
    else if cols[names[i]] >= |v| then MissingCell
    else
      match ParseCell(names[i], Strip(v[cols[names[i]]]), parseFloat, parseInt)
      case None => BadNumber
      case Some(x) =>
        match ParseFeaturesFrom(names, v, cols, parseFloat, parseInt, i + 1)
        case Values(rest) => Values([(names[i], x)] + rest)
        case BadNumber => BadNumber
        case MissingCell => MissingCell
  }

  /** The first of `names[i..]` whose cell is missing or does not parse, or `|names|`. */
  function FirstFailure(names: seq<string>, v: seq<string>, cols: map<string, nat>, parseFloat: FloatParser, parseInt: IntParser, i: nat): (j: nat)
    requires HasColumns(cols, names) && i <= |names|
    ensures i <= j <= |names|
    ensures forall m :: i <= m < j ==> CellParses(names, v, cols, parseFloat, parseInt, m)
    ensures j < |names| ==> !CellParses(names, v, cols, parseFloat, parseInt, j)
    decreases |names| - i
  {
    if i == |names| || !CellParses(names, v, cols, parseFloat, parseInt, i) then i
    else FirstFailure(names, v, cols, parseFloat, parseInt, i + 1)
  }

  /**
   * The reading of the numeric cells is decided by the first cell that fails: `IndexError` when that
   * cell is missing, `ValueError` when it is present but does not parse, and values when none fails.
   */
  lemma {:induction false} ParseFeaturesOutcome(names: seq<string>, v: seq<string>, cols: map<string, nat>, parseFloat: FloatParser, parseInt: IntParser, i: nat)
    requires HasColumns(cols, names) && i <= |names|
    ensures var j := FirstFailure(names, v, cols, parseFloat, parseInt, i);
      var r := ParseFeaturesFrom(names, v, cols, parseFloat, parseInt, i);
      && (r.MissingCell? <==> j < |names| && cols[names[j]] >= |v|)
      && (r.BadNumber? <==> j < |names| && cols[names[j]] < |v|)
      && (r.Values? <==> j == |names|)
    decreases |names| - i
  {
    if i < |names| && CellParses(names, v, cols, parseFloat, parseInt, i) {
      ParseFeaturesOutcome(names, v, cols, parseFloat, parseInt, i + 1);
    }
  }

  /** The parsed features carry exactly the names read, each once when the names are distinct. */
  lemma ParsedKeys(names: seq<string>, v: seq<string>, cols: map<string, nat>, parseFloat: FloatParser, parseInt: IntParser)
    requires HasColumns(cols, names) && ParseFeaturesFrom(names, v, cols, parseFloat, parseInt, 0).Values?
    ensures Keys(ParseFeaturesFrom(names, v, cols, parseFloat, parseInt, 0).fv) == names
  {
  }

  /** What one data line of the music file does. */
  datatype RowOutcome =
    | Abort                                                   // an `IndexError`: loading stops
    | Skip                                                    // a `ValueError`: the row is skipped
    | Parsed(artists: seq<string>, track: Entry, key: string) // the row is registered

  /** The outcome of a music row, given its fields. */
  function ParseMusicRow(v: seq<string>, cols: map<string, nat>, parseFloat: FloatParser, parseInt: IntParser): (o: RowOutcome)
    requires MusicColumnsKnown(cols)
    ensures o.Parsed? ==> o.track.Track? && Keys(o.track.features) == MusicFeatureNames
    ensures o.Parsed? ==> forall a :: a in o.artists ==> IsStrippedOf(a, Whitespace)
    ensures o.Abort? <==>
      (cols["artists"] >= |v| || cols["name"] >= |v| || cols["id"] >= |v| || cols["key"] >= |v|
       || ParseFeaturesFrom(MusicFeatureNames, v, cols, parseFloat, parseInt, 0).MissingCell?)
    ensures o.Skip? <==>
      (cols["artists"] < |v| && cols["name"] < |v| && cols["id"] < |v| && cols["key"] < |v|
       && ParseFeaturesFrom(MusicFeatureNames, v, cols, parseFloat, parseInt, 0).BadNumber?)
  {
    if cols["artists"] >= |v| || cols["name"] >= |v| || cols["id"] >= |v| || cols["key"] >= |v| then Abort
    else
      match ParseFeaturesFrom(MusicFeatureNames, v, cols, parseFloat, parseInt, 0)
      case MissingCell => Abort
      case BadNumber => Skip
      case Values(fv) =>
        ParsedKeys(MusicFeatureNames, v, cols, parseFloat, parseInt);
        Parsed(ArtistNames(v[cols["artists"]]), Track(v[cols["name"]], v[cols["id"]], fv), Strip(v[cols["key"]]))
  }

  // ---------------------------------------------------------------- the two tables

  /** The state of a `MusicDataProcessor`: its `artist_music` and `music_features` dictionaries. */
  datatype Tables = Tables(artistMusic: Dict, musicFeatures: Dict)
  {
    ghost predicate Valid()
    {
      artistMusic.Valid() && musicFeatures.Valid()
    }
  }

  /** The copies of a key's genre records that `music_features` stores. */
  function GenreEntries(records: seq<GenreRecord>): seq<Entry>
    decreases |records|
  {
    if records == [] then []
    else
      var last := records[|records| - 1];
      GenreEntries(records[..|records| - 1]) + [Genre(last.genreName, last.features)]
  }

  /** The track appended once to the bucket of each name, in order. */
  function RegisterArtists(d: Dict, names: seq<string>, track: Entry): (r: Dict)
    requires d.Valid()
    ensures r.Valid()
    decreases |names|
  {
    if names == [] then d else RegisterArtists(d, names[..|names| - 1], track).Append(names[|names| - 1], track)
  }

  /** The next artist of the cell that the artist loop appends to is the next name of `ArtistNames`. */
  lemma RegisterNextArtist(d: Dict, pieces: seq<string>, track: Entry, j: nat)
    requires d.Valid() && j < |pieces|
    ensures RegisterArtists(d, NormalizeAll(pieces[..j + 1]), track)
      == RegisterArtists(d, NormalizeAll(pieces[..j]), track).Append(NormalizeArtist(pieces[j]), track)
  {
    assert pieces[..j + 1][..j] == pieces[..j];
    var names := NormalizeAll(pieces[..j + 1]);
    assert names[..j] == NormalizeAll(pieces[..j]);
  }

  /** Registering one more name appends the track to that name's bucket. */
  lemma RegisterArtistsStep(d: Dict, names: seq<string>, track: Entry, j: nat)
    requires d.Valid() && j < |names|
    ensures RegisterArtists(d, names[..j + 1], track) == RegisterArtists(d, names[..j], track).Append(names[j], track)
  {
    assert names[..j + 1][..j] == names[..j];
  }

  /** How often `a` occurs in `names`. */
  function Count(names: seq<string>, a: string): (c: nat)
    ensures c > 0 <==> a in names
    decreases |names|
  {
    if names == [] then 0
    else
      var init := names[..|names| - 1];
      assert names == init + [names[|names| - 1]];
      Count(init, a) + (if names[|names| - 1] == a then 1 else 0)
  }

  function Repeat(e: Entry, n: nat): (es: seq<Entry>)
    ensures |es| == n && forall i :: 0 <= i < n ==> es[i] == e
  {
    seq(n, _ => e)
  }

  /**
   * After registering a track under a list of names, an artist has a bucket exactly when it had one
   * or is named, and the track has been appended to its bucket once per occurrence of its name.
   */
  lemma {:induction false} RegisterArtistsBucket(d: Dict, names: seq<string>, track: Entry, a: string)
    requires d.Valid()
    ensures a in RegisterArtists(d, names, track).entries <==> a in d.entries || a in names
    ensures a in RegisterArtists(d, names, track).entries ==>
      RegisterArtists(d, names, track).entries[a] == (if a in d.entries then d.entries[a] else []) + Repeat(track, Count(names, a))
    decreases |names|
  {
    RegisterArtistsHas(d, names, track, a);
    if names != [] {
      var init := names[..|names| - 1];
      var last := names[|names| - 1];
      RegisterArtistsBucket(d, init, track, a);
      RegisterArtistsHas(d, init, track, a);
      BucketAfterAppend(RegisterArtists(d, init, track), last, track, a, if a in d.entries then d.entries[a] else [], Count(init, a));
    }
  }

  /** Appending the track under `last` adds one copy to the bucket of `a` when `a` is `last`, and none otherwise. */
  lemma BucketAfterAppend(r0: Dict, last: string, track: Entry, a: string, base: seq<Entry>, n: nat)
    requires r0.Valid()
    requires a in r0.entries ==> r0.entries[a] == base + Repeat(track, n)
    requires a !in r0.entries ==> base == [] && n == 0
    ensures a in r0.Append(last, track).entries ==>
      r0.Append(last, track).entries[a] == base + Repeat(track, n + if a == last then 1 else 0)
  {
    if a == last {
      assert Repeat(track, n) + [track] == Repeat(track, n + 1);
    }
  }

  /** An artist has a bucket after registering exactly when it had one or is named. */
  lemma {:induction false} RegisterArtistsHas(d: Dict, names: seq<string>, track: Entry, a: string)
    requires d.Valid()
    ensures a in RegisterArtists(d, names, track).entries <==> a in d.entries || a in names
    decreases |names|
  {
    if names != [] {
      var init := names[..|names| - 1];
      var last := names[|names| - 1];
      assert names == init + [last];
      RegisterArtistsHas(d, init, track, a);
      assert RegisterArtists(d, names, track) == RegisterArtists(d, init, track).Append(last, track);
    }
  }

  /** The names not in `known`, each at its first mention, in the order they are first mentioned. */
  function NewArtists(known: seq<string>, names: seq<string>): seq<string>
    decreases |names|
  {
    if names == [] then []
    else
      var earlier := NewArtists(known, names[..|names| - 1]);
      var last := names[|names| - 1];
      if last in known || last in earlier then earlier else earlier + [last]
  }

  /**
   * Registering never moves an artist already present: the artists not yet present are added after
   * the existing ones, in the order of their first mention.
   */
  lemma {:induction false} RegisterArtistsOrder(d: Dict, names: seq<string>, track: Entry)
    requires d.Valid()
    ensures |RegisterArtists(d, names, track).order| >= |d.order|
    ensures RegisterArtists(d, names, track).order[..|d.order|] == d.order
    ensures RegisterArtists(d, names, track).order == d.order + NewArtists(d.order, names)
    decreases |names|
  {
    if names != [] {
      var init := names[..|names| - 1];
      var last := names[|names| - 1];
      RegisterArtistsOrder(d, init, track);
      var r := RegisterArtists(d, init, track);
      assert last in r.entries <==> last in d.order || last in NewArtists(d.order, init);
    }
  }

  /** The effect of a row on the tables: a parsed row registers its track and may store its genres. */
  function ApplyRow(t: Tables, o: RowOutcome, genreData: GenreIndexMap): (r: Tables)
    requires t.Valid()
    ensures r.Valid()
  {
    if o.Parsed? && o.track.Track? then
      Tables(
        RegisterArtists(t.artistMusic, o.artists, o.track),
        if o.key != "" && o.key in genreData then t.musicFeatures.Put(o.track.id, GenreEntries(genreData[o.key])) else t.musicFeatures)
    else t
  }

  /**
   * `music_features[id]` is (re)assigned by a parsed row exactly when the row's key is non-empty and
   * has genre records, and then holds copies of those records (genre features, not the track's);
   * no other track id changes, and a reassigned id keeps its place.
   */
  lemma MusicFeaturesJoin(t: Tables, o: RowOutcome, genreData: GenreIndexMap)
    requires t.Valid() && o.Parsed? && o.track.Track?
    ensures var mf := ApplyRow(t, o, genreData).musicFeatures;
      && (o.key != "" && o.key in genreData ==> o.track.id in mf.entries && mf.entries[o.track.id] == GenreEntries(genreData[o.key]))
      && (!(o.key != "" && o.key in genreData) ==> mf == t.musicFeatures)
      && (forall id :: id != o.track.id ==> (id in mf.entries <==> id in t.musicFeatures.entries))
      && (forall id :: id != o.track.id && id in mf.entries ==> mf.entries[id] == t.musicFeatures.entries[id])
      && (o.track.id in t.musicFeatures.entries ==> mf.order == t.musicFeatures.order)
  {
  }

  /** The outcome of every data line of the music file, in order. */
  function RowOutcomes(lines: seq<string>, cols: map<string, nat>, parseFloat: FloatParser, parseInt: IntParser): seq<RowOutcome>
    requires MusicColumnsKnown(cols)
  {
    seq(|lines|, i requires 0 <= i < |lines| => ParseMusicRow(Fields(lines[i]), cols, parseFloat, parseInt))
  }

  /** Loading rows with the given outcomes: the final tables, and `false` when an `IndexError` stopped the load. */
  function LoadRows(t: Tables, os: seq<RowOutcome>, genreData: GenreIndexMap): (r: (Tables, bool))
    requires t.Valid()
    ensures r.0.Valid()
    decreases |os|
  {
    if os == [] then (t, true)
    else if os[0].Abort? then (t, false)
    else LoadRows(ApplyRow(t, os[0], genreData), os[1..], genreData)
  }

  /** The rows loaded are a prefix of the file: all of it exactly when no row aborts. */
  lemma {:induction false} LoadRowsOk(t: Tables, os: seq<RowOutcome>, genreData: GenreIndexMap)
    requires t.Valid()
    ensures LoadRows(t, os, genreData).1 <==> forall i :: 0 <= i < |os| ==> !os[i].Abort?
    decreases |os|
  {
    if os != [] && !os[0].Abort? {
      LoadRowsOk(ApplyRow(t, os[0], genreData), os[1..], genreData);
      assert forall i :: 1 <= i < |os| ==> os[i] == os[1..][i - 1];
    }
  }

  /** A row skipped for a non-numeric cell changes nothing, wherever it is, and all other rows are still loaded. */
  lemma {:induction false} SkippedRowChangesNothing(t: Tables, before: seq<RowOutcome>, after: seq<RowOutcome>, genreData: GenreIndexMap)
    requires t.Valid()
    ensures LoadRows(t, before + [Skip] + after, genreData) == LoadRows(t, before + after, genreData)
    decreases |before|
  {
    if before == [] {
      assert before + [Skip] + after == [Skip] + after;
      assert ([Skip] + after)[1..] == after;
      assert ApplyRow(t, Skip, genreData) == t;
      assert before + after == after;
    } else {
      assert (before + [Skip] + after)[0] == before[0];
      assert (before + [Skip] + after)[1..] == before[1..] + [Skip] + after;
      assert (before + after)[0] == before[0];
      assert (before + after)[1..] == before[1..] + after;
      if !before[0].Abort? {
        SkippedRowChangesNothing(ApplyRow(t, before[0], genreData), before[1..], after, genreData);
      }
    }
  }

  /** Every bucket of the dictionary is non-empty. */
  ghost predicate NonEmptyBuckets(d: Dict)
  {
    forall k :: k in d.entries ==> d.entries[k] != []
  }

  /** Every artist name stored is free of whitespace at both ends. */
  ghost predicate CleanArtistNames(d: Dict)
  {
    forall a :: a in d.entries ==> IsStrippedOf(a, Whitespace)
  }

  /** The outcomes a music file can produce: parsed rows hold a track and whitespace-stripped artist names. */
  ghost predicate WellFormedOutcome(o: RowOutcome)
  {
    o.Parsed? ==> o.track.Track? && forall a :: a in o.artists ==> IsStrippedOf(a, Whitespace)
  }

  /**
   * Loading keeps every artist bucket non-empty and every stored artist name stripped, and keeps
   * every `music_features` bucket non-empty when the genre buckets are.
   */
  lemma {:induction false} LoadRowsKeepsShape(t: Tables, os: seq<RowOutcome>, genreData: GenreIndexMap)
    requires t.Valid()
    requires forall i :: 0 <= i < |os| ==> WellFormedOutcome(os[i])
    requires NonEmptyBuckets(t.artistMusic) && CleanArtistNames(t.artistMusic)
    requires forall k :: k in genreData ==> genreData[k] != []
    requires NonEmptyBuckets(t.musicFeatures)
    ensures var t' := LoadRows(t, os, genreData).0;
      NonEmptyBuckets(t'.artistMusic) && CleanArtistNames(t'.artistMusic) && NonEmptyBuckets(t'.musicFeatures)
    decreases |os|
  {
    if os != [] && !os[0].Abort? {
      var o := os[0];
      var t1 := ApplyRow(t, o, genreData);
      if o.Parsed? {
        forall a | a in t1.artistMusic.entries
          ensures t1.artistMusic.entries[a] != [] && IsStrippedOf(a, Whitespace)
        {
          RegisterArtistsBucket(t.artistMusic, o.artists, o.track, a);
        }
      }
      assert forall i :: 0 <= i < |os[1..]| ==> os[1..][i] == os[i + 1];
      LoadRowsKeepsShape(t1, os[1..], genreData);
    }
  }

  /** Every row of a music file has a well-formed outcome. */
  lemma RowOutcomesWellFormed(lines: seq<string>, cols: map<string, nat>, parseFloat: FloatParser, parseInt: IntParser)
    requires MusicColumnsKnown(cols)
    ensures forall i :: 0 <= i < |lines| ==> WellFormedOutcome(RowOutcomes(lines, cols, parseFloat, parseInt)[i])
  {
  }

  /** Every bucket of a genre index that was built is non-empty. */
  lemma GenreIndexNonEmpty(lines: seq<string>, cols: map<string, nat>, parseFloat: FloatParser)
    requires GenreColumnsKnown(cols)
    ensures forall k :: k in GenreIndex(lines, cols, parseFloat) ==> GenreIndex(lines, cols, parseFloat)[k] != []
  {
    forall k | k in GenreIndex(lines, cols, parseFloat)
      ensures GenreIndex(lines, cols, parseFloat)[k] != []
    {
      GenreIndexBuckets(lines, cols, parseFloat, k);
    }
  }

  /** A genre row's key and record extend the records and keys of the rows before it. */
  lemma GenreStep(lines: seq<string>, cols: map<string, nat>, parseFloat: FloatParser, i: nat, k: string)
    requires GenreColumnsKnown(cols) && i < |lines| && GenreRowFits(GenreCells(lines[i]), cols)
    ensures var v := GenreCells(lines[i]);
      && RecordsFor(lines, cols, parseFloat, k, i + 1)
         == RecordsFor(lines, cols, parseFloat, k, i) + (if GenreKey(v, cols) == k then [GenreRow(v, cols, parseFloat)] else [])
      && (k in KeysUpTo(lines, cols, i + 1) <==> k in KeysUpTo(lines, cols, i) || k == GenreKey(v, cols))
  {
  }

  /** `g` holds, for each key of the fitting rows among the first `n`, the records of those rows. */
  ghost predicate IndexesRows(g: GenreIndexMap, lines: seq<string>, cols: map<string, nat>, parseFloat: FloatParser, n: nat)
    requires GenreColumnsKnown(cols) && n <= |lines|
  {
    && (forall k :: k in g <==> k in KeysUpTo(lines, cols, n))
    && (forall k :: k in g ==> g[k] == RecordsFor(lines, cols, parseFloat, k, n))
  }

  /** Adding the record of row `i` under its key to the index of the rows before it gives the index of the rows up to `i`. */
  lemma GenreInsertStep(lines: seq<string>, cols: map<string, nat>, parseFloat: FloatParser, i: nat,
                        g: GenreIndexMap, key: string, record: GenreRecord, g': GenreIndexMap)
    requires GenreColumnsKnown(cols) && i < |lines| && GenreRowFits(GenreCells(lines[i]), cols)
    requires IndexesRows(g, lines, cols, parseFloat, i)
    requires key == GenreKey(GenreCells(lines[i]), cols) && record == GenreRow(GenreCells(lines[i]), cols, parseFloat)
    requires g' == if key in g then g[key := g[key] + [record]] else g[key := [record]]
    ensures IndexesRows(g', lines, cols, parseFloat, i + 1)
  {
    KeysUpToRecords(lines, cols, parseFloat, key, i);
    forall k
      ensures k in g' <==> k in KeysUpTo(lines, cols, i + 1)
      ensures k in g' ==> g'[k] == RecordsFor(lines, cols, parseFloat, k, i + 1)
    {
      GenreStep(lines, cols, parseFloat, i, k);
    }
  }

  /** One more fitting row extends a prefix of fitting rows. */
  lemma GenreRowsFitStep(lines: seq<string>, cols: map<string, nat>, i: nat)
    requires GenreColumnsKnown(cols) && i < |lines| && GenreRowFits(GenreCells(lines[i]), cols)
    requires forall j :: 0 <= j < i ==> GenreRowFits(GenreCells(lines[j]), cols)
    ensures forall j :: 0 <= j < i + 1 ==> GenreRowFits(GenreCells(lines[j]), cols)
  {
  }

  /** An index of all the rows is the genre index. */
  lemma IndexesAllRows(g: GenreIndexMap, lines: seq<string>, cols: map<string, nat>, parseFloat: FloatParser)
    requires GenreColumnsKnown(cols) && IndexesRows(g, lines, cols, parseFloat, |lines|)
    ensures g == GenreIndex(lines, cols, parseFloat)
  {
  }

  // ---------------------------------------------------------------- the processor

  class MusicDataProcessor {
    var artistMusic: Dict
    var musicFeatures: Dict

    ghost predicate Valid()
      reads this
    {
      artistMusic.Valid() && musicFeatures.Valid()
    }

    function State(): Tables
      reads this
    {
      Tables(artistMusic, musicFeatures)
    }

    /** Both dictionaries start empty. */
    constructor()
      ensures Valid()
      ensures artistMusic == EmptyDict && musicFeatures == EmptyDict
    {
      artistMusic := EmptyDict;
      musicFeatures := EmptyDict;
    }

    /** `load_genre_data`: raises on the first short row, otherwise returns the genre index. */
    method LoadGenreData(lines: seq<string>, cols: map<string, nat>, parseFloat: FloatParser) returns (r: Result<GenreIndexMap, LoadError>)
      requires GenreColumnsKnown(cols)
      ensures r.Failure? <==> GenreLoadFails(lines, cols)
      ensures r.Failure? ==>
        && r.error.row < |lines| && !GenreRowFits(GenreCells(lines[r.error.row]), cols)
        && forall i :: 0 <= i < r.error.row ==> GenreRowFits(GenreCells(lines[i]), cols)
      ensures r.Success? ==> r.value == GenreIndex(lines, cols, parseFloat)
    {
      var genreData: GenreIndexMap := map[];
      for i := 0 to |lines|
        invariant forall j :: 0 <= j < i ==> GenreRowFits(GenreCells(lines[j]), cols)
        invariant IndexesRows(genreData, lines, cols, parseFloat, i)
      {
        var values := GenreCells(lines[i]);
        if !GenreRowFits(values, cols) {
          return Failure(RowTooShort(i));
        }
        var trackKey := Strip(values[cols["key"]]);
        var genreName := if "genres" in cols then Strip(values[cols["genres"]]) else "Unknown";
        var features := GenreFeatures(values, cols, parseFloat);
        var record := GenreRecord(genreName, features);
        GenreRowsFitStep(lines, cols, i);
        var before := genreData;
        if trackKey in genreData {
          genreData := genreData[trackKey := genreData[trackKey] + [record]];
        } else {
          genreData := genreData[trackKey := [record]];
        }
        GenreInsertStep(lines, cols, parseFloat, i, before, trackKey, record, genreData);
      }
      r := Success(genreData);
      IndexesAllRows(genreData, lines, cols, parseFloat);
    }

    /** The artist loop of a parsed row: the track is appended to the bucket of each artist of the cell. */
    method RegisterTrack(rawArtists: string, track: Entry)
      requires Valid()
      modifies this
      ensures Valid()
      ensures artistMusic == RegisterArtists(old(artistMusic), ArtistNames(rawArtists), track)
      ensures musicFeatures == old(musicFeatures)
    {
      var artists := ArtistPieces(rawArtists);
      ghost var start := artistMusic;
      for j := 0 to |artists|
        invariant artistMusic == RegisterArtists(start, NormalizeAll(artists[..j]), track)
        invariant musicFeatures == old(musicFeatures)
      {
        var normalizedArtist := NormalizeArtist(artists[j]);
        RegisterNextArtist(start, artists, track, j);
        artistMusic := artistMusic.Append(normalizedArtist, track);
      }
      assert artists[..|artists|] == artists;
    }

    /** The genre join of a parsed row: `music_features[id]` is reset and filled with copies of the genre records. */
    method StoreGenres(trackId: string, genreEntries: seq<GenreRecord>)
      requires Valid()
      modifies this
      ensures Valid()
      ensures musicFeatures == old(musicFeatures).Put(trackId, GenreEntries(genreEntries))
      ensures artistMusic == old(artistMusic)
    {
      musicFeatures := musicFeatures.Put(trackId, []);
      for j := 0 to |genreEntries|
        invariant Valid()
        invariant musicFeatures == old(musicFeatures).Put(trackId, GenreEntries(genreEntries[..j]))
        invariant artistMusic == old(artistMusic)
      {
        assert genreEntries[..j + 1][..j] == genreEntries[..j];
        PutThenAppend(old(musicFeatures), trackId, GenreEntries(genreEntries[..j]), Genre(genreEntries[j].genreName, genreEntries[j].features));
        musicFeatures := musicFeatures.Append(trackId, Genre(genreEntries[j].genreName, genreEntries[j].features));
      }
      assert genreEntries[..|genreEntries|] == genreEntries;
    }

    /** One data line of the music file; `ok` is false when it raises `IndexError`. */
    method LoadMusicRow(line: string, cols: map<string, nat>, genreData: GenreIndexMap,
                        parseFloat: FloatParser, parseInt: IntParser) returns (ok: bool)
      requires Valid() && MusicColumnsKnown(cols)
      modifies this
      ensures Valid()
      ensures ok <==> !ParseMusicRow(Fields(line), cols, parseFloat, parseInt).Abort?
      ensures State() == ApplyRow(old(State()), ParseMusicRow(Fields(line), cols, parseFloat, parseInt), genreData)
    {
      var values := SplitLine(line);
      ghost var outcome := ParseMusicRow(values, cols, parseFloat, parseInt);
      if cols["artists"] >= |values| || cols["name"] >= |values| || cols["id"] >= |values| || cols["key"] >= |values| {
        assert outcome.Abort?;
        return false;
      }
      var rawArtists := values[cols["artists"]];
      var trackName := values[cols["name"]];
      var trackId := values[cols["id"]];
      var trackKey := Strip(values[cols["key"]]);
      var parsed := ParseFeaturesFrom(MusicFeatureNames, values, cols, parseFloat, parseInt, 0);
      if parsed.MissingCell? {
        assert outcome.Abort?;
        return false;
      }
      if parsed.Values? {
        var track := Track(trackName, trackId, parsed.fv);
        assert outcome == Parsed(ArtistNames(rawArtists), track, trackKey);
        RegisterTrack(rawArtists, track);
        if trackKey != "" && trackKey in genreData {
          StoreGenres(trackId, genreData[trackKey]);
        }
      } else {
        assert outcome == Skip;
      }
      return true;
    }

    /** `load_music_data`: every data line in order, until one raises `IndexError` (then `ok` is false). */
    method LoadMusicData(lines: seq<string>, cols: map<string, nat>, genreData: GenreIndexMap,
                         parseFloat: FloatParser, parseInt: IntParser) returns (ok: bool)
      requires Valid() && MusicColumnsKnown(cols)
      modifies this
      ensures Valid()
      ensures (State(), ok) == LoadRows(old(State()), RowOutcomes(lines, cols, parseFloat, parseInt), genreData)
    {
      ghost var os := RowOutcomes(lines, cols, parseFloat, parseInt);
      for i := 0 to |lines|
        invariant Valid()
        invariant LoadRows(State(), os[i..], genreData) == LoadRows(old(State()), os, genreData)
      {
        assert os[i..][0] == os[i] && os[i..][1..] == os[i + 1..];
        ok := LoadMusicRow(lines[i], cols, genreData, parseFloat, parseInt);
        if !ok {
          return false;
        }
      }
      return true;
    }

    /**
     * `load_data`: builds the genre index, then loads the music file against it. When the genre
     * file raises, the music file is never read and nothing changes.
     */
    method LoadData(genreLines: seq<string>, genreCols: map<string, nat>, musicLines: seq<string>, musicCols: map<string, nat>,
                    parseFloat: FloatParser, parseInt: IntParser) returns (ok: bool)
      requires Valid() && GenreColumnsKnown(genreCols) && MusicColumnsKnown(musicCols)
      modifies this
      ensures Valid()
      ensures GenreLoadFails(genreLines, genreCols) ==> !ok && State() == old(State())
      ensures !GenreLoadFails(genreLines, genreCols) ==>
        (State(), ok) == LoadRows(old(State()), RowOutcomes(musicLines, musicCols, parseFloat, parseInt), GenreIndex(genreLines, genreCols, parseFloat))
    {
      var genreData := LoadGenreData(genreLines, genreCols, parseFloat);
      if genreData.Failure? {
        return false;
      }
      ok := LoadMusicData(musicLines, musicCols, genreData.value, parseFloat, parseInt);
    }

    /** `get_music_features`: the track-id index, in insertion order. */
    function GetMusicFeatures(): (items: Index)
      reads this
      requires Valid()
      ensures forall id :: Lookup(items, id) == if id in musicFeatures.entries then Some(musicFeatures.entries[id]) else None
    {
      musicFeatures.Items()
    }

    /** `get_artist_music`: the artist index, in insertion order. */
    function GetArtistMusic(): (items: Index)
      reads this
      requires Valid()
      ensures forall a :: Lookup(items, a) == if a in artistMusic.entries then Some(artistMusic.entries[a]) else None
    {
      artistMusic.Items()
    }
  }
}
