/**
 * The quote-aware line splitter of the music loader and the parser of its `artists` cell.
 *
 * The splitter walks the line once with an `inQuotes` flag: a `"` only toggles the flag and is never
 * kept, a `,` seen outside quotes ends the current field, every other character is kept, and each
 * field is whitespace-stripped. `RawFields` is an independent description of the same result: the
 * line is cut at every comma preceded by an even number of quotes and the quotes are dropped from
 * each piece.
 */
module CsvLine {
  import opened Text

  /** The quote state after reading `s[lo..hi]` starting outside quotes: every `"` toggles it. */
  function InQuotes(s: string, lo: nat, hi: nat): bool
    requires lo <= hi <= |s|
    decreases hi
  {
    if hi == lo then false else InQuotes(s, lo, hi - 1) != (s[hi - 1] == '"')
  }

  /** `s[lo..hi]` without its `"` characters. */
  function DropQuotes(s: string, lo: nat, hi: nat): string
    requires lo <= hi <= |s|
    decreases hi
  {
    if hi == lo then []
    else if s[hi - 1] == '"' then DropQuotes(s, lo, hi - 1)
    else DropQuotes(s, lo, hi - 1) + [s[hi - 1]]
  }

  lemma {:induction false} DropQuotesQuoteFree(s: string, lo: nat, hi: nat)
    requires lo <= hi <= |s|
    ensures '"' !in DropQuotes(s, lo, hi)
    decreases hi
  {
    if hi > lo {
      DropQuotesQuoteFree(s, lo, hi - 1);
    }
  }

  /** Position `k` ends the field that starts at `lo`: a comma read outside quotes. */
  predicate IsSeparator(s: string, lo: nat, k: nat)
    requires lo <= k < |s|
  {
    s[k] == ',' && !InQuotes(s, lo, k)
  }

  /** The first separator of the field starting at `lo`, searched from `i`, or `|s|` when there is none. */
  function NextSeparator(s: string, lo: nat, i: nat): (j: nat)
    requires lo <= i <= |s|
    ensures i <= j <= |s|
    ensures j < |s| ==> IsSeparator(s, lo, j)
    ensures forall k :: i <= k < j ==> !IsSeparator(s, lo, k)
    decreases |s| - i
  {
    if i == |s| then |s| else if IsSeparator(s, lo, i) then i else NextSeparator(s, lo, i + 1)
  }

  /** The unstripped fields of `s[lo..]`, for a field starting at `lo`. */
  function FieldsFrom(s: string, lo: nat): (r: seq<string>)
    requires lo <= |s|
    ensures |r| >= 1
    decreases |s| - lo
  {
    var j := NextSeparator(s, lo, lo);
    if j == |s| then [DropQuotes(s, lo, |s|)] else [DropQuotes(s, lo, j)] + FieldsFrom(s, j + 1)
  }

  /** The fields of a line before stripping: the pieces between commas outside quotes, quotes dropped. */
  function RawFields(line: string): seq<string>
  {
    FieldsFrom(line, 0)
  }

  function StripAll(fs: seq<string>): (r: seq<string>)
    ensures |r| == |fs|
    ensures forall i :: 0 <= i < |fs| ==> r[i] == Strip(fs[i])
  {
    if fs == [] then [] else StripAll(fs[..|fs| - 1]) + [Strip(fs[|fs| - 1])]
  }

  /** The fields the splitter returns for `line`. */
  function Fields(line: string): seq<string>
  {
    StripAll(RawFields(line))
  }

  /** Number of commas in `s[lo..hi]` read outside quotes, starting outside quotes at `lo`. */
  function SeparatorCount(s: string, lo: nat, hi: nat): nat
    requires lo <= hi <= |s|
    decreases hi
  {
    if hi == lo then 0 else SeparatorCount(s, lo, hi - 1) + (if IsSeparator(s, lo, hi - 1) then 1 else 0)
  }

  /** Number of commas of `line` that occur outside quotes. */
  function UnquotedCommas(line: string): nat
  {
    SeparatorCount(line, 0, |line|)
  }

  lemma {:induction false} InQuotesSplit(s: string, a: nat, b: nat, c: nat)
    requires a <= b <= c <= |s|
    ensures InQuotes(s, a, c) == (InQuotes(s, a, b) != InQuotes(s, b, c))
    decreases c
  {
    if c > b {
      InQuotesSplit(s, a, b, c - 1);
    }
  }

  lemma {:induction false} DropQuotesSplit(s: string, a: nat, b: nat, c: nat)
    requires a <= b <= c <= |s|
    ensures DropQuotes(s, a, c) == DropQuotes(s, a, b) + DropQuotes(s, b, c)
    decreases c
  {
    if c > b {
      DropQuotesSplit(s, a, b, c - 1);
    }
  }

  /** Without quotes in `s[lo..hi]` nothing is dropped. */
  lemma {:induction false} DropQuotesOfQuoteFree(s: string, lo: nat, hi: nat)
    requires lo <= hi <= |s|
    requires forall k :: lo <= k < hi ==> s[k] != '"'
    ensures DropQuotes(s, lo, hi) == s[lo..hi]
    decreases hi
  {
    if hi > lo {
      DropQuotesOfQuoteFree(s, lo, hi - 1);
      assert s[lo..hi] == s[lo..hi - 1] + [s[hi - 1]];
    }
  }

  /** After a stretch that leaves the quote state closed, separators are counted as if a field began there. */
  lemma {:induction false} SeparatorCountSplit(s: string, lo: nat, m: nat, hi: nat)
    requires lo <= m <= hi <= |s| && !InQuotes(s, lo, m)
    ensures SeparatorCount(s, lo, hi) == SeparatorCount(s, lo, m) + SeparatorCount(s, m, hi)
    decreases hi
  {
    if hi > m {
      SeparatorCountSplit(s, lo, m, hi - 1);
      InQuotesSplit(s, lo, m, hi - 1);
    }
  }

  lemma {:induction false} NoSeparatorsBefore(s: string, lo: nat, m: nat)
    requires lo <= |s| && lo <= m <= NextSeparator(s, lo, lo)
    ensures SeparatorCount(s, lo, m) == 0
    decreases m
  {
    if m > lo {
      NoSeparatorsBefore(s, lo, m - 1);
    }
  }

  /** The first separator of a field is the one with no separator before it. */
  lemma NextSeparatorIs(s: string, lo: nat, i: nat)
    requires lo <= i < |s| && IsSeparator(s, lo, i)
    requires forall k :: lo <= k < i ==> !IsSeparator(s, lo, k)
    ensures NextSeparator(s, lo, lo) == i
  {
    var j := NextSeparator(s, lo, lo);
    ghost var separatorAtJ := j < |s| && IsSeparator(s, lo, j);
  }

  /** Reading a character that does not end the field: a quote toggles the state and is dropped, anything else is kept. */
  lemma KeepStep(s: string, lo: nat, i: nat)
    requires lo <= i < |s| && i <= NextSeparator(s, lo, lo) && !IsSeparator(s, lo, i)
    ensures i + 1 <= NextSeparator(s, lo, lo)
    ensures InQuotes(s, lo, i + 1) == (InQuotes(s, lo, i) != (s[i] == '"'))
    ensures DropQuotes(s, lo, i + 1) == DropQuotes(s, lo, i) + (if s[i] == '"' then [] else [s[i]])
  {
  }

  /** Reading the separator of the field: the field is complete and the next one starts empty, outside quotes. */
  lemma CutStep(s: string, raws: seq<string>, lo: nat, i: nat)
    requires lo <= i < |s| && i <= NextSeparator(s, lo, lo) && IsSeparator(s, lo, i)
    requires RawFields(s) == raws + FieldsFrom(s, lo)
    ensures RawFields(s) == (raws + [DropQuotes(s, lo, i)]) + FieldsFrom(s, i + 1)
    ensures i + 1 <= NextSeparator(s, i + 1, i + 1)
    ensures DropQuotes(s, i + 1, i + 1) == [] && !InQuotes(s, i + 1, i + 1)
  {
    FieldsFromAtSeparator(s, lo, i);
    assert raws + FieldsFrom(s, lo) == (raws + [DropQuotes(s, lo, i)]) + FieldsFrom(s, i + 1);
  }

  /** A position that is not a separator does not end the field. */
  lemma NextSeparatorBeyond(s: string, lo: nat, i: nat)
    requires lo <= i < |s| && i <= NextSeparator(s, lo, lo) && !IsSeparator(s, lo, i)
    ensures i + 1 <= NextSeparator(s, lo, lo)
  {
  }

  /** A separator closes the current field; the rest of the line holds the remaining fields. */
  lemma FieldsFromAtSeparator(s: string, lo: nat, i: nat)
    requires lo <= i < |s| && NextSeparator(s, lo, lo) == i
    ensures FieldsFrom(s, lo) == [DropQuotes(s, lo, i)] + FieldsFrom(s, i + 1)
  {
  }

  /** Without a separator the field runs to the end of the line and is the last one. */
  lemma FieldsFromLast(s: string, lo: nat)
    requires lo <= |s| && NextSeparator(s, lo, lo) == |s|
    ensures FieldsFrom(s, lo) == [DropQuotes(s, lo, |s|)]
  {
  }

  lemma {:induction false} FieldsFromCount(s: string, lo: nat)
    requires lo <= |s|
    ensures |FieldsFrom(s, lo)| == SeparatorCount(s, lo, |s|) + 1
    decreases |s| - lo
  {
    var j := NextSeparator(s, lo, lo);
    NoSeparatorsBefore(s, lo, j);
    if j < |s| {
      FieldsFromCount(s, j + 1);
      assert SeparatorCount(s, lo, j + 1) == 1;
      SeparatorCountSplit(s, lo, j + 1, |s|);
    }
  }

  /** The splitter yields one field more than there are commas outside quotes. */
  lemma FieldCount(line: string)
    ensures |Fields(line)| == UnquotedCommas(line) + 1
  {
    FieldsFromCount(line, 0);
  }

  lemma {:induction false} JoinFieldsFrom(s: string, lo: nat)
    requires lo <= |s|
    ensures Join(FieldsFrom(s, lo), ",") == DropQuotes(s, lo, |s|)
    decreases |s| - lo
  {
    var j := NextSeparator(s, lo, lo);
    if j < |s| {
      JoinFieldsFrom(s, j + 1);
      DropQuotesSplit(s, lo, j, |s|);
      DropQuotesSplit(s, j, j + 1, |s|);
    }
  }

  /** The raw fields, joined back with commas, are the line without its quotes: nothing else is lost. */
  lemma JoinRawFields(line: string)
    ensures Join(RawFields(line), ",") == DropQuotes(line, 0, |line|)
  {
    JoinFieldsFrom(line, 0);
  }

  /**
   * A comma read inside quotes does not end the field that contains it: that field runs past the
   * comma and keeps it.
   */
  lemma QuotedCommaKept(s: string, lo: nat, k: nat)
    requires lo <= k < |s| && s[k] == ',' && InQuotes(s, lo, k)
    requires k <= NextSeparator(s, lo, lo)
    ensures k < NextSeparator(s, lo, lo)
    ensures ',' in FieldsFrom(s, lo)[0]
  {
    var j := NextSeparator(s, lo, lo);
    assert !IsSeparator(s, lo, k);
    assert k < j;
    var field := DropQuotes(s, lo, j);
    assert FieldsFrom(s, lo)[0] == field;
    DropQuotesSplit(s, lo, k, j);
    DropQuotesSplit(s, k, k + 1, j);
    assert DropQuotes(s, k, k + 1) == [','];
    assert field == DropQuotes(s, lo, k) + [','] + DropQuotes(s, k + 1, j);
    assert field[|DropQuotes(s, lo, k)|] == ',';
  }

  lemma {:induction false} InQuotesAfterOpenQuote(s: string, lo: nat, q: nat, k: nat)
    requires lo <= q < k <= |s| && s[q] == '"' && !InQuotes(s, lo, q)
    requires forall x :: q < x < |s| ==> s[x] != '"'
    ensures InQuotes(s, lo, k)
    decreases k
  {
    if k > q + 1 {
      InQuotesAfterOpenQuote(s, lo, q, k - 1);
    }
  }

  /**
   * A quote that opens and is never closed does not raise: the field it is in becomes the last one
   * and takes the rest of the line, commas included.
   */
  lemma UnterminatedQuote(s: string, lo: nat, q: nat)
    requires lo <= q < |s| && s[q] == '"' && !InQuotes(s, lo, q)
    requires q <= NextSeparator(s, lo, lo)
    requires forall x :: q < x < |s| ==> s[x] != '"'
    ensures FieldsFrom(s, lo) == [DropQuotes(s, lo, q) + s[q + 1..]]
  {
    forall k | lo <= k < |s| ensures !IsSeparator(s, lo, k) {
      if k > q {
        InQuotesAfterOpenQuote(s, lo, q, k);
      }
    }
    var j := NextSeparator(s, lo, lo);
    assert j == |s|;
    assert FieldsFrom(s, lo) == [DropQuotes(s, lo, |s|)];
    DropQuotesSplit(s, lo, q, |s|);
    DropQuotesSplit(s, q, q + 1, |s|);
    assert DropQuotes(s, q, q + 1) == [];
    DropQuotesOfQuoteFree(s, q + 1, |s|);
    assert DropQuotes(s, q, |s|) == s[q + 1..];
  }

  lemma {:induction false} RawFieldQuoteFree(s: string, lo: nat, i: nat)
    requires lo <= |s| && i < |FieldsFrom(s, lo)|
    ensures '"' !in FieldsFrom(s, lo)[i]
    decreases |s| - lo
  {
    var j := NextSeparator(s, lo, lo);
    if j < |s| && i > 0 {
      RawFieldQuoteFree(s, j + 1, i - 1);
    } else {
      DropQuotesQuoteFree(s, lo, j);
    }
  }

  /** No field produced by the splitter contains a quote, and every field is whitespace-stripped. */
  lemma FieldsClean(line: string)
    ensures forall f :: f in Fields(line) ==> '"' !in f && IsStrippedOf(f, Whitespace)
  {
    var raws := RawFields(line);
    forall f | f in Fields(line) ensures '"' !in f && IsStrippedOf(f, Whitespace) {
      var i :| 0 <= i < |raws| && Fields(line)[i] == f;
      RawFieldQuoteFree(line, 0, i);
      StripCharsSpec(raws[i], Whitespace);
    }
  }

  /**
   * The character loop of the music loader. `values` collects the stripped fields and `current` the
   * field being read; the ghost `start` marks where that field began and `raws` holds the unstripped
   * fields already closed.
   */
  method SplitLine(line: string) returns (values: seq<string>)
    ensures values == Fields(line)
    ensures |values| == UnquotedCommas(line) + 1
    ensures forall f :: f in values ==> '"' !in f && IsStrippedOf(f, Whitespace)
  {
    values := [];
    var current: string := "";
    var inQuotes := false;
    ghost var start := 0;
    ghost var raws: seq<string> := [];
    for i := 0 to |line|
      invariant start <= i
      invariant values == StripAll(raws)
      invariant RawFields(line) == raws + FieldsFrom(line, start)
      invariant current == DropQuotes(line, start, i)
      invariant inQuotes == InQuotes(line, start, i)
      invariant i <= NextSeparator(line, start, start)
    {
      var c := line[i];
      if c == ',' && !inQuotes {
        CutStep(line, raws, start, i);
      } else {
        KeepStep(line, start, i);
      }
      if c == '"' && !inQuotes {
        inQuotes := true;
      } else if c == '"' && inQuotes {
        inQuotes := false;
      } else if c == ',' && !inQuotes {
        raws := raws + [current];
        values := values + [Strip(current)];
        current := "";
        start := i + 1;
      } else {
        current := current + [c];
      }
    }
    FieldsFromLast(line, start);
    raws := raws + [current];
    values := values + [Strip(current)];
    FieldCount(line);
    FieldsClean(line);
  }

  lemma ExampleFieldsStripped()
    ensures Strip("a") == "a" && Strip("b,c") == "b,c" && Strip("d") == "d"
  {
    StripCharsOfStripped("a", Whitespace);
    StripCharsOfStripped("b,c", Whitespace);
    StripCharsOfStripped("d", Whitespace);
  }

  lemma QuotedCommaRaw()
    ensures RawFields("a,\"b,c\",d") == ["a", "b,c", "d"]
  {
    var s := "a,\"b,c\",d";
    assert NextSeparator(s, 8, 8) == 9;
    assert DropQuotes(s, 8, 9) == "d";
    FieldsFromLast(s, 8);
    assert NextSeparator(s, 2, 2) == 7;
    assert DropQuotes(s, 2, 7) == "b,c";
    FieldsFromAtSeparator(s, 2, 7);
    assert NextSeparator(s, 0, 0) == 1;
    assert DropQuotes(s, 0, 1) == "a";
    FieldsFromAtSeparator(s, 0, 1);
  }

  /** A quoted comma stays inside its field and the quotes are dropped. */
  lemma QuotedCommaExample()
    ensures Fields("a,\"b,c\",d") == ["a", "b,c", "d"]
  {
    QuotedCommaRaw();
    ExampleFieldsStripped();
  }

  lemma OpenQuoteRaw()
    ensures RawFields("a,\"b,c") == ["a", "b,c"]
  {
    var t := "a,\"b,c";
    assert NextSeparator(t, 2, 2) == 6;
    assert DropQuotes(t, 2, 6) == "b,c";
    FieldsFromLast(t, 2);
    assert NextSeparator(t, 0, 0) == 1;
    assert DropQuotes(t, 0, 1) == "a";
    FieldsFromAtSeparator(t, 0, 1);
  }

  /** A quote that is never closed swallows every later comma into the last field. */
  lemma OpenQuoteExample()
    ensures Fields("a,\"b,c") == ["a", "b,c"]
  {
    OpenQuoteRaw();
    ExampleFieldsStripped();
  }

  /** The artists cell with its brackets and stray double quotes stripped, split on `', '`. */
  function ArtistPieces(cell: string): (pieces: seq<string>)
    ensures |pieces| >= 1
  {
    SplitOn(StripChars(cell, {'[', ']', '"'}), "', '")
  }

  /**
   * The pieces of the artists cell, joined again with `', '`, give back the stripped cell, and no
   * piece still contains `', '`.
   */
  lemma ArtistPiecesJoin(cell: string)
    ensures Join(ArtistPieces(cell), "', '") == StripChars(cell, {'[', ']', '"'})
    ensures forall p, k :: p in ArtistPieces(cell) && 0 <= k < |p| ==> !OccursAt(p, "', '", k)
  {
    var stripped := StripChars(cell, {'[', ']', '"'});
    JoinSplitOn(stripped, "', '");
    SplitOnPiecesFree(stripped, "', '");
  }

  const QuoteOrSpace: set<char> := {'\'', '"', ' '}

  /** One artist name: quotes and spaces stripped from both ends, then whitespace. */
  function NormalizeArtist(piece: string): (name: string)
    ensures IsStrippedOf(name, Whitespace)
  {
    var inner := StripChars(piece, QuoteOrSpace);
    StripCharsSpec(inner, Whitespace);
    Strip(inner)
  }

  /** The artist names of a row, one per piece of the cell, in order, each free of surrounding whitespace. */
  function ArtistNames(cell: string): (names: seq<string>)
    ensures |names| == |ArtistPieces(cell)| >= 1
    ensures forall i :: 0 <= i < |names| ==> names[i] == NormalizeArtist(ArtistPieces(cell)[i])
    ensures forall name :: name in names ==> IsStrippedOf(name, Whitespace)
  {
    NormalizeAll(ArtistPieces(cell))
  }

  /** Each piece normalized, in order. */
  function NormalizeAll(pieces: seq<string>): (names: seq<string>)
    ensures |names| == |pieces|
    ensures forall i :: 0 <= i < |pieces| ==> names[i] == NormalizeArtist(pieces[i])
    ensures forall name :: name in names ==> IsStrippedOf(name, Whitespace)
    decreases |pieces|
  {
    if pieces == [] then []
    else NormalizeAll(pieces[..|pieces| - 1]) + [NormalizeArtist(pieces[|pieces| - 1])]
  }

  /**
   * A piece whose only whitespace is the plain space yields a name with no quote, double quote or
   * space at either end.
   */
  lemma NormalizedArtistClean(piece: string)
    requires forall c :: c in piece && c in Whitespace ==> c == ' '
    ensures IsStrippedOf(NormalizeArtist(piece), QuoteOrSpace)
  {
    var inner := StripChars(piece, QuoteOrSpace);
    StripCharsSpec(piece, QuoteOrSpace);
    assert IsStrippedOf(inner, Whitespace) by {
      if inner != [] {
        assert inner[0] in inner && inner[|inner| - 1] in inner;
      }
    }
    StripCharsOfStripped(inner, Whitespace);
  }

  /** A tab in front of a quote shields it from the first strip, so the quote survives. */
  lemma TabShieldsQuote()
    ensures NormalizeArtist("\t'x") == "'x"
  {
    assert StripChars("\t'x", QuoteOrSpace) == "\t'x";
    assert StripStart("\t'x", Whitespace) == 1;
  }
}
