/**
 * The evaluator: it flags the rated comments (English, too short, too long, ignored), blanks the
 * ignored rows' aggregated cells, matches synonyms between comments of one file, and builds the
 * project tree whose directory and file nodes carry the aggregated values of the comments under them.
 *
 * The pandas table is a sequence of `Row`s; an absent cell (NaN) is `None`.
 */
module CommentEvaluator {
  import opened Wrappers
  import opened Text
  import opened Seqs
  import opened CommentObject

  /** One synonym match: `word` of one comment occurs among the candidates of `synonym` in a comment of the same file. */
  datatype Match = Match(word: string, synonym: string, posWord: string, posSynonym: string)

  /**
   * A table row: the found-comments columns the evaluator reads, the `count`/`count_missing` columns
   * the constructor adds, and the columns `evaluate` computes.
   */
  datatype Row = Row(
    commentType: string, path: string, position: string,
    text: Option<string>, codeLanguage: Option<string>, handle: Option<string>,
    commentLabel: Option<string>, labelProba: Option<real>,
    language: Option<string>, languageProba: Option<real>,
    nWords: Option<int>, coherence: Option<real>, isCode: Option<int>,
    synonyms: seq<SynonymEntry>, abbreviations: Option<string>,
    fkgls: Option<real>, frel: Option<real>, fi: Option<real>,
    nExclamation: Option<int>, nQuestion: Option<int>, nAbbreviations: Option<int>,
    count: Option<int>, countMissing: int,
    isEnglish: int, isTooShort: int, isTooLong: int, isTrivial: int, isUnrelated: int,
    ignore: bool, matchedSynonyms: seq<Match>, nMatchedSynonyms: int)

  // ---------------------------------------------------------------------------------------------
  // Row predicates. A comparison with an absent cell is false, `!=` with one is true, and an
  // absent cell is truthy, as with NaN in Python.
  // ---------------------------------------------------------------------------------------------

  predicate Below(x: Option<real>, bound: real) { x.Some? && x.value < bound }

  predicate IntBelow(x: Option<int>, bound: int) { x.Some? && x.value < bound }

  predicate IntAbove(x: Option<int>, bound: int) { x.Some? && x.value > bound }

  /** Python truthiness of a float cell: NaN is truthy, only 0.0 is falsy. */
  predicate Truthy(x: Option<real>) { x.None? || x.value != 0.0 }

  function IsEnglish(r: Row): int
  {
    if r.language != Some("en") || Below(r.languageProba, 0.75) then 0 else 1
  }

  function IsTooShort(r: Row): int
  {
    if IntBelow(r.nWords, 3) then 1 else 0
  }

  function IsTooLong(r: Row): int
  {
    if r.commentType == "in-line" && IntAbove(r.nWords, 30) then 1 else 0
  }

  function IsTrivial(r: Row): int
  {
    if Truthy(r.coherence) && r.coherence.Some? && r.coherence.value > 0.5 then 1 else 0
  }

  /** `is_unrelated` as written: a coherence of 0.0 is falsy, so the first half of its test rules out the second. */
  function IsUnrelated(r: Row): int
  {
    if Truthy(r.coherence) && r.coherence == Some(0.0) then 1 else 0
  }

  /** `is_unrelated` as its documentation describes it: the coherence coefficient is exactly 0. */
  function IsUnrelatedIntended(r: Row): int
  {
    if r.coherence == Some(0.0) then 1 else 0
  }

  predicate IsIgnore(r: Row)
  {
    r.commentType == "header" || r.isCode == Some(1) || r.isEnglish == 0 || r.isTooShort == 1 || r.countMissing == 1
  }

  /** A language probability of exactly 0.75 counts as English; only "en" is English. */
  lemma EnglishThreshold(r: Row)
    ensures IsEnglish(r) == 1 <==> r.language == Some("en") && (r.languageProba.None? || r.languageProba.value >= 0.75)
    ensures r.language == Some("en") && r.languageProba == Some(0.75) ==> IsEnglish(r) == 1
  {
  }

  /** A comment is trivial exactly when its coherence coefficient is present and above 0.5. */
  lemma TrivialIff(r: Row)
    ensures IsTrivial(r) == 1 <==> r.coherence.Some? && r.coherence.value > 0.5
  {
  }

  /** The as-written `is_unrelated` never flags a row, not even one whose coherence is exactly 0. */
  lemma UnrelatedNeverFlags(r: Row)
    ensures IsUnrelated(r) == 0
    ensures r.coherence == Some(0.0) ==> IsUnrelatedIntended(r) == 1 && IsUnrelated(r) == 0
  {
  }

  /** The corrected predicate flags exactly the rows whose coherence is 0. */
  lemma UnrelatedIntendedIff(r: Row)
    ensures IsUnrelatedIntended(r) == 1 <==> r.coherence.Some? && r.coherence.value == 0.0
    ensures IsUnrelatedIntended(r) == 0 <==> r.coherence != Some(0.0)
  {
  }

  /**
   * The six columns `evaluate` adds, in its order: `is_trivial` and `is_unrelated` are filled with
   * `is_too_long`, and `ignore` is computed from the columns added before it.
   */
  function FlagRow(r: Row): Row
  {
    var r1 := r.(isEnglish := IsEnglish(r));
    var r2 := r1.(isTooShort := IsTooShort(r1));
    var r3 := r2.(isTooLong := IsTooLong(r2));
    var r4 := r3.(isTrivial := IsTooLong(r3));
    var r5 := r4.(isUnrelated := IsTooLong(r4));
    r5.(ignore := IsIgnore(r5))
  }

  /** What the added columns hold, in terms of the row's own cells. */
  lemma FlagRowColumns(r: Row)
    ensures var f := FlagRow(r);
      && (f.isEnglish == 1 <==> r.language == Some("en") && !Below(r.languageProba, 0.75))
      && (f.isTooShort == 1 <==> r.nWords.Some? && r.nWords.value < 3)
      && (f.isTooLong == 1 <==> r.commentType == "in-line" && r.nWords.Some? && r.nWords.value > 30)
      && f.isTrivial == f.isTooLong && f.isUnrelated == f.isTooLong
      && (f.ignore <==> r.commentType == "header" || r.isCode == Some(1) || r.language != Some("en")
                        || Below(r.languageProba, 0.75) || IntBelow(r.nWords, 3) || r.countMissing == 1)
      && f == r.(isEnglish := f.isEnglish, isTooShort := f.isTooShort, isTooLong := f.isTooLong,
                 isTrivial := f.isTrivial, isUnrelated := f.isUnrelated, ignore := f.ignore)
  {
  }

  /** A row of the missing-comments table is always ignored. */
  lemma MissingRowsIgnored(r: Row)
    requires r.countMissing == 1
    ensures FlagRow(r).ignore
  {
  }

  function Flagged(rows: seq<Row>): (r: seq<Row>)
    ensures |r| == |rows|
  {
    Map(rows, FlagRow)
  }

  // ---------------------------------------------------------------------------------------------
  // Masking of ignored rows.
  // ---------------------------------------------------------------------------------------------

  function MaskMeansRow(r: Row): Row
  {
    if r.ignore then r.(fkgls := None, frel := None, fi := None) else r
  }

  function MaskSumsRow(r: Row): Row
  {
    if r.ignore then r.(nExclamation := None, nAbbreviations := None, nQuestion := None) else r
  }

  function MaskMeans(rows: seq<Row>): (r: seq<Row>)
    ensures |r| == |rows|
  {
    Map(rows, MaskMeansRow)
  }

  function MaskSums(rows: seq<Row>): (r: seq<Row>)
    ensures |r| == |rows|
  {
    Map(rows, MaskSumsRow)
  }

  /**
   * Masking blanks the three mean cells, or the three masked sum cells, of the ignored rows, and
   * changes no other cell and no row that is not ignored.
   */
  lemma MaskingChangesOnlyIgnoredCells(rows: seq<Row>)
    ensures forall i :: 0 <= i < |rows| && !rows[i].ignore ==> MaskMeans(rows)[i] == rows[i] && MaskSums(rows)[i] == rows[i]
    ensures forall i :: 0 <= i < |rows| && rows[i].ignore ==>
      var m := MaskMeans(rows)[i];
      m.fkgls.None? && m.frel.None? && m.fi.None? && m == rows[i].(fkgls := m.fkgls, frel := m.frel, fi := m.fi)
    ensures forall i :: 0 <= i < |rows| && rows[i].ignore ==>
      var m := MaskSums(rows)[i];
      m.nExclamation.None? && m.nAbbreviations.None? && m.nQuestion.None?
      && m == rows[i].(nExclamation := m.nExclamation, nAbbreviations := m.nAbbreviations, nQuestion := m.nQuestion)
  {
  }

  // ---------------------------------------------------------------------------------------------
  // Aggregation.
  // ---------------------------------------------------------------------------------------------

  /** The aggregated columns of `COLUMN_AGG`: the first three are averaged, the others summed. */
  datatype Column =
    | Fkgls | Frel | Fi
    | EnglishSum | CodeSum | TooShortSum | TooLongSum | MatchedSynonymsSum
    | ExclamationSum | QuestionSum | AbbreviationsSum | TrivialSum | UnrelatedSum
    | CountSum | MissingSum
  {
    /** The column's name in the table and in the result. */
    function Name(): string
    {
      match this
      case Fkgls => "fkgls"
      case Frel => "frel"
      case Fi => "fi"
      case EnglishSum => "is_english"
      case CodeSum => "is_code"
      case TooShortSum => "is_too_short"
      case TooLongSum => "is_too_long"
      case MatchedSynonymsSum => "N_matched_synonyms"
      case ExclamationSum => "N_exclamation"
      case QuestionSum => "N_question"
      case AbbreviationsSum => "N_abbreviations"
      case TrivialSum => "is_trivial"
      case UnrelatedSum => "is_unrelated"
      case CountSum => "count"
      case MissingSum => "count_missing"
    }

    predicate IsMean() { this == Fkgls || this == Frel || this == Fi }
  }

  /** `COLUMN_AGG`'s keys, in its order. */
  const AggColumns: seq<Column> :=
    [Fkgls, Frel, Fi, EnglishSum, CodeSum, TooShortSum, TooLongSum, MatchedSynonymsSum,
     ExclamationSum, QuestionSum, AbbreviationsSum, TrivialSum, UnrelatedSum, CountSum, MissingSum]

  /** Every column is aggregated, and the names are those of the table. */
  lemma AggColumnsComplete(c: Column)
    ensures c in AggColumns
    ensures c.IsMean() <==> c.Name() in ["fkgls", "frel", "fi"]
  {
  }

  function IntCell(x: Option<int>): Option<real>
  {
    if x.Some? then Some(x.value as real) else None
  }

  /** The cell of an aggregated column of a row, as a number (None when absent). */
  function ColumnCell(r: Row, c: Column): Option<real>
  {
    match c
    case Fkgls => r.fkgls
    case Frel => r.frel
    case Fi => r.fi
    case EnglishSum => Some(r.isEnglish as real)
    case CodeSum => IntCell(r.isCode)
    case TooShortSum => Some(r.isTooShort as real)
    case TooLongSum => Some(r.isTooLong as real)
    case MatchedSynonymsSum => Some(r.nMatchedSynonyms as real)
    case ExclamationSum => IntCell(r.nExclamation)
    case QuestionSum => IntCell(r.nQuestion)
    case AbbreviationsSum => IntCell(r.nAbbreviations)
    case TrivialSum => Some(r.isTrivial as real)
    case UnrelatedSum => Some(r.isUnrelated as real)
    case CountSum => IntCell(r.count)
    case MissingSum => Some(r.countMissing as real)
  }

  /** The value a present cell adds to a sum, 0 for an absent one. */
  function CellValue(r: Row, c: Column): real
  {
    var x := ColumnCell(r, c);
    if x.Some? then x.value else 0.0
  }

  /** The sum of the present cells of column `c` (pandas' `sum` skips NaN; the empty sum is 0). */
  function Sum(rows: seq<Row>, c: Column): real
  {
    if rows == [] then 0.0 else Sum(rows[..|rows| - 1], c) + CellValue(rows[|rows| - 1], c)
  }

  /** The number of present cells of column `c`. */
  function Present(rows: seq<Row>, c: Column): nat
  {
    if rows == [] then 0
    else Present(rows[..|rows| - 1], c) + (if ColumnCell(rows[|rows| - 1], c).Some? then 1 else 0)
  }

  lemma SumSnoc(rows: seq<Row>, r: Row, c: Column)
    ensures Sum(rows + [r], c) == Sum(rows, c) + CellValue(r, c)
    ensures Present(rows + [r], c) == Present(rows, c) + (if ColumnCell(r, c).Some? then 1 else 0)
  {
    assert (rows + [r])[..|rows|] == rows;
  }

  /** pandas' `mean`, skipping NaN: None when no cell is present. */
  function Mean(rows: seq<Row>, c: Column): Option<real>
  {
    if Present(rows, c) == 0 then None else Some(Sum(rows, c) / Present(rows, c) as real)
  }

  /** The value of column `c` in the one aggregated group of `rows`. */
  function AggValue(rows: seq<Row>, c: Column): Option<real>
  {
    if c.IsMean() then Mean(rows, c) else Some(Sum(rows, c))
  }

  /** The rows whose path contains `path` as a substring, in table order (`str.contains(path, regex=False)`). */
  function Matching(rows: seq<Row>, path: string): (r: seq<Row>)
    ensures |r| <= |rows|
  {
    if rows == [] then []
    else
      var last := rows[|rows| - 1];
      Matching(rows[..|rows| - 1], path) + (if Contains(last.path, path) then [last] else [])
  }

  /** A row is in `Matching(rows, path)` exactly when it is a row of `rows` whose path contains `path`. */
  lemma {:induction false} MatchingMembers(rows: seq<Row>, path: string)
    ensures forall r :: r in Matching(rows, path) <==> r in rows && Contains(r.path, path)
  {
    if rows != [] {
      var init := rows[..|rows| - 1];
      MatchingMembers(init, path);
      assert rows == init + [rows[|rows| - 1]];
    }
  }

  /** `aggregate(path)`: no group when no row matches, else one group holding every aggregated column. */
  function Aggregate(rows: seq<Row>, path: string): (g: seq<map<Column, Option<real>>>)
    ensures |g| <= 1
    ensures forall k, c :: 0 <= k < |g| ==> c in g[k]
  {
    var m := Matching(rows, path);
    AggEntriesCover();
    if m == [] then [] else [map c | c in AggColumns :: AggValue(m, c)]
  }

  /** `get_value`: the column's first value, or None for an empty frame. */
  function GetValue(d: seq<map<Column, Option<real>>>, c: Column): (v: Option<real>)
    requires d != [] ==> c in d[0]
    ensures d == [] ==> v.None?
  {
    if |d| > 0 then d[0][c] else None
  }

  /** Python's `int` on a float: truncation toward zero. */
  function Truncate(x: real): (n: int)
    ensures 0.0 <= x ==> 0 <= n && n as real <= x < n as real + 1.0
    ensures x < 0.0 ==> n <= 0 && n as real - 1.0 < x <= n as real
  {
    if x >= 0.0 then x.Floor else -((-x).Floor)
  }

  /** `int(value)` inside `try`: None and NaN make `int` raise, and the value is kept as it was. */
  function ToInt(v: Option<real>): Option<int>
  {
    if v.Some? then Some(Truncate(v.value)) else None
  }

  /** The values `write_agg_values` stores in a node, one per aggregated column. */
  function AggEntries(rows: seq<Row>, path: string): (e: map<Column, Option<int>>)
    ensures forall c :: c in e
  {
    var g := Aggregate(rows, path);
    AggEntriesCover();
    map c | c in AggColumns :: ToInt(GetValue(g, c))
  }

  lemma AggEntriesCover()
    ensures forall c :: c in AggColumns
  {
    forall c: Column ensures c in AggColumns { AggColumnsComplete(c); }
  }

  /** The stored value of column `c` under `path`: None when no row matches, else the truncated aggregate. */
  lemma AggEntry(rows: seq<Row>, path: string, c: Column)
    ensures var m := Matching(rows, path);
      AggEntries(rows, path)[c] == if m == [] then None else ToInt(AggValue(m, c))
  {
  }

  predicate IsFound(r: Row) { r.count == Some(1) && r.countMissing == 0 }

  predicate IsMissing(r: Row) { r.count.None? && r.countMissing == 1 }

  /** Every row comes from the found-comments table or from the missing-comments table. */
  predicate TableWellFormed(rows: seq<Row>)
  {
    forall k :: 0 <= k < |rows| ==> IsFound(rows[k]) || IsMissing(rows[k])
  }

  lemma {:induction false} SumCounts(rows: seq<Row>)
    requires TableWellFormed(rows)
    ensures Sum(rows, CountSum) == |Filter(rows, IsFound)| as real
    ensures Sum(rows, MissingSum) == |Filter(rows, IsMissing)| as real
  {
    if rows != [] {
      var init := rows[..|rows| - 1];
      var last := rows[|rows| - 1];
      assert TableWellFormed(init) by {
        forall k | 0 <= k < |init| ensures IsFound(init[k]) || IsMissing(init[k]) { assert init[k] == rows[k]; }
      }
      SumCounts(init);
      FilterSnoc(rows, IsFound);
      FilterSnoc(rows, IsMissing);
      RowCounts(last);
      assert Sum(rows, CountSum) == Sum(init, CountSum) + CellValue(last, CountSum);
      assert Sum(rows, MissingSum) == Sum(init, MissingSum) + CellValue(last, MissingSum);
    }
  }

  /** A found row adds one to `count` and nothing to `count_missing`; a missing row the other way round. */
  lemma RowCounts(r: Row)
    requires IsFound(r) || IsMissing(r)
    ensures CellValue(r, CountSum) == if IsFound(r) then 1.0 else 0.0
    ensures CellValue(r, MissingSum) == if IsMissing(r) then 1.0 else 0.0
  {
  }

  lemma MatchingWellFormed(rows: seq<Row>, path: string)
    requires TableWellFormed(rows)
    ensures TableWellFormed(Matching(rows, path))
  {
    MatchingMembers(rows, path);
    var m := Matching(rows, path);
    forall k | 0 <= k < |m| ensures IsFound(m[k]) || IsMissing(m[k]) {
      assert m[k] in rows;
    }
  }

  /**
   * For a path `p`, `count` is the number of found-comment rows whose path contains `p`, and
   * `count_missing` the number of such missing-comment rows; both are None when no row matches.
   */
  lemma AggregatedCounts(rows: seq<Row>, path: string)
    requires TableWellFormed(rows)
    ensures var m := Matching(rows, path);
      && AggEntries(rows, path)[CountSum] == (if m == [] then None else Some(|Filter(m, IsFound)|))
      && AggEntries(rows, path)[MissingSum] == (if m == [] then None else Some(|Filter(m, IsMissing)|))
  {
    MatchingWellFormed(rows, path);
    SumCounts(Matching(rows, path));
    AggEntry(rows, path, CountSum);
    AggEntry(rows, path, MissingSum);
  }

  /** A mean column holds the truncated average of the present cells only, and None when none is present. */
  lemma AggregatedMeans(rows: seq<Row>, path: string, c: Column)
    requires c.IsMean()
    ensures var m := Matching(rows, path);
      AggEntries(rows, path)[c]
      == if Present(m, c) == 0 then None else Some(Truncate(Sum(m, c) / Present(m, c) as real))
  {
    AggEntry(rows, path, c);
  }

  predicate CellWithin(r: Row, c: Column, lo: real, hi: real)
  {
    var x := ColumnCell(r, c);
    x.Some? ==> lo <= x.value <= hi
  }

  /** When every present cell lies in [lo, hi], so does their average. */
  lemma MeanWithinBounds(rows: seq<Row>, c: Column, lo: real, hi: real)
    requires forall k :: 0 <= k < |rows| ==> CellWithin(rows[k], c, lo, hi)
    ensures Mean(rows, c).Some? ==> lo <= Mean(rows, c).value <= hi
  {
    var n := Present(rows, c);
    SumWithinBounds(rows, c, lo, hi);
    if n > 0 {
      DivAtLeast(Sum(rows, c), n, lo);
      DivAtMost(Sum(rows, c), n, hi);
    }
  }

  /** A sum of at most `n` copies of `hi`, divided by `n`, is at most `hi`. */
  lemma DivAtMost(s: real, n: nat, hi: real)
    requires n > 0 && s <= Times(n, hi)
    ensures s / n as real <= hi
  {
    TimesIsProduct(n, hi);
    DivAtMostReal(s, n as real, hi);
  }

  lemma DivAtLeast(s: real, n: nat, lo: real)
    requires n > 0 && Times(n, lo) <= s
    ensures lo <= s / n as real
  {
    TimesIsProduct(n, lo);
    DivAtLeastReal(s, n as real, lo);
  }

  lemma DivAtMostReal(s: real, n: real, hi: real)
    requires n > 0.0 && s <= n * hi
    ensures s / n <= hi
  {
    var q := s / n;
    assert q * n == s;
    if q > hi {
      assert (q - hi) * n > 0.0;
    }
  }

  lemma DivAtLeastReal(s: real, n: real, lo: real)
    requires n > 0.0 && n * lo <= s
    ensures lo <= s / n
  {
    var q := s / n;
    assert q * n == s;
    if q < lo {
      assert (lo - q) * n > 0.0;
    }
  }

  /** `n` copies of `x` added up. */
  function Times(n: nat, x: real): real
  {
    if n == 0 then 0.0 else Times(n - 1, x) + x
  }

  lemma {:induction false} TimesIsProduct(n: nat, x: real)
    ensures Times(n, x) == n as real * x
  {
    if n > 0 {
      TimesIsProduct(n - 1, x);
      assert (n - 1) as real * x + x == n as real * x;
    }
  }

  /** A sum of present cells in [lo, hi] lies between as many copies of `lo` and of `hi`. */
  lemma {:induction false} SumWithinBounds(rows: seq<Row>, c: Column, lo: real, hi: real)
    requires forall k :: 0 <= k < |rows| ==> CellWithin(rows[k], c, lo, hi)
    ensures Times(Present(rows, c), lo) <= Sum(rows, c) <= Times(Present(rows, c), hi)
  {
    if rows != [] {
      var init := rows[..|rows| - 1];
      forall k | 0 <= k < |init| ensures CellWithin(init[k], c, lo, hi) {
        assert init[k] == rows[k];
      }
      SumWithinBounds(init, c, lo, hi);
      assert CellWithin(rows[|rows| - 1], c, lo, hi);
    }
  }

  /** After masking, the sums and counts of the three mean columns are those of the rows that are not ignored. */
  lemma {:induction false} MaskedMeansSkipIgnored(rows: seq<Row>, c: Column)
    requires c.IsMean()
    ensures Sum(MaskMeans(rows), c) == Sum(Filter(rows, NotIgnored), c)
    ensures Present(MaskMeans(rows), c) == Present(Filter(rows, NotIgnored), c)
  {
    if rows != [] {
      var init := rows[..|rows| - 1];
      var last := rows[|rows| - 1];
      MaskedMeansSkipIgnored(init, c);
      var masked := MaskMeansRow(last);
      MapSnoc(rows, MaskMeansRow);
      assert MaskMeans(rows) == MaskMeans(init) + [masked];
      SumSnoc(MaskMeans(init), masked, c);
      FilterSnoc(rows, NotIgnored);
      if last.ignore {
        assert ColumnCell(masked, c).None?;
        assert Filter(rows, NotIgnored) == Filter(init, NotIgnored);
      } else {
        assert masked == last;
        assert Filter(rows, NotIgnored) == Filter(init, NotIgnored) + [last];
        SumSnoc(Filter(init, NotIgnored), last, c);
      }
    }
  }

  predicate NotIgnored(r: Row) { !r.ignore }

  // ---------------------------------------------------------------------------------------------
  // The columns the result keeps (`DF_COLUMNS`).
  // ---------------------------------------------------------------------------------------------

  /**
   * One comment of the result: the cells of a row under the 26 names of `DF_COLUMNS`, in that order
   * (`type`, `path`, `position`, `text`, `code_language`, `ignore`, `matched_synonyms`, `abbreviations`,
   * `fkgls`, `frel`, `fi`, `is_english`, `is_code`, `is_too_short`, `is_too_long`, `N_matched_synonyms`,
   * `N_exclamation`, `N_question`, `N_abbreviations`, `is_trivial`, `is_unrelated`, `count`,
   * `count_missing`, `label`, `label_proba`, `handle`).
   */
  datatype CommentRecord = CommentRecord(
    commentType: string, path: string, position: string, text: Option<string>, codeLanguage: Option<string>,
    ignore: bool, matchedSynonyms: seq<Match>, abbreviations: Option<string>,
    fkgls: Option<real>, frel: Option<real>, fi: Option<real>,
    isEnglish: int, isCode: Option<int>, isTooShort: int, isTooLong: int, nMatchedSynonyms: int,
    nExclamation: Option<int>, nQuestion: Option<int>, nAbbreviations: Option<int>,
    isTrivial: int, isUnrelated: int, count: Option<int>, countMissing: int,
    commentLabel: Option<string>, labelProba: Option<real>, handle: Option<string>)

  /** The comment dict `get_file_comments` builds from a row: one entry per name of `DF_COLUMNS`. */
  function Project(r: Row): CommentRecord
  {
    CommentRecord(
      r.commentType, r.path, r.position, r.text, r.codeLanguage,
      r.ignore, r.matchedSynonyms, r.abbreviations,
      r.fkgls, r.frel, r.fi,
      r.isEnglish, r.isCode, r.isTooShort, r.isTooLong, r.nMatchedSynonyms,
      r.nExclamation, r.nQuestion, r.nAbbreviations,
      r.isTrivial, r.isUnrelated, r.count, r.countMissing,
      r.commentLabel, r.labelProba, r.handle)
  }

  /**
   * A row after `evaluate` drops every column outside `DF_COLUMNS`: the language and its probability,
   * the word count, the coherence coefficient and the synonym dictionary are gone (cleared here).
   */
  function DropColumns(r: Row): Row
  {
    r.(language := None, languageProba := None, nWords := None, coherence := None, synonyms := [])
  }

  function Dropped(rows: seq<Row>): (r: seq<Row>)
    ensures |r| == |rows| && forall k :: 0 <= k < |rows| ==> r[k] == DropColumns(rows[k])
  {
    Map(rows, DropColumns)
  }

  /** Two rows give the same comment dict exactly when they agree once the extra columns are dropped. */
  lemma ProjectIff(a: Row, b: Row)
    ensures Project(a) == Project(b) <==> DropColumns(a) == DropColumns(b)
  {
  }

  /** Dropping keeps every `DF_COLUMNS` cell, so the comment dict of a row is unchanged by it. */
  lemma ProjectDropped(r: Row)
    ensures Project(DropColumns(r)) == Project(r) && DropColumns(DropColumns(r)) == DropColumns(r)
  {
  }

  /** Dropping the extra columns keeps every row's origin. */
  lemma DroppedWellFormed(rows: seq<Row>)
    requires TableWellFormed(rows)
    ensures TableWellFormed(Dropped(rows))
  {
  }

  /** The front of a dropped table is the dropped front. */
  lemma DroppedSnoc(rows: seq<Row>)
    requires rows != []
    ensures Dropped(rows)[..|rows| - 1] == Dropped(rows[..|rows| - 1])
    ensures Dropped(rows)[|rows| - 1] == DropColumns(rows[|rows| - 1])
  {
  }

  /** Sums and counts of present cells do not see the dropped columns. */
  lemma {:induction false} SumDropped(rows: seq<Row>, c: Column)
    ensures Sum(Dropped(rows), c) == Sum(rows, c) && Present(Dropped(rows), c) == Present(rows, c)
  {
    if rows != [] {
      DroppedSnoc(rows);
      SumDropped(rows[..|rows| - 1], c);
    }
  }

  /** Selecting the rows of a path commutes with the drop. */
  lemma {:induction false} MatchingDropped(rows: seq<Row>, path: string)
    ensures Matching(Dropped(rows), path) == Dropped(Matching(rows, path))
  {
    if rows != [] {
      var init, last := rows[..|rows| - 1], rows[|rows| - 1];
      DroppedSnoc(rows);
      MatchingDropped(init, path);
      var m := Matching(init, path);
      if Contains(last.path, path) {
        assert Matching(rows, path) == m + [last];
        assert Dropped(m + [last]) == Dropped(m) + [DropColumns(last)];
      }
    }
  }

  /** The aggregated values of a path are the same before and after the drop. */
  lemma AggEntriesDropped(rows: seq<Row>, path: string)
    ensures AggEntries(Dropped(rows), path) == AggEntries(rows, path)
  {
    var m := Matching(rows, path);
    MatchingDropped(rows, path);
    var md := Matching(Dropped(rows), path);
    forall c ensures AggValue(md, c) == AggValue(m, c) {
      SumDropped(m, c);
    }
    assert |md| == |m|;
    if m != [] {
      assert (map c | c in AggColumns :: AggValue(md, c)) == (map c | c in AggColumns :: AggValue(m, c));
    }
    assert Aggregate(Dropped(rows), path) == Aggregate(rows, path);
  }

  /** The comment dicts of the rows of a path are the same before and after the drop. */
  lemma CommentsDropped(rows: seq<Row>, path: string)
    ensures Map(Matching(Dropped(rows), path), Project) == Map(Matching(rows, path), Project)
  {
    MatchingDropped(rows, path);
  }

  // ---------------------------------------------------------------------------------------------
  // The project tree.
  // ---------------------------------------------------------------------------------------------

  /** A file-system entry: `os.listdir` gives a directory's children, in that order. */
  datatype FsNode = Dir(name: string, children: seq<FsNode>) | File(name: string)

  /** A node of the result: a directory with its non-empty children, or a file with its comments. */
  datatype Node =
    | DirNode(name: string, values: map<Column, Option<int>>, children: seq<Node>)
    | FileNode(name: string, values: map<Column, Option<int>>, comments: seq<CommentRecord>)

  const ValidExtensions: seq<string> := [".java", ".cpp", ".c", ".cc", ".cs", ".h", ".hpp"]

  predicate ValidFile(path: string)
  {
    exists k :: 0 <= k < |ValidExtensions| && EndsWith(Lower(path), ValidExtensions[k])
  }

  lemma {:induction false} LowerIdempotent(s: string)
    ensures Lower(Lower(s)) == Lower(s)
  {
    if s != [] {
      LowerIdempotent(s[1..]);
      assert Lower(s)[1..] == Lower(s[1..]);
    }
  }

  /** The extension test ignores case: `A.JAVA` is as valid as `a.java`. */
  lemma ValidFileIgnoresCase(path: string)
    ensures ValidFile(Lower(path)) <==> ValidFile(path)
  {
    LowerIdempotent(path);
  }

  /** `posixpath.basename`: what follows the last `/`. */
  function BaseName(path: string): string
  {
    if path == [] || path[|path| - 1] == '/' then []
    else BaseName(path[..|path| - 1]) + [path[|path| - 1]]
  }

  /** The base name is a suffix of the path holding no slash, preceded by a slash unless it is the whole path. */
  lemma {:induction false} BaseNameSuffix(path: string)
    ensures '/' !in BaseName(path)
    ensures |BaseName(path)| <= |path| && BaseName(path) == path[|path| - |BaseName(path)|..]
    ensures |BaseName(path)| < |path| ==> path[|path| - |BaseName(path)| - 1] == '/'
  {
    if path != [] && path[|path| - 1] != '/' {
      var init := path[..|path| - 1];
      var last := path[|path| - 1];
      BaseNameSuffix(init);
      var k := |init| - |BaseName(init)|;
      assert path[k..] == init[k..] + [last];
      if k > 0 {
        assert path[k - 1] == init[k - 1];
      }
    }
  }

  /** `posixpath.join(path, name)`. */
  function JoinPath(path: string, name: string): string
  {
    if name != [] && name[0] == '/' then name
    else if path == [] || path[|path| - 1] == '/' then path + name
    else path + "/" + name
  }

  /** The path with backslashes turned into slashes, the form the table's paths are matched against. */
  function Slashed(path: string): string
  {
    if path == [] then [] else [if path[0] == '\\' then '/' else path[0]] + Slashed(path[1..])
  }

  /** The node `path_to_dict` builds for `node`, found at `path`: None for invalid files and empty directories. */
  function Tree(rows: seq<Row>, path: string, node: FsNode): Option<Node>
    decreases node, 1
  {
    match node
    case File(_) =>
      if ValidFile(path) then
        Some(FileNode(BaseName(path), AggEntries(rows, Slashed(path)), Map(Matching(rows, Slashed(path)), Project)))
      else None
    case Dir(_, children) =>
      var kids := Kids(rows, path, node, |children|);
      if kids == [] then None else Some(DirNode(BaseName(path), AggEntries(rows, Slashed(path)), kids))
  }

  /** The nodes of the first `n` children of directory `dir` that yield one, in listing order. */
  function Kids(rows: seq<Row>, path: string, dir: FsNode, n: nat): seq<Node>
    requires dir.Dir? && n <= |dir.children|
    decreases dir, 0, n
  {
    if n == 0 then []
    else
      var child := dir.children[n - 1];
      var c := Tree(rows, JoinPath(path, child.name), child);
      Kids(rows, path, dir, n - 1) + (if c.Some? then [c.value] else [])
  }

  /** A file yields a node exactly when its extension is valid. */
  lemma FileYieldsNode(rows: seq<Row>, path: string, node: FsNode)
    requires node.File?
    ensures Tree(rows, path, node).Some? <==> ValidFile(path)
    ensures Tree(rows, path, node).Some? ==> Tree(rows, path, node).value.FileNode?
  {
  }

  /** Child `j` of directory `dir` at `path` yields a node. */
  predicate ChildYields(rows: seq<Row>, path: string, dir: FsNode, j: nat)
    requires dir.Dir? && j < |dir.children|
  {
    Tree(rows, JoinPath(path, dir.children[j].name), dir.children[j]).Some?
  }

  /** A child that yields a node puts one into the directory's children. */
  lemma {:induction false} KidsNonEmpty(rows: seq<Row>, path: string, dir: FsNode, n: nat, j: nat)
    ensures dir.Dir? && j < n <= |dir.children| && ChildYields(rows, path, dir, j) ==>
      Kids(rows, path, dir, n) != []
    decreases n
  {
    if dir.Dir? && j < n <= |dir.children| && ChildYields(rows, path, dir, j) {
      KidsLength(rows, path, dir, n);
      KidsNonEmpty(rows, path, dir, n - 1, j);
    }
  }

  lemma KidsLength(rows: seq<Row>, path: string, dir: FsNode, n: nat)
    ensures dir.Dir? && 0 < n <= |dir.children| ==>
      |Kids(rows, path, dir, n)| == |Kids(rows, path, dir, n - 1)| + (if ChildYields(rows, path, dir, n - 1) then 1 else 0)
  {
    if dir.Dir? && 0 < n <= |dir.children| {
      KidsStep(rows, path, dir, n);
    }
  }

  /** One more child adds one node when it yields one and none otherwise. */
  lemma KidsStep(rows: seq<Row>, path: string, dir: FsNode, n: nat)
    requires dir.Dir? && 0 < n <= |dir.children|
    ensures |Kids(rows, path, dir, n)| == |Kids(rows, path, dir, n - 1)| + (if ChildYields(rows, path, dir, n - 1) then 1 else 0)
  {
  }

  /** Children none of which yields a node leave the directory without children. */
  lemma {:induction false} KidsEmpty(rows: seq<Row>, path: string, dir: FsNode, n: nat)
    requires dir.Dir? && n <= |dir.children|
    requires forall j :: 0 <= j < n ==> !ChildYields(rows, path, dir, j)
    ensures Kids(rows, path, dir, n) == []
  {
    if n > 0 {
      KidsEmpty(rows, path, dir, n - 1);
      assert !ChildYields(rows, path, dir, n - 1);
    }
  }

  /** A directory yields a node exactly when at least one of its children does. */
  lemma DirYieldsNode(rows: seq<Row>, path: string, node: FsNode)
    requires node.Dir?
    ensures Tree(rows, path, node).Some? <==> exists j :: 0 <= j < |node.children| && ChildYields(rows, path, node, j)
  {
    if j :| 0 <= j < |node.children| && ChildYields(rows, path, node, j) {
      KidsNonEmpty(rows, path, node, |node.children|, j);
    } else {
      KidsEmpty(rows, path, node, |node.children|);
    }
  }

  /** No directory of the result is empty. */
  predicate NoEmptyDirectory(t: Node)
  {
    match t
    case FileNode(_, _, _) => true
    case DirNode(_, _, children) => children != [] && forall k :: 0 <= k < |children| ==> NoEmptyDirectory(children[k])
  }

  lemma {:induction false} TreePruned(rows: seq<Row>, path: string, node: FsNode)
    ensures Tree(rows, path, node).Some? ==> NoEmptyDirectory(Tree(rows, path, node).value)
    decreases node, 1
  {
    if node.Dir? {
      KidsPruned(rows, path, node, |node.children|);
    }
  }

  lemma {:induction false} KidsPruned(rows: seq<Row>, path: string, dir: FsNode, n: nat)
    requires dir.Dir? && n <= |dir.children|
    ensures forall k :: 0 <= k < |Kids(rows, path, dir, n)| ==> NoEmptyDirectory(Kids(rows, path, dir, n)[k])
    decreases dir, 0, n
  {
    if n > 0 {
      var child := dir.children[n - 1];
      KidsPruned(rows, path, dir, n - 1);
      TreePruned(rows, JoinPath(path, child.name), child);
    }
  }

  /**
   * A file node's comments are the `DF_COLUMNS` dicts of exactly the rows whose path contains the file's
   * path, one per row, in table order.
   */
  lemma FileComments(rows: seq<Row>, path: string, node: FsNode)
    requires node.File? && Tree(rows, path, node).Some?
    ensures var cs := Tree(rows, path, node).value.comments; var m := Matching(rows, Slashed(path));
      |cs| == |m| && forall k :: 0 <= k < |m| ==> cs[k] == Project(m[k])
    ensures forall c :: c in Tree(rows, path, node).value.comments <==>
      exists r :: r in rows && Contains(r.path, Slashed(path)) && Project(r) == c
  {
    var m := Matching(rows, Slashed(path));
    var cs := Tree(rows, path, node).value.comments;
    MatchingMembers(rows, Slashed(path));
    forall c ensures c in cs <==> exists r :: r in rows && Contains(r.path, Slashed(path)) && Project(r) == c {
      if c in cs {
        var k :| 0 <= k < |cs| && cs[k] == c;
        assert m[k] in m;
      }
      if r :| r in rows && Contains(r.path, Slashed(path)) && Project(r) == c {
        assert r in m;
        var k :| 0 <= k < |m| && m[k] == r;
        assert cs[k] == c;
      }
    }
  }

  /** Dropping the columns outside `DF_COLUMNS` leaves the whole result tree unchanged. */
  lemma {:induction false} TreeDropped(rows: seq<Row>, path: string, node: FsNode)
    ensures Tree(Dropped(rows), path, node) == Tree(rows, path, node)
    decreases node, 1
  {
    AggEntriesDropped(rows, Slashed(path));
    match node {
      case File(_) => CommentsDropped(rows, Slashed(path));
      case Dir(_, children) => KidsDropped(rows, path, node, |children|);
    }
  }

  lemma {:induction false} KidsDropped(rows: seq<Row>, path: string, dir: FsNode, n: nat)
    requires dir.Dir? && n <= |dir.children|
    ensures Kids(Dropped(rows), path, dir, n) == Kids(rows, path, dir, n)
    decreases dir, 0, n
  {
    if n > 0 {
      var child := dir.children[n - 1];
      KidsDropped(rows, path, dir, n - 1);
      TreeDropped(rows, JoinPath(path, child.name), child);
    }
  }

  // ---------------------------------------------------------------------------------------------
  // Synonym matching within a file.
  // ---------------------------------------------------------------------------------------------

  /** The matches of `word` (of the comment at `pos`) among the synonym entries of the comment at `posB`. */
  function EntryMatches(word: string, pos: string, posB: string, entries: seq<SynonymEntry>): seq<Match>
  {
    if entries == [] then []
    else
      var e := entries[|entries| - 1];
      EntryMatches(word, pos, posB, entries[..|entries| - 1])
        + (if word != e.word && word in e.candidates then [Match(word, e.word, pos, posB)] else [])
  }

  /** The matches of `word` among all non-ignored comments of the file, the comment itself included. */
  function WordMatches(word: string, pos: string, group: seq<Row>): seq<Match>
  {
    if group == [] then []
    else
      var b := group[|group| - 1];
      WordMatches(word, pos, group[..|group| - 1]) + (if b.ignore then [] else EntryMatches(word, pos, b.position, b.synonyms))
  }

  /** The matches of every word (synonym key) of a comment, in key order. */
  function CommentMatches(keys: seq<SynonymEntry>, pos: string, group: seq<Row>): seq<Match>
  {
    if keys == [] then []
    else CommentMatches(keys[..|keys| - 1], pos, group) + WordMatches(keys[|keys| - 1].word, pos, group)
  }

  /** The rows of the file `path` (one group of `groupby('path')`), in table order. */
  function SameFile(rows: seq<Row>, path: string): seq<Row>
  {
    if rows == [] then []
    else
      var last := rows[|rows| - 1];
      SameFile(rows[..|rows| - 1], path) + (if last.path == path then [last] else [])
  }

  function ResetSynonyms(r: Row): Row
  {
    r.(matchedSynonyms := [], nMatchedSynonyms := 0)
  }

  /** Row `r` of the table `rows` after `evaluate_synonyms(syn)`. */
  function Synonymized(rows: seq<Row>, syn: int, r: Row): Row
  {
    if syn == 0 || r.ignore then ResetSynonyms(r)
    else
      var m := CommentMatches(r.synonyms, r.position, SameFile(rows, r.path));
      r.(matchedSynonyms := m, nMatchedSynonyms := |m|)
  }

  /** The table after `evaluate_synonyms(syn)`. */
  function WithSynonyms(rows: seq<Row>, syn: int): (r: seq<Row>)
    ensures |r| == |rows|
    ensures forall i :: 0 <= i < |rows| ==> r[i] == Synonymized(rows, syn, rows[i])
  {
    seq(|rows|, i requires 0 <= i < |rows| => Synonymized(rows, syn, rows[i]))
  }

  /** Disabled analysis: every row has no match and a count of 0, and nothing else changes. */
  lemma SynonymsDisabled(rows: seq<Row>)
    ensures forall i :: 0 <= i < |rows| ==> WithSynonyms(rows, 0)[i] == ResetSynonyms(rows[i])
  {
  }

  /** The count is the length of the list, ignored rows keep none, and only these two cells change. */
  lemma SynonymCounts(rows: seq<Row>, syn: int)
    ensures forall i :: 0 <= i < |rows| ==>
      var r := WithSynonyms(rows, syn)[i];
      && r.nMatchedSynonyms == |r.matchedSynonyms|
      && (rows[i].ignore ==> r.matchedSynonyms == [] && r.nMatchedSynonyms == 0)
      && r == rows[i].(matchedSynonyms := r.matchedSynonyms, nMatchedSynonyms := r.nMatchedSynonyms)
  {
  }

  /** What makes `m` a match of the comment at `pos` among the rows `group`. */
  predicate SoundMatch(m: Match, pos: string, group: seq<Row>)
  {
    && m.word != m.synonym && m.posWord == pos
    && exists b :: b in group && !b.ignore && b.position == m.posSynonym
         && exists e :: e in b.synonyms && e.word == m.synonym && m.word in e.candidates
  }

  lemma {:induction false} EntryMatchesSound(word: string, pos: string, posB: string, entries: seq<SynonymEntry>)
    ensures forall m :: m in EntryMatches(word, pos, posB, entries) ==>
      && m.word == word && m.posWord == pos && m.posSynonym == posB && m.word != m.synonym
      && exists e :: e in entries && e.word == m.synonym && word in e.candidates
  {
    if entries != [] {
      var init := entries[..|entries| - 1];
      EntryMatchesSound(word, pos, posB, init);
      assert forall e :: e in init ==> e in entries;
    }
  }

  lemma {:induction false} WordMatchesSound(word: string, pos: string, group: seq<Row>)
    ensures forall m :: m in WordMatches(word, pos, group) ==> m.word == word && SoundMatch(m, pos, group)
  {
    if group != [] {
      var init := group[..|group| - 1];
      var b := group[|group| - 1];
      WordMatchesSound(word, pos, init);
      EntryMatchesSound(word, pos, b.position, b.synonyms);
      forall m | m in WordMatches(word, pos, group) ensures m.word == word && SoundMatch(m, pos, group) {
        if m in WordMatches(word, pos, init) {
          var b' :| b' in init && !b'.ignore && b'.position == m.posSynonym
            && exists e :: e in b'.synonyms && e.word == m.synonym && m.word in e.candidates;
          assert b' in group;
        } else {
          assert b in group;
        }
      }
    }
  }

  lemma {:induction false} CommentMatchesSound(keys: seq<SynonymEntry>, pos: string, group: seq<Row>)
    ensures forall m :: m in CommentMatches(keys, pos, group) ==>
      SoundMatch(m, pos, group) && exists key :: key in keys && key.word == m.word
  {
    if keys != [] {
      var init := keys[..|keys| - 1];
      CommentMatchesSound(init, pos, group);
      WordMatchesSound(keys[|keys| - 1].word, pos, group);
      assert forall key :: key in init ==> key in keys;
    }
  }

  lemma {:induction false} SameFileMembers(rows: seq<Row>, path: string)
    ensures forall b :: b in SameFile(rows, path) <==> b in rows && b.path == path
  {
    if rows != [] {
      var init := rows[..|rows| - 1];
      SameFileMembers(init, path);
      assert rows == init + [rows[|rows| - 1]];
    }
  }

  /**
   * Every match of row `i` pairs one of its own words with a different word of a non-ignored comment
   * of the same file (possibly row `i` itself) whose candidates hold it, and carries row `i`'s position.
   */
  lemma SynonymMatchesSound(rows: seq<Row>, syn: int, i: nat)
    requires i < |rows|
    ensures forall m :: m in WithSynonyms(rows, syn)[i].matchedSynonyms ==>
      && m.word != m.synonym && m.posWord == rows[i].position
      && (exists key :: key in rows[i].synonyms && key.word == m.word)
      && exists b :: b in rows && b.path == rows[i].path && !b.ignore && b.position == m.posSynonym
           && exists e :: e in b.synonyms && e.word == m.synonym && m.word in e.candidates
  {
    var group := SameFile(rows, rows[i].path);
    CommentMatchesSound(rows[i].synonyms, rows[i].position, group);
    SameFileMembers(rows, rows[i].path);
  }

  // ---------------------------------------------------------------------------------------------
  // The evaluator.
  // ---------------------------------------------------------------------------------------------

  /** A row of the missing-comments table: the four columns the exporter writes for it. */
  datatype MissingRow = MissingRow(path: string, position: string, handle: Option<string>, commentType: string)

  /**
   * A missing comment's row after the outer merge: its four cells, `count_missing` 1, and every column
   * only the found-comments table has absent (NaN), or empty for the list-valued ones.
   */
  function MissingToRow(m: MissingRow): (r: Row)
    ensures IsMissing(r)
    ensures r.path == m.path && r.position == m.position && r.handle == m.handle && r.commentType == m.commentType
  {
    Row(m.commentType, m.path, m.position,
        None, None, m.handle,
        None, None,
        None, None,
        None, None, None,
        [], None,
        None, None, None,
        None, None, None,
        None, 1,
        0, 0, 0, 0, 0,
        false, [], 0)
  }

  /**
   * A flagged missing row is ignored, carries no text, label, language or scores, and adds 1 to
   * `count_missing` and nothing to any other aggregated column.
   */
  lemma MissingRowCells(m: MissingRow, c: Column)
    ensures var f := FlagRow(MissingToRow(m));
      && f.ignore && f.text.None? && f.commentLabel.None? && f.codeLanguage.None?
      && f.isEnglish == 0 && f.isCode.None? && f.isTooShort == 0 && f.isTooLong == 0
      && f.isTrivial == 0 && f.isUnrelated == 0
      && CellValue(f, c) == (if c == MissingSum then 1.0 else 0.0)
      && (ColumnCell(f, c).Some? <==> c in [EnglishSum, TooShortSum, TooLongSum, MatchedSynonymsSum,
                                             TrivialSum, UnrelatedSum, MissingSum])
  {
  }

  /** Appending a flagged missing row leaves every sum but `count_missing`, and every mean, unchanged. */
  lemma MissingRowSum(rows: seq<Row>, m: MissingRow, c: Column)
    ensures var f := FlagRow(MissingToRow(m));
      && Sum(rows + [f], c) == Sum(rows, c) + (if c == MissingSum then 1.0 else 0.0)
      && (c.IsMean() ==> Mean(rows + [f], c) == Mean(rows, c))
  {
    var f := FlagRow(MissingToRow(m));
    SumSnoc(rows, f, c);
    MissingRowCells(m, c);
  }

  /** Marks the found rows (`count` 1, `count_missing` 0), builds the missing rows and joins them. */
  function Merged(found: seq<Row>, missing: seq<MissingRow>): (r: seq<Row>)
    ensures TableWellFormed(r)
    ensures |r| == |found| + |missing|
    ensures forall i :: 0 <= i < |found| ==>
      IsFound(r[i]) && r[i].(count := found[i].count, countMissing := found[i].countMissing) == found[i]
    ensures forall i :: 0 <= i < |missing| ==> r[|found| + i] == MissingToRow(missing[i])
  {
    seq(|found|, i requires 0 <= i < |found| => found[i].(count := Some(1), countMissing := 0))
      + seq(|missing|, i requires 0 <= i < |missing| => MissingToRow(missing[i]))
  }

  class Evaluator {
    const projectDir: string
    var df: seq<Row>

    ghost predicate Valid()
      reads this
    {
      TableWellFormed(df)
    }

    constructor(path: string, found: seq<Row>, missing: seq<MissingRow>)
      ensures Valid()
      ensures projectDir == path && df == Merged(found, missing)
    {
      projectDir := path;
      df := Merged(found, missing);
    }

    /** Adds the flag columns, masks the ignored rows, matches synonyms and builds the project tree. */
    method Evaluate(syn: int, fs: FsNode) returns (result: Option<Node>)
      requires Valid()
      modifies this
      ensures Valid()
      ensures df == Dropped(WithSynonyms(MaskSums(MaskMeans(Flagged(old(df)))), syn))
      ensures result == Tree(df, projectDir, fs)
      ensures result == Tree(WithSynonyms(MaskSums(MaskMeans(Flagged(old(df)))), syn), projectDir, fs)
    {
      df := Flagged(df);
      NanIgnoredMeans();
      NanIgnoredSums();
      EvaluateSynonyms(syn);
      DroppedWellFormed(df);
      TreeDropped(df, projectDir, fs);
      df := Dropped(df);
      result := PathToDict(projectDir, fs);
    }

    method NanIgnoredMeans()
      requires Valid()
      modifies this
      ensures Valid()
      ensures df == MaskMeans(old(df))
    {
      df := MaskMeans(df);
    }

    method NanIgnoredSums()
      requires Valid()
      modifies this
      ensures Valid()
      ensures df == MaskSums(old(df))
    {
      df := MaskSums(df);
    }

    /** `write_agg_values`: the aggregated value of every column of `COLUMN_AGG` under `path`, stored in `d`. */
    method WriteAggValues(path: string) returns (d: map<Column, Option<int>>)
      ensures d == AggEntries(df, path)
    {
      var agg := Aggregate(df, path);
      d := map[];
      var k := 0;
      while k < |AggColumns|
        invariant 0 <= k <= |AggColumns|
        invariant forall i :: 0 <= i < k ==> AggColumns[i] in d
        invariant forall c :: c in d ==> d[c] == ToInt(GetValue(agg, c))
      {
        var key := AggColumns[k];
        var value := ToInt(GetValue(agg, key));
        d := d[key := value];
        k := k + 1;
      }
      forall c: Column ensures c in d {
        AggColumnsComplete(c);
      }
    }

    /** `get_file_comments`: the `DF_COLUMNS` dicts of the rows whose path contains `path`, in table order. */
    method GetFileComments(path: string) returns (result: seq<CommentRecord>)
      ensures result == Map(Matching(df, path), Project)
    {
      result := [];
      var i := 0;
      while i < |df|
        invariant 0 <= i <= |df|
        invariant result == Map(Matching(df[..i], path), Project)
      {
        var row := df[i];
        TakeStep(df, i);
        if Contains(row.path, path) {
          var m := Matching(df[..i], path);
          assert Matching(df[..i + 1], path) == m + [row];
          assert Map(m + [row], Project) == Map(m, Project) + [Project(row)];
          result := result + [Project(row)];
        }
        i := i + 1;
      }
      TakeAll(df);
    }

    /** `path_to_dict`: the node for the entry `node` at `path`, with pruned children. */
    method PathToDict(path: string, node: FsNode) returns (d: Option<Node>)
      ensures d == Tree(df, path, node)
      decreases node
    {
      if node.Dir? {
        var values := WriteAggValues(Slashed(path));
        var children: seq<Node> := [];
        var j := 0;
        while j < |node.children|
          invariant 0 <= j <= |node.children|
          invariant children == Kids(df, path, node, j)
        {
          var child := node.children[j];
          var c := PathToDict(JoinPath(path, child.name), child);
          if c.Some? {
            children := children + [c.value];
          }
          j := j + 1;
        }
        if children == [] {
          return None;
        }
        d := Some(DirNode(BaseName(path), values, children));
      } else {
        if !ValidFile(path) {
          return None;
        }
        var values := WriteAggValues(Slashed(path));
        var comments := GetFileComments(Slashed(path));
        d := Some(FileNode(BaseName(path), values, comments));
      }
    }

    /** `evaluate_synonyms`: resets both synonym columns, then fills them for every non-ignored row when `syn` is set. */
    method EvaluateSynonyms(syn: int)
      requires Valid()
      modifies this
      ensures Valid()
      ensures df == WithSynonyms(old(df), syn)
    {
      var rows := df;
      df := Map(rows, ResetSynonyms);
      if syn == 0 {
        return;
      }
      var i := 0;
      while i < |rows|
        invariant 0 <= i <= |rows| && |df| == |rows|
        invariant forall k :: 0 <= k < i ==> df[k] == Synonymized(rows, syn, rows[k])
        invariant forall k :: i <= k < |rows| ==> df[k] == ResetSynonyms(rows[k])
      {
        var row := rows[i];
        if !row.ignore {
          var group := SameFile(rows, row.path);
          var resSyn, nSyn := MatchComment(row.synonyms, row.position, group);
          df := df[i := df[i].(nMatchedSynonyms := nSyn, matchedSynonyms := resSyn)];
        }
        i := i + 1;
      }
    }

    /** The matches of one comment (its synonym keys and its position) against its file's comments, with their count. */
    static method MatchComment(keys: seq<SynonymEntry>, pos: string, group: seq<Row>) returns (resSyn: seq<Match>, nSyn: int)
      ensures resSyn == CommentMatches(keys, pos, group) && nSyn == |resSyn|
    {
      resSyn := [];
      nSyn := 0;
      var i := 0;
      while i < |keys|
        invariant 0 <= i <= |keys|
        invariant resSyn == CommentMatches(keys[..i], pos, group) && nSyn == |resSyn|
      {
        var more, n := MatchWord(keys[i].word, pos, group);
        resSyn := resSyn + more;
        nSyn := nSyn + n;
        TakeStep(keys, i);
        i := i + 1;
      }
      TakeAll(keys);
    }

    /** The middle loop for one word: every non-ignored comment of the file. */
    static method MatchWord(key: string, pos: string, group: seq<Row>) returns (res: seq<Match>, n: int)
      ensures res == WordMatches(key, pos, group) && n == |res|
    {
      res := [];
      n := 0;
      var j := 0;
      while j < |group|
        invariant 0 <= j <= |group|
        invariant res == WordMatches(key, pos, group[..j]) && n == |res|
      {
        var row2 := group[j];
        if !row2.ignore {
          var more, m := MatchEntries(key, pos, row2.position, row2.synonyms);
          res := res + more;
          n := n + m;
        }
        TakeStep(group, j);
        j := j + 1;
      }
      TakeAll(group);
    }

    /** The inner loop: the synonym keys of one other comment that list `key` among their candidates. */
    static method MatchEntries(key: string, pos: string, pos2: string, dict2: seq<SynonymEntry>) returns (res: seq<Match>, n: int)
      ensures res == EntryMatches(key, pos, pos2, dict2) && n == |res|
    {
      res := [];
      n := 0;
      var k := 0;
      while k < |dict2|
        invariant 0 <= k <= |dict2|
        invariant res == EntryMatches(key, pos, pos2, dict2[..k]) && n == |res|
      {
        var key2 := dict2[k].word;
        if key != key2 && key in dict2[k].candidates {
          res := res + [Match(key, key2, pos, pos2)];
          n := n + 1;
        }
        TakeStep(dict2, k);
        k := k + 1;
      }
      TakeAll(dict2);
    }
  }
}
