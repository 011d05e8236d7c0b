/**
 * The row filter over the found-comments table: keep the rows of one code language and of one
 * comment label, where an empty language or label filters nothing.
 */
module CommentFilter {
  import opened Seqs
  import opened CommentObject

  /** The positions of `code_language` and `label` among the table's columns. */
  const LanguageColumn: nat := 30
  const LabelColumn: nat := 6

  lemma FilterColumns()
    ensures CommentsHeader[LanguageColumn] == "code_language" && CommentsHeader[LabelColumn] == "label"
  {
  }

  /** The cell of column `col` is the text `v` (`df[col] == v`; an absent or non-text cell never is). */
  predicate CellIs(row: seq<Cell>, col: nat, v: string)
  {
    col < |row| && row[col] == TextCell(v)
  }

  /** One `if` of `filter`: a non-empty value keeps the rows whose column holds it; an empty one keeps all. */
  function ByColumn(rows: seq<seq<Cell>>, col: nat, v: string): seq<seq<Cell>>
  {
    if v == "" then rows else Filter(rows, (r: seq<Cell>) => CellIs(r, col, v))
  }

  /** The table after `filter(language, commentLabel)`. */
  function Filtered(rows: seq<seq<Cell>>, language: string, commentLabel: string): seq<seq<Cell>>
  {
    ByColumn(ByColumn(rows, LanguageColumn, language), LabelColumn, commentLabel)
  }

  /** A row passes when it meets every active condition. */
  predicate Passes(row: seq<Cell>, language: string, commentLabel: string)
  {
    (language == "" || CellIs(row, LanguageColumn, language)) && (commentLabel == "" || CellIs(row, LabelColumn, commentLabel))
  }

  /**
   * The two steps together keep exactly the rows that meet both active conditions, in table order and
   * with their multiplicity.
   */
  lemma FilteredIsOneFilter(rows: seq<seq<Cell>>, language: string, commentLabel: string)
    ensures Filtered(rows, language, commentLabel) == Filter(rows, (r: seq<Cell>) => Passes(r, language, commentLabel))
  {
    var both := (r: seq<Cell>) => Passes(r, language, commentLabel);
    var byLanguage := (r: seq<Cell>) => CellIs(r, LanguageColumn, language);
    var byLabel := (r: seq<Cell>) => CellIs(r, LabelColumn, commentLabel);
    if language == "" && commentLabel == "" {
      FilterAll(rows, both);
    } else if language == "" {
      FilterSame(rows, byLabel, both);
    } else if commentLabel == "" {
      FilterSame(rows, byLanguage, both);
    } else {
      FilterFilter(rows, byLanguage, byLabel, both);
    }
  }

  /** The result is an order-preserving subsequence of the table, and a row is in it iff it is in the table and passes. */
  lemma FilteredRows(rows: seq<seq<Cell>>, language: string, commentLabel: string)
    ensures IsSubsequence(Filtered(rows, language, commentLabel), rows)
    ensures forall k :: 0 <= k < |Filtered(rows, language, commentLabel)| ==>
      Filtered(rows, language, commentLabel)[k] in rows && Passes(Filtered(rows, language, commentLabel)[k], language, commentLabel)
    ensures forall k :: 0 <= k < |rows| && Passes(rows[k], language, commentLabel) ==> rows[k] in Filtered(rows, language, commentLabel)
  {
    var both := (r: seq<Cell>) => Passes(r, language, commentLabel);
    FilteredIsOneFilter(rows, language, commentLabel);
    FilterIsSubsequence(rows, both);
    FilterMembers(rows, both);
  }

  /** With neither a language nor a label nothing is filtered. */
  lemma NoFilter(rows: seq<seq<Cell>>)
    ensures Filtered(rows, "", "") == rows
  {
  }

  /** `CommentFilter`: the table read from the found-comments CSV. */
  class CommentFilter {
    var df: seq<seq<Cell>>

    constructor (rows: seq<seq<Cell>>)
      ensures df == rows
    {
      df := rows;
    }

    /** `filter`: narrows `df` by language, then by label. */
    method Filter(language: string, commentLabel: string)
      modifies this
      ensures df == Filtered(old(df), language, commentLabel)
    {
      if language != "" {
        df := Seqs.Filter(df, (r: seq<Cell>) => CellIs(r, LanguageColumn, language));
      }
      if commentLabel != "" {
        df := Seqs.Filter(df, (r: seq<Cell>) => CellIs(r, LabelColumn, commentLabel));
      }
    }
  }
}
