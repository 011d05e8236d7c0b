/**
 * The comment record that the scraper creates and the rater enriches field by field,
 * and the CSV row it is exported as.
 */
module CommentObject {
  import opened Wrappers

  /** One entry of a comment's synonym dict: a word and its candidate synonyms, in dict order. */
  datatype SynonymEntry = SynonymEntry(word: string, candidates: seq<string>)

  /** A value handed to `csv.writer` as one cell of a row. */
  datatype Cell =
    | IntCell(i: int)
    | RealCell(x: real)
    | TextCell(s: string)
    | NoneCell
    | ListCell(items: seq<string>)
    | SetCell(members: set<string>)
    | DictCell(entries: seq<SynonymEntry>)

  /** The number of elements of a collection cell (Python's `len`); 0 for scalars. */
  function CellSize(c: Cell): nat
  {
    match c
    case ListCell(items) => |items|
    case SetCell(members) => |members|
    case DictCell(entries) => |entries|
    case _ => 0
  }

  /** The column names of the found-comments CSV, in the order the exporter writes them. */
  const CommentsHeader: seq<string> :=
    ["id", "path", "position", "type", "handle", "text", "label", "label_proba",
     "coherence_coefficient", "N_question", "N_exclamation",
     "processed_text", "N_words", "N_complex_words", "N_syllables", "N_sentences",
     "words", "complex_words", "syllables", "sentences",
     "fkgls", "frel", "fi", "abbreviations", "N_abbreviations",
     "time_millis", "language", "language_proba", "synonyms", "is_code", "code_language"]

  /** The exporter's header has one name per cell of `GetRow`, and these are the columns the row contract is about. */
  lemma HeaderColumns()
    ensures |CommentsHeader| == 31
    ensures CommentsHeader[0] == "id" && CommentsHeader[5] == "text"
    ensures CommentsHeader[12] == "N_words" && CommentsHeader[16] == "words"
    ensures CommentsHeader[13] == "N_complex_words" && CommentsHeader[17] == "complex_words"
    ensures CommentsHeader[14] == "N_syllables" && CommentsHeader[18] == "syllables"
    ensures CommentsHeader[15] == "N_sentences" && CommentsHeader[19] == "sentences"
    ensures CommentsHeader[23] == "abbreviations" && CommentsHeader[24] == "N_abbreviations"
    ensures CommentsHeader[26] == "language" && CommentsHeader[27] == "language_proba"
    ensures CommentsHeader[28] == "synonyms"
  {
  }

  function TextOrNone(o: Option<string>): Cell
  {
    match o
    case Some(s) => TextCell(s)
    case None => NoneCell
  }

  function RealOrNone(o: Option<real>): Cell
  {
    match o
    case Some(x) => RealCell(x)
    case None => NoneCell
  }

  function NatOrNone(o: Option<nat>): Cell
  {
    match o
    case Some(n) => IntCell(n)
    case None => NoneCell
  }

  /** The values of the fields `rate` derives for a comment, other than its processing time. */
  datatype Ratings = Ratings(
    abbreviations: Option<set<string>>, processedText: Option<string>,
    commentLabel: Option<string>, labelProbability: Option<real>,
    questionMarks: Option<nat>, exclamationMarks: Option<nat>,
    words: Option<seq<string>>, complexWords: Option<seq<string>>,
    sentences: Option<seq<string>>, syllables: Option<seq<string>>,
    coherenceCoefficient: Option<real>, fogIndex: Option<real>,
    fleschKincaidGradeLevel: Option<real>, fleschReadingEaseLevel: Option<real>,
    language: Option<(string, real)>, uniqueWordsSwr: Option<seq<string>>,
    synonyms: Option<seq<SynonymEntry>>, isCode: nat)

  /**
   * A scraped comment. The seven constructor arguments never change; every other field starts out
   * as None (`is_code` as False, written 0 here) and is filled in by the rater.
   */
  class Comment {
    const id: int
    const path: string
    const line: string
    const commentType: string
    const text: string
    const handle: Option<string>
    const codeLanguage: string

    // tokenizer
    var processedText: Option<string>
    var words: Option<seq<string>>
    var complexWords: Option<seq<string>>
    var sentences: Option<seq<string>>
    var syllables: Option<seq<string>>

    // usefulness
    var commentLabel: Option<string>
    var labelProbability: Option<real>
    var questionMarks: Option<nat>
    var exclamationMarks: Option<nat>
    var fleschKincaidGradeLevel: Option<real>
    var fleschReadingEaseLevel: Option<real>
    var fogIndex: Option<real>
    var abbreviations: Option<set<string>>
    var timeMillis: Option<real>
    var isCode: nat

    // consistency
    var language: Option<(string, real)>
    var uniqueWordsSwr: Option<seq<string>>
    var synonyms: Option<seq<SynonymEntry>>

    // coherence
    var coherenceCoefficient: Option<real>

    /** True while no rating step has written a derived field. */
    predicate Unrated()
      reads this
    {
      && processedText.None? && words.None? && complexWords.None? && sentences.None? && syllables.None?
      && commentLabel.None? && labelProbability.None? && questionMarks.None? && exclamationMarks.None?
      && fleschKincaidGradeLevel.None? && fleschReadingEaseLevel.None? && fogIndex.None?
      && abbreviations.None? && timeMillis.None? && isCode == 0
      && language.None? && uniqueWordsSwr.None? && synonyms.None? && coherenceCoefficient.None?
    }

    constructor (id: int, path: string, line: string, commentType: string, text: string,
                 handle: Option<string>, codeLanguage: string)
      ensures this.id == id && this.path == path && this.line == line && this.commentType == commentType
      ensures this.text == text && this.handle == handle && this.codeLanguage == codeLanguage
      ensures Unrated()
    {
      this.id := id;
      this.path := path;
      this.line := line;
      this.commentType := commentType;
      this.text := text;
      this.handle := handle;
      this.codeLanguage := codeLanguage;
      processedText, words, complexWords, sentences, syllables := None, None, None, None, None;
      commentLabel, labelProbability, questionMarks, exclamationMarks := None, None, None, None;
      fleschKincaidGradeLevel, fleschReadingEaseLevel, fogIndex := None, None, None;
      abbreviations, timeMillis, isCode := None, None, 0;
      language, uniqueWordsSwr, synonyms := None, None, None;
      coherenceCoefficient := None;
    }

    /** The derived fields, read together. */
    function Derived(): Ratings
      reads this
    {
      Ratings(abbreviations, processedText, commentLabel, labelProbability, questionMarks, exclamationMarks,
              words, complexWords, sentences, syllables,
              coherenceCoefficient, fogIndex, fleschKincaidGradeLevel, fleschReadingEaseLevel,
              language, uniqueWordsSwr, synonyms, isCode)
    }

    /** The fields `get_row` calls `len` on or indexes into; Python raises while any of them is None. */
    predicate Exportable()
      reads this
    {
      synonyms.Some? && abbreviations.Some? && language.Some?
      && words.Some? && complexWords.Some? && syllables.Some? && sentences.Some?
    }

    /**
     * The CSV row of this comment: one cell per column of `CommentsHeader`. Every count column holds
     * the length of the list column it summarises, the abbreviations cell its own size, and the
     * language pair occupies two consecutive cells.
     */
    function GetRow(): (r: seq<Cell>)
      reads this
      requires Exportable()
      ensures |r| == 31
      ensures r[12] == IntCell(CellSize(r[16])) && r[16] == ListCell(words.value)
      ensures r[13] == IntCell(CellSize(r[17])) && r[17] == ListCell(complexWords.value)
      ensures r[14] == IntCell(CellSize(r[18])) && r[18] == ListCell(syllables.value)
      ensures r[15] == IntCell(CellSize(r[19])) && r[19] == ListCell(sentences.value)
      ensures r[24] == IntCell(CellSize(r[23])) && CellSize(r[23]) == |abbreviations.value|
      ensures abbreviations.value == {} ==> r[23] == DictCell([])
      ensures abbreviations.value != {} ==> r[23] == SetCell(abbreviations.value)
      ensures r[28] == DictCell(synonyms.value)
      ensures r[26] == TextCell(language.value.0) && r[27] == RealCell(language.value.1)
      ensures r[0] == IntCell(id) && r[5] == TextCell(text)
    {
      var syn := if |synonyms.value| > 0 then DictCell(synonyms.value) else DictCell([]);
      var abbr := if |abbreviations.value| > 0 then SetCell(abbreviations.value) else DictCell([]);
      var identity := [IntCell(id), TextCell(path), TextCell(line), TextCell(commentType), TextOrNone(handle),
                       TextCell(text), TextOrNone(commentLabel), RealOrNone(labelProbability),
                       RealOrNone(coherenceCoefficient), NatOrNone(questionMarks), NatOrNone(exclamationMarks),
                       TextOrNone(processedText)];
      var counts := [IntCell(|words.value|), IntCell(|complexWords.value|),
                     IntCell(|syllables.value|), IntCell(|sentences.value|)];
      var lists := [ListCell(words.value), ListCell(complexWords.value), ListCell(syllables.value),
                    ListCell(sentences.value)];
      var scores := [RealOrNone(fleschKincaidGradeLevel), RealOrNone(fleschReadingEaseLevel), RealOrNone(fogIndex)];
      var tail := [abbr, IntCell(CellSize(abbr)), RealOrNone(timeMillis), TextCell(language.value.0),
                   RealCell(language.value.1), syn, IntCell(isCode), TextCell(codeLanguage)];
      identity + counts + lists + scores + tail
    }
  }
}
