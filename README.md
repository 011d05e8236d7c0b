# coality comment-quality pipeline, modelled in Dafny

This project models the core of coality. coality scrapes the comments of a source tree, rates each comment and evaluates the results per file and per directory. It also models a few bookkeeping pieces beside that pipeline: the binary classifiers' metrics, a row filter and a JSON walk.

There is one module per Python file:

| module | Python file | form |
|---|---|---|
| `Preprocessing` | `quality_assessment/src/comment_rater.py` (rewrite helpers, `preprocess`) | functions on `seq<char>`, plus a method that writes the comment |
| `CommentRater` | `quality_assessment/src/comment_rater.py` (coherence, commented code, readability, language, synonyms, `Rater.rate`) | loop methods proved against functions, and the `Rater` class |
| `TokenPatterns`, `Tokenizer` | `quality_assessment/src/tokenizer.py` | scanners for the four patterns, and the `Tokenizer` class whose `GetStats` loops |
| `CommentObject` | `quality_assessment/src/comment_object.py` | the `Comment` class and its CSV row |
| `CommentScraper` | `quality_assessment/src/comment_scraper.py` | the element tree as a datatype, and the `Scraper` class with its id counter |
| `CommentEvaluator` | `quality_assessment/src/comment_evaluator.py` | the table as a `seq<Row>`, and the `Evaluator` class whose methods rewrite it |
| `CommentFilter` | `quality_assessment/src/comment_filter.py` | the `CommentFilter` class narrowing its table |
| `BinaryClassifier` | `classification/src/classifiers/binary_classifier.py` | metrics functions, and the `Classifier` class with counter arrays |
| `JsonExtract` | `json_extract.py` | a `Json` datatype, and recursive and looping methods |
| `Seqs`, `Text`, `Wrappers` | (shared) | filter, map, flatten and subsequence; Python string helpers on ASCII; `Option` |

**Modelling choices.**
- Every operation that loops or mutates in the source is a `method` that loops or mutates here. Its `ensures` ties the result, or the new state, to a specification function, and the properties are proved about those functions as lemmas.
- Python exceptions are modelled as `None` results wherever the source can raise on its inputs: `match_label` without a prefix, `max` of no predictions, the JSON `"." in` test on numbers.
- Floats are modelled as exact `real`s.
- pandas NaN and None are modelled as `Option`.
- Regular expressions are modelled as left-to-right scanners over ASCII.

The external services are parameters of the model:
- the label predictor `predict`;
- fastText language identification `identifyLanguage`;
- `nltk.sent_tokenize` as `sentTokenize`;
- WordNet synsets `synsets`;
- the porter2 `stem`;
- the order in which `list(set(..))` lists its members, as `setOrder`;
- the clock, as the elapsed times handed to `Rate`.

## Model

| member | source | states |
|---|---|---|
| Preprocessing.RemoveAbbreviationsPieces | quality_assessment/src/comment_rater.py:211-220 | splitting the result on whitespace gives back exactly the pieces of the text that are not abbreviations, so no non-empty piece of the result is an abbreviation |
| Preprocessing.SplitFunctionCall | quality_assessment/src/comment_rater.py:260-269 | length is preserved; a dot with a word character on both sides becomes a space, every other character is kept |
| Preprocessing.SplitFunctionCallIdempotent | quality_assessment/src/comment_rater.py:260-269 | no call dot survives the split, so splitting twice equals splitting once |
| Preprocessing.SplitCamelCaseNoHump | quality_assessment/src/comment_rater.py:248-257 | after the split no lower-case letter is directly followed by an upper-case one |
| Preprocessing.SplitCamelCaseInsertsSpaces | quality_assessment/src/comment_rater.py:248-257 | the split only inserts spaces: deleting the spaces of input and output gives the same string |
| Preprocessing.RemoveNumbers | quality_assessment/src/comment_rater.py:223-232 | the result holds no digit and is no longer than the input |
| Preprocessing.RemoveNumbersNoDigits | quality_assessment/src/comment_rater.py:223-232 | a string without digits is left unchanged |
| Preprocessing.RemoveNumbersIdempotent | quality_assessment/src/comment_rater.py:223-232 | removing digits twice equals removing them once |
| Preprocessing.RemoveNumbersKeepsOthers | quality_assessment/src/comment_rater.py:223-232 | every non-digit character occurs as often after the removal as before |
| Preprocessing.RemoveSpecialCharacters | quality_assessment/src/comment_rater.py:235-245 | length is preserved; exactly the special characters become spaces, every other character stays in place, no special character remains |
| Preprocessing.RemoveSpecialCharactersIdempotent | quality_assessment/src/comment_rater.py:235-245 | replacing the special characters twice equals doing it once |
| Preprocessing.CollapseSpacesIdentity | quality_assessment/src/comment_rater.py:272-281 | a string without two adjacent whitespace characters is fixed by the collapse |
| Preprocessing.RemoveMultipleSpacesShape | quality_assessment/src/comment_rater.py:272-281 | the result has no two adjacent whitespace characters and no whitespace at either end |
| Preprocessing.RemoveMultipleSpacesIdempotent | quality_assessment/src/comment_rater.py:272-281 | removing multiple spaces twice equals doing it once |
| Preprocessing.PreprocessTextUnfold | quality_assessment/src/comment_rater.py:284-298 | the processed text is the seven rewrites applied in the source's order |
| Preprocessing.PreprocessTextShape | quality_assessment/src/comment_rater.py:284-298 | the processed text holds no digit, no special character and no newline, has no two adjacent whitespace characters and no whitespace at either end |
| Preprocessing.Preprocess | quality_assessment/src/comment_rater.py:284-298 | writes exactly the processed text of the comment's raw text and abbreviations into `processedText` |
| TokenPatterns.Find | quality_assessment/src/tokenizer.py:66-67 | `str.find`: -1 exactly when the character is absent, otherwise its first index |
| TokenPatterns.RawWordsMatchPattern | quality_assessment/src/tokenizer.py:25 | every raw match of the word pattern starts with a letter and continues with letters, hyphens and apostrophes |
| TokenPatterns.WordsShape | quality_assessment/src/tokenizer.py:64-67 | every kept word matches the word pattern and contains one of `aeiouy` |
| TokenPatterns.WordsHyphens | quality_assessment/src/tokenizer.py:29 | a kept word containing a hyphen contains two letters, the hyphen, two letters |
| TokenPatterns.WordsAreSubsequence | quality_assessment/src/tokenizer.py:64-67 | the kept words are an order-preserving subsequence of the raw matches of the lower-cased, stripped line |
| TokenPatterns.MergeTrailingEEffect | quality_assessment/src/tokenizer.py:71-76 | the merge fires iff there are at least two groups and the last is exactly `e`; it then removes one group, and in every case keeps the concatenation of the groups |
| TokenPatterns.GroupsFromVowel | quality_assessment/src/tokenizer.py:31 | from a position with a vowel at or after it the syllable scan finds at least one group |
| TokenPatterns.KeptWordHasSyllable | quality_assessment/src/tokenizer.py:70-76 | every kept word yields at least one syllable group, after the merge too |
| TokenPatterns.SyllablesAtLeastWords | quality_assessment/src/tokenizer.py:70-77 | the syllable list has at least as many entries as there are kept words |
| Tokenizer.Tokenizer.constructor | quality_assessment/src/tokenizer.py:45-50 | all four lists start empty |
| Tokenizer.Tokenizer.GetStats | quality_assessment/src/tokenizer.py:52-84 | `words` are the kept words of the processed text, `sentences` the splitter's sentences, the syllables and complex words of the new words are appended in word order, and the four lists are written into the comment |
| CommentObject.HeaderColumns | quality_assessment/src/comment_exporter.py:33-38 | the exporter header has 31 names, and names the columns the row contract speaks about at the positions it uses |
| CommentObject.Comment.constructor | quality_assessment/src/comment_object.py:15-50 | stores the seven arguments and leaves every derived field unset, with `is_code` False |
| CommentObject.Comment.GetRow | quality_assessment/src/comment_object.py:52-65 | 31 cells; each count cell is the length of its list cell; the abbreviations cell is `{}` when empty and has the size `N_abbreviations` holds; the language pair fills two consecutive cells |
| CommentRater.LevenshteinZero | quality_assessment/src/comment_rater.py:323 | the edit distance is 0 exactly for equal strings |
| CommentRater.WithinOneEditIsLevenshtein | quality_assessment/src/comment_rater.py:323 | the one-edit test agrees with the edit distance being below 2 |
| CommentRater.HandleParts | quality_assessment/src/comment_rater.py:317 | the handle parts the words are compared with are non-empty |
| CommentRater.MatchCount | quality_assessment/src/comment_rater.py:322-324 | a word matches at most as many parts as there are |
| CommentRater.PairCountBound | quality_assessment/src/comment_rater.py:321-324 | the pair count is at most the number of words times the number of parts |
| CommentRater.CoherenceRange | quality_assessment/src/comment_rater.py:313-325 | the coefficient is absent exactly when the handle is None or empty or the words are None or empty; otherwise it lies between 0 and the number of handle parts |
| CommentRater.CoherenceAboveOne | quality_assessment/src/comment_rater.py:321-325 | the coefficient is a pair count: one word `get` against the handle `getGet` gives 2 |
| CommentRater.GetCoherenceCoefficient | quality_assessment/src/comment_rater.py:301-325 | the nested loops compute the coherence coefficient |
| CommentRater.CountEachIsSymbolCount | quality_assessment/src/comment_rater.py:340-343 | summing the count of each distinct symbol equals counting the positions holding any of them |
| CommentRater.IsCommentedCode | quality_assessment/src/comment_rater.py:328-346 | the flag is 1 iff the five symbols occur at least 4 times in the raw text altogether, and 0 otherwise |
| CommentRater.ReadabilityGuards | quality_assessment/src/comment_rater.py:119-163 | all three scores are exactly 0 without sentences or without words |
| CommentRater.ReadabilityBounds | quality_assessment/src/comment_rater.py:119-163 | with at least one sentence and a syllable per word, the grade level is above -3.79, the reading ease below 122.235, and the fog index, with its factor 0.41, is positive |
| CommentRater.ReadabilityMonotone | quality_assessment/src/comment_rater.py:119-148 | more syllables for the same words and sentences do not lower the grade level and do not raise the reading ease |
| CommentRater.SplitAt | quality_assessment/src/comment_rater.py:177 | `str.split` on a non-empty separator gives at least one piece |
| CommentRater.SplitAtJoin | quality_assessment/src/comment_rater.py:177 | joining the pieces with the separator gives the string back |
| CommentRater.LanguageCodeOfLabel | quality_assessment/src/comment_rater.py:165-177 | a fastText label `__label__` followed by a code gives back that code |
| CommentRater.CandidatesShape | quality_assessment/src/comment_rater.py:203-206 | the candidate list is duplicate-free and holds exactly the lemma names without `_` that differ from the word and do not share its stem |
| CommentRater.DictPut | quality_assessment/src/comment_rater.py:207 | a dict store either keeps the dict's size or appends the new entry at the end |
| CommentRater.DictPutAbsent | quality_assessment/src/comment_rater.py:207 | storing under a key the dict does not have appends the new entry after all existing ones |
| CommentRater.DictPutPresent | quality_assessment/src/comment_rater.py:207 | storing under an existing key keeps the size, replaces that key's entry where it stands and leaves every other entry unchanged |
| CommentRater.SynonymDictKeys | quality_assessment/src/comment_rater.py:199-208 | the keys of the synonym dict are exactly the words |
| CommentRater.SynonymDictEntries | quality_assessment/src/comment_rater.py:199-208 | for duplicate-free words, entry k is word k with the candidates of all its synsets' lemma names |
| CommentRater.GetSynonyms | quality_assessment/src/comment_rater.py:189-208 | the loops build exactly the synonym dict |
| CommentRater.SynsetCandidates | quality_assessment/src/comment_rater.py:202-206 | the two inner loops produce the candidates of the concatenated lemma names |
| CommentRater.AddCandidates | quality_assessment/src/comment_rater.py:204-206 | the innermost loop extends the candidates by one synset's names |
| CommentRater.AbbreviationsIn | quality_assessment/src/comment_rater.py:93 | the abbreviations are exactly the whitespace pieces of the text that are abbreviation keys |
| CommentRater.Rater.constructor | quality_assessment/src/comment_rater.py:66-79 | stores the abbreviations, stopwords and models, with no tokenizer yet |
| CommentRater.Rater.UniqueWordsSwrShape | quality_assessment/src/comment_rater.py:179-186 | the unique words are duplicate-free and are exactly the words that are not stopwords |
| CommentRater.Rater.RateText | quality_assessment/src/comment_rater.py:93-103 | writes the abbreviations, processed text, label, probability and mark counts the comment's text determines |
| CommentRater.Rater.Tokenize | quality_assessment/src/comment_rater.py:105-106 | a fresh tokenizer writes the comment's words, sentences, syllables and complex words, and is kept in the rater |
| CommentRater.Rater.RateScores | quality_assessment/src/comment_rater.py:108-111 | writes the coherence coefficient and the three readability scores of the tokenizer's lists |
| CommentRater.Rater.RateConsistency | quality_assessment/src/comment_rater.py:112-117 | writes the language, the unique words, their synonyms, the code flag and the elapsed time |
| CommentRater.Rater.RateOne | quality_assessment/src/comment_rater.py:89-117 | after one iteration every derived field of the comment is what its raw text and handle determine |
| CommentRater.Rater.RateEach | quality_assessment/src/comment_rater.py:89-117 | after the loop every comment of the list carries the fields its text and handle determine |
| CommentRater.Rater.Rate | quality_assessment/src/comment_rater.py:81-117 | every comment of the list ends up rated |
| CommentRater.RatedReadability | quality_assessment/src/comment_rater.py:109-111 | a rated comment with words and sentences has scores within the ranges of the readability bounds, the fog index at most 0.41 times words per sentence plus 100 |
| CommentScraper.LastNameNone | quality_assessment/src/comment_scraper.py:119-124 | with no child tagged `name` the handle is the empty string |
| CommentScraper.LastNameLast | quality_assessment/src/comment_scraper.py:119-124 | otherwise the handle is the text of the last child tagged `name` |
| CommentScraper.GetHandle | quality_assessment/src/comment_scraper.py:109-124 | the loop returns the text of the last direct child tagged `name`, or the empty string |
| CommentScraper.FirstBlock | quality_assessment/src/comment_scraper.py:153 | the first `block` below an element is a strictly smaller element |
| CommentScraper.GetMissingComments | quality_assessment/src/comment_scraper.py:127-157 | the loop and its recursion collect exactly the missing-comment records of the children |
| CommentScraper.MissingRecordsWellFormed | quality_assessment/src/comment_scraper.py:146-150 | every missing record names the given file and has a comment type as its type |
| CommentScraper.ReportedIsListed | quality_assessment/src/comment_scraper.py:141-150 | the record of a child at index 1 or above with a comment-type tag not preceded by a comment (the preceding check only from index 2) is among the missing records |
| CommentScraper.MissingUpToPrefix | quality_assessment/src/comment_scraper.py:141-157 | the records of the first n children come first, in order, among those of more children |
| CommentScraper.DocumentedNotSearched | quality_assessment/src/comment_scraper.py:145-156 | replacing the subtree of a child that is not reported changes no record: only reported elements are searched |
| CommentScraper.FirstChildIgnored | quality_assessment/src/comment_scraper.py:141 | the first child is never reported and never looked at |
| CommentScraper.RunEnd | quality_assessment/src/comment_scraper.py:72-79 | a run of adjacent comments ends at a comment that has no comment as its next sibling |
| CommentScraper.RunEndLinks | quality_assessment/src/comment_scraper.py:72-76 | inside a run each comment's next sibling is the following comment |
| CommentScraper.RunsPartition | quality_assessment/src/comment_scraper.py:57-95 | the runs consume every comment element exactly once and in order |
| CommentScraper.RunsShape | quality_assessment/src/comment_scraper.py:57-79 | each run is non-empty, linked by next siblings, and not followed by a comment |
| CommentScraper.RunTextJoin | quality_assessment/src/comment_scraper.py:62-73 | a run's text is its comments' texts joined by the two characters backslash and `n` |
| CommentScraper.RecordTyping | quality_assessment/src/comment_scraper.py:80-89 | the type and handle come from the following element when its tag is a comment type; otherwise the handle is None and the type is `header` exactly at `1:1`, else `in-line` |
| CommentScraper.RecordsOfRuns | quality_assessment/src/comment_scraper.py:57-95 | the scan's records are, in order, the records of the runs of adjacent comments with the blank ones dropped; a run's record has its first comment's position, its texts joined by backslash and `n`, and the type and handle the element after its last comment gives |
| CommentScraper.RecordsNonBlank | quality_assessment/src/comment_scraper.py:91-93 | every kept record has a non-blank text and the unit's file path |
| CommentScraper.HeaderRule | quality_assessment/src/comment_scraper.py:99-101 | the `1:1` header record leads a file's missing comments exactly when its first element is not a comment |
| CommentScraper.NumberedSnoc | quality_assessment/src/comment_scraper.py:93-94 | appending a comment with the next id extends the consecutive numbering by one |
| CommentScraper.MergeRun | quality_assessment/src/comment_scraper.py:64-79 | the inner loop stops at the end of the run, with the joined text and the element after it |
| CommentScraper.ScrapeRun | quality_assessment/src/comment_scraper.py:58-91 | one pass of the outer loop builds the run's record and decides whether it is kept |
| CommentScraper.Classify | quality_assessment/src/comment_scraper.py:80-89 | type and handle are the default, the header rule and the override of the following element |
| CommentScraper.IsKept | quality_assessment/src/comment_scraper.py:91 | a comment is kept iff it is not all whitespace |
| Text.BlankAfterNewlines | quality_assessment/src/comment_scraper.py:91 | removing newlines and stripping gives the empty string exactly for an all-whitespace text |
| CommentScraper.Scraper.constructor | quality_assessment/src/comment_scraper.py:20-22 | ids start at 0 |
| CommentScraper.Scraper.ScrapeFile | quality_assessment/src/comment_scraper.py:47-103 | a unit's comments carry its records with consecutive ids from the counter, which advances by their number, and its missing comments are the header rule's record then the recursive search's |
| CommentScraper.Scraper.ScrapeComments | quality_assessment/src/comment_scraper.py:56-95 | the `while` loop yields the unit's non-blank records in order, numbered consecutively without gaps |
| CommentScraper.Scraper.GetDirectoryComments | quality_assessment/src/comment_scraper.py:24-106 | all units' found comments, numbered consecutively across units, and all their missing comments, in unit order |
| CommentEvaluator.EnglishThreshold | quality_assessment/src/comment_evaluator.py:270-279 | English iff the language is `en` and the probability is not below 0.75, so 0.75 itself counts |
| CommentEvaluator.TrivialIff | quality_assessment/src/comment_evaluator.py:306-316 | trivial iff the coherence coefficient is present and above 0.5 |
| CommentEvaluator.UnrelatedNeverFlags | quality_assessment/src/comment_evaluator.py:319-329 | the predicate as written returns 0 for every row, even for a coherence of exactly 0 |
| CommentEvaluator.UnrelatedIntendedIff | quality_assessment/src/comment_evaluator.py:319-329 | the corrected predicate returns 1 exactly when the coherence is 0 |
| CommentEvaluator.FlagRowColumns | quality_assessment/src/comment_evaluator.py:77-82 | the six added columns: English, too short when fewer than 3 words, too long when an in-line comment has more than 30 words, trivial and unrelated copied from too long, and ignore iff header, code, not English, too short or missing; nothing else changes |
| CommentEvaluator.MissingRowsIgnored | quality_assessment/src/comment_evaluator.py:256-267 | a missing-comment row is always ignored |
| CommentEvaluator.MaskingChangesOnlyIgnoredCells | quality_assessment/src/comment_evaluator.py:96-106 | masking blanks the three mean cells, or the three sum cells, of the ignored rows and changes no other cell and no row that is not ignored |
| CommentEvaluator.MaskedMeansSkipIgnored | quality_assessment/src/comment_evaluator.py:96-100 | after masking, the sums and counts of the mean columns are those of the rows that are not ignored |
| CommentEvaluator.AggColumnsComplete | quality_assessment/src/comment_evaluator.py:26-31 | every column is one of the fifteen aggregated ones, and exactly `fkgls`, `frel` and `fi` are averaged |
| CommentEvaluator.MatchingMembers | quality_assessment/src/comment_evaluator.py:118 | a row is matched by a path exactly when its path contains the path as a substring |
| CommentEvaluator.Aggregate | quality_assessment/src/comment_evaluator.py:108-120 | at most one group, holding every aggregated column |
| CommentEvaluator.GetValue | quality_assessment/src/comment_evaluator.py:344-354 | an empty frame gives None |
| CommentEvaluator.Truncate | quality_assessment/src/comment_evaluator.py:132-135 | `int` truncates toward zero |
| CommentEvaluator.AggEntry | quality_assessment/src/comment_evaluator.py:122-137 | the stored value of a column is None when no row matches, else the truncated aggregate of the matching rows |
| CommentEvaluator.SumCounts | quality_assessment/src/comment_evaluator.py:26-31 | over a merged table the `count` sum is the number of found rows and the `count_missing` sum the number of missing rows |
| CommentEvaluator.AggregatedCounts | quality_assessment/src/comment_evaluator.py:122-137 | `count` is the number of found rows whose path contains the given path, `count_missing` that of such missing rows, both None when no row matches |
| CommentEvaluator.AggregatedMeans | quality_assessment/src/comment_evaluator.py:122-137 | a mean column holds the truncated average of its present cells among the matching rows, None when none is present |
| CommentEvaluator.MeanWithinBounds | quality_assessment/src/comment_evaluator.py:26-31 | a mean of cells lying in an interval lies in that interval |
| CommentEvaluator.ProjectIff | quality_assessment/src/comment_evaluator.py:19-23 | two rows give the same comment dict exactly when they agree on every column of `DF_COLUMNS` |
| CommentEvaluator.ProjectDropped | quality_assessment/src/comment_evaluator.py:89 | the drop keeps every `DF_COLUMNS` cell of a row, and dropping twice is dropping once |
| CommentEvaluator.DroppedWellFormed | quality_assessment/src/comment_evaluator.py:89 | after the drop every row still comes from the found or the missing table |
| CommentEvaluator.SumDropped | quality_assessment/src/comment_evaluator.py:89 | sums and counts of present cells of every aggregated column are the same after the drop |
| CommentEvaluator.MatchingDropped | quality_assessment/src/comment_evaluator.py:89 | the rows of a path after the drop are the dropped rows of that path |
| CommentEvaluator.AggEntriesDropped | quality_assessment/src/comment_evaluator.py:89 | the aggregated values of every path are the same after the drop |
| CommentEvaluator.CommentsDropped | quality_assessment/src/comment_evaluator.py:89 | the comment dicts of every path are the same after the drop |
| CommentEvaluator.TreeDropped | quality_assessment/src/comment_evaluator.py:89-91 | the result tree built after the drop is the one built before it |
| CommentEvaluator.ValidFileIgnoresCase | quality_assessment/src/comment_evaluator.py:332-341 | the extension test gives the same answer for a path and its lower-case form |
| CommentEvaluator.BaseNameSuffix | quality_assessment/src/comment_evaluator.py:171 | the base name is the slash-free suffix after the last slash |
| CommentEvaluator.FileYieldsNode | quality_assessment/src/comment_evaluator.py:159-198 | a file yields a node exactly when its lower-cased path ends in one of the seven extensions |
| CommentEvaluator.KidsStep | quality_assessment/src/comment_evaluator.py:181-185 | each child adds one node to the directory's children when it yields one and none otherwise, in listing order |
| CommentEvaluator.DirYieldsNode | quality_assessment/src/comment_evaluator.py:159-198 | a directory yields a node exactly when at least one child yields one |
| CommentEvaluator.TreePruned | quality_assessment/src/comment_evaluator.py:159-198 | no directory of the built tree is empty |
| CommentEvaluator.FileComments | quality_assessment/src/comment_evaluator.py:139-157 | a file node's comments are the `DF_COLUMNS` dicts of exactly the rows whose path contains the file's path, one per row, in table order |
| CommentEvaluator.WithSynonyms | quality_assessment/src/comment_evaluator.py:200-252 | the table after the synonym pass has the same rows, each synonymized with respect to the whole table |
| CommentEvaluator.SynonymsDisabled | quality_assessment/src/comment_evaluator.py:210-214 | with `syn == 0` every row gets no match and a count of 0 and nothing else changes |
| CommentEvaluator.SynonymCounts | quality_assessment/src/comment_evaluator.py:210-252 | each row's count is the length of its match list, ignored rows keep none, and only these two cells change |
| CommentEvaluator.SynonymMatchesSound | quality_assessment/src/comment_evaluator.py:218-249 | every match pairs one of the row's own words with a different word of a non-ignored comment of the same file, the row itself included, whose candidates list it, and carries the row's position |
| CommentEvaluator.MissingToRow | quality_assessment/src/comment_exporter.py:40 | a missing comment's merged row keeps its path, position, handle and type and is marked missing (`count` absent, `count_missing` 1) |
| CommentEvaluator.MissingRowCells | quality_assessment/src/comment_evaluator.py:52-66 | a flagged missing row is ignored, has no text, label or code language, and adds 1 to `count_missing` and 0 to `is_english`, `is_code`, `is_too_short`, `is_too_long` and every other aggregated column |
| CommentEvaluator.MissingRowSum | quality_assessment/src/comment_evaluator.py:52-66 | appending a flagged missing row changes no sum but `count_missing` (by 1) and no mean |
| CommentEvaluator.Merged | quality_assessment/src/comment_evaluator.py:52-66 | one row per input row: each found row with only its two marks changed, then each missing record's merged row |
| CommentEvaluator.Evaluator.constructor | quality_assessment/src/comment_evaluator.py:52-66 | the table is the marked found rows followed by the merged rows of the four-column missing records |
| CommentEvaluator.Evaluator.Evaluate | quality_assessment/src/comment_evaluator.py:68-94 | the table gets its flag columns, masks and synonym matches in that order and then loses every column outside `DF_COLUMNS`; the result is the tree of the project directory, the same tree the table gives before the drop |
| CommentEvaluator.Evaluator.NanIgnoredMeans | quality_assessment/src/comment_evaluator.py:96-100 | the table becomes its mean-masked form |
| CommentEvaluator.Evaluator.NanIgnoredSums | quality_assessment/src/comment_evaluator.py:102-106 | the table becomes its sum-masked form |
| CommentEvaluator.Evaluator.WriteAggValues | quality_assessment/src/comment_evaluator.py:122-137 | the loop stores the aggregated value of every column under the path |
| CommentEvaluator.Evaluator.GetFileComments | quality_assessment/src/comment_evaluator.py:139-157 | one dict of the `DF_COLUMNS` cells per row whose path contains the given path, in table order |
| CommentEvaluator.Evaluator.PathToDict | quality_assessment/src/comment_evaluator.py:159-198 | the recursion builds the pruned tree of the entry |
| CommentEvaluator.Evaluator.EvaluateSynonyms | quality_assessment/src/comment_evaluator.py:200-252 | the table becomes its synonym-matched form |
| CommentEvaluator.Evaluator.MatchComment | quality_assessment/src/comment_evaluator.py:230-249 | the matches of one comment's words against its file's comments, with their count |
| CommentEvaluator.Evaluator.MatchWord | quality_assessment/src/comment_evaluator.py:232-249 | the matches of one word against every non-ignored comment of the file, with their count |
| CommentEvaluator.Evaluator.MatchEntries | quality_assessment/src/comment_evaluator.py:239-249 | the matches of one word among one comment's synonym entries, with their count |
| CommentFilter.FilterColumns | quality_assessment/src/comment_filter.py:57-60 | the filtered columns are `code_language` and `label` of the exported header |
| CommentFilter.FilteredIsOneFilter | quality_assessment/src/comment_filter.py:57-60 | the two steps together keep exactly the rows meeting both active conditions, in order and with multiplicity |
| CommentFilter.FilteredRows | quality_assessment/src/comment_filter.py:49-60 | the result is an order-preserving subsequence of the table; a row is kept iff it meets every non-empty condition |
| CommentFilter.NoFilter | quality_assessment/src/comment_filter.py:57-60 | empty language and label filter nothing |
| CommentFilter.CommentFilter.constructor | quality_assessment/src/comment_filter.py:45-47 | the table is the given rows |
| CommentFilter.CommentFilter.Filter | quality_assessment/src/comment_filter.py:49-60 | the table is narrowed by language, then by label |
| BinaryClassifier.MetricsGuards | classification/src/classifiers/binary_classifier.py:51-56 | all three metrics are 0 when there is no predicted or no actual positive |
| BinaryClassifier.MetricsRatios | classification/src/classifiers/binary_classifier.py:57-64 | otherwise recall times TP+FN and precision times TP+FP give TP, and F1 is 0 for a zero sum and the harmonic mean otherwise |
| BinaryClassifier.MetricsInUnitInterval | classification/src/classifiers/binary_classifier.py:57-64 | with TP no more than either total, all three metrics lie in [0, 1] |
| BinaryClassifier.F1ZeroIff | classification/src/classifiers/binary_classifier.py:57-64 | past the guards, F1 is 0 exactly when there is no true positive |
| BinaryClassifier.HarmonicBound | classification/src/classifiers/binary_classifier.py:63 | twice the product of two numbers in [0, 1] is at most their sum |
| BinaryClassifier.HarmonicMeanInUnit | classification/src/classifiers/binary_classifier.py:63 | the F1 formula on a precision and a recall in [0, 1] with a non-zero sum gives a value in [0, 1] |
| BinaryClassifier.WordEnd | classification/src/classifiers/binary_classifier.py:156-157 | the end of the maximal run of word characters from a position |
| BinaryClassifier.RelabelledShape | classification/src/classifiers/binary_classifier.py:151-167 | a line with the classifier's label is kept as it is; any other gets `__label__other` in front of the same rest, and the rest does not start with a word character |
| BinaryClassifier.OtherLabelShape | classification/src/classifiers/binary_classifier.py:166 | `__label__other` is itself a well-formed prefix |
| BinaryClassifier.RelabelIdempotent | classification/src/classifiers/binary_classifier.py:151-167 | relabelling a relabelled line changes nothing |
| BinaryClassifier.BinaryLines | classification/src/classifiers/binary_classifier.py:178-181 | the binary data set has one line per input line |
| BinaryClassifier.BinaryLinesAt | classification/src/classifiers/binary_classifier.py:178-181 | line k of the binary data set is line k of the input with its label kept if it is the class label and replaced by the other label otherwise |
| BinaryClassifier.Slot | classification/src/classifiers/binary_classifier.py:124-128 | a Python index into a 100-element list, negative ones counted from the end, names a slot of the list |
| BinaryClassifier.Classifier.constructor | classification/src/classifiers/binary_classifier.py:75-89 | the data set is relabelled, `amount` counts the lines with the label, `enabled` holds iff it is at least 50, counters are zero, the score lists are 100 zeros and no metrics are recorded |
| BinaryClassifier.Classifier.CreateBinaryDataSet | classification/src/classifiers/binary_classifier.py:169-185 | every line is relabelled in order, `amount` is the number of lines with the label, and `enabled` holds iff `amount` is at least 50 |
| BinaryClassifier.Classifier.MatchLabel | classification/src/classifiers/binary_classifier.py:151-167 | returns the relabelled line, None without a prefix, and `amount` grows by 1 exactly when the prefix is the label |
| BinaryClassifier.Classifier.AssessResult | classification/src/classifiers/binary_classifier.py:118-128 | TP+FP grows by 1 iff the prediction is the label, TP+FN iff the answer is, TP iff both; only slot `fold` changes, and TP stays at most either total |
| BinaryClassifier.Classifier.GetBenchmarks | classification/src/classifiers/binary_classifier.py:130-149 | returns the fold's metrics, appends one record and one entry to each score list, reads the counters only, and every metric lies in [0, 1] |
| BinaryClassifier.KeyOrderKeys | classification/src/classifiers/binary_classifier.py:35-37 | the dict's insertion order lists every key once and nothing else |
| BinaryClassifier.WinnerUnique | classification/src/classifiers/binary_classifier.py:38 | at most one label wins |
| BinaryClassifier.GetCommonPrediction | classification/src/classifiers/binary_classifier.py:27-38 | None exactly for no predictions; otherwise a label whose last-written score is maximal, the first such in insertion order |
| BinaryClassifier.MaxKey | classification/src/classifiers/binary_classifier.py:38 | the first key whose score no key exceeds |
| JsonExtract.ConcatAssoc | json_extract.py:6-19 | collecting into the shared list is associative, with errors propagating |
| JsonExtract.EntriesErrorSticks | json_extract.py:9-15 | once an item of an object raises, every longer prefix raises |
| JsonExtract.ItemsErrorSticks | json_extract.py:17-18 | once an element of a list raises, every longer prefix raises |
| JsonExtract.Extract | json_extract.py:6-19 | the list afterwards is the given list followed by what the object contributes depth first, nested containers before the own-key checks; None when it raises |
| JsonExtract.ExtractEntry | json_extract.py:10-15 | one item: its nested container first, then the file marker and the text |
| JsonExtract.KeyCheck | json_extract.py:12-15 | the own-key checks of one item |
| JsonExtract.FilesCommentsHelper | json_extract.py:2-22 | the collected list of the object, from an empty list |
| JsonExtract.ExtractedSound | json_extract.py:6-19 | every collected value is a `fl:` marker of a dotted value of the key, or a non-null text value, somewhere in the document |
| JsonExtract.ExtractedComplete | json_extract.py:6-19 | conversely, every dotted string value of the key anywhere in the document is collected behind `fl:`, and every non-null `text` value is collected as it is |
| JsonExtract.PieceStartLast | json_extract.py:33 | the last piece starts right after a `fl:` and no `fl:` ends after its start |
| JsonExtract.GetFilesComments | json_extract.py:24-34 | the loop computes the pairs of the collected values, None when it raises |
| JsonExtract.MappedTexts | json_extract.py:29-33 | exactly one pair per collected value that is not a marker, in order; a marker yields none |
| JsonExtract.CurrentIsLatest | json_extract.py:28-31 | the current file is the latest marker, or the empty string before any |
| JsonExtract.LastPieceShape | json_extract.py:33 | the file name is the suffix of the marker after its last `fl:`, holds no `fl:`, and is the whole text when there is no `fl:` |
| JsonExtract.PieceStartFound | json_extract.py:33 | the last piece starts after a `fl:` exactly when the marker contains one |

## Left out

- I/O is not modelled: srcML, the XML DOM, the temporary `export.xml`, CSV and JSON reading and writing, file system walks, and `text2array`. The srcML output is a sequence of units with element trees, the file system a `Dir`/`File` tree, and tables are sequences of rows.
- The pandas outer merge of found and missing comments is modelled as concatenation with the two markers set: found rows come first, then missing rows, each built from its four columns with every other cell absent (`MissingToRow`). The source's merge joins on every shared column and sorts the result on those keys, so there found and missing rows are interleaved in key order. The model therefore only approximates the row order, and with it the order of a file node's comments (`FileComments`) and of each synonym match list.
- The `groupby('path')` order of the synonym pass is replaced by table order. That pass gives the same cells either way, because each row is written only from its own file's rows.
- The columns `evaluate` drops are cleared in each `Row` (`DropColumns`), not removed, because a row has a fixed shape. Nothing after the drop reads them (`TreeDropped`), and each comment of the result is a `CommentRecord` holding just the `DF_COLUMNS` cells.
- Paths follow POSIX `os.path` rules: `BaseName` splits only on `/` and `JoinPath` joins with `/`. On Windows, as in the source's usage example, `ntpath` also splits on `\` and joins with it.
- Synonym dictionaries are sequences of entries in insertion order; the string form `ast.literal_eval` parses is not modelled.
- Floating point is not modelled: readability scores, probabilities and means are exact reals, and `time_millis` is an elapsed time given to `Rate`.
- External models and libraries are parameters: the label predictor, fastText, WordNet, porter2 `stem`, `nltk.sent_tokenize`, and the iteration order of a Python set. `Levenshtein.distance` is defined by the usual recursion.
- Regular expressions and `str` methods are modelled on ASCII only; Unicode `\w`, `\s` and case mapping are not.
- Python list aliasing is not modelled. In `get_stats` the comment and the tokenizer share one `complex_words` list, and here they are separate values.
- When a `name` child's first child is an element rather than a text node, as in a qualified name, the source's `nodeValue` is None. The model gives None in the same case (`Element.text`, `LastName`).
- A `name` child with no children at all makes the source raise an `AttributeError`. The model has no error path for it and gives None, as for a non-text first child.
- CommentScraper.Scraper.ScrapeFile: requires each unit to have an element child and text nodes on its comments (`UnitOk`), where the source raises an `IndexError` or `AttributeError` otherwise.
- CommentScraper.Scraper.GetDirectoryComments: found comments are described by the arguments of the `Comment` constructor they are built with.
- BinaryClassifier.Classifier.constructor: requires every line to carry a `__label__` prefix (`AllLabelled`), where the source raises while building the data set.
- BinaryClassifier.Classifier.AssessResult: an index outside -100..99 raises `IndexError` in the source; here it is excluded by the requires.
- BinaryClassifier.Classifier.GetBenchmarks: the same index restriction as `AssessResult`.
- The `BinaryClassifier.__str__` summary, `oversample` (random sampling) and the training and validation harness are not modelled.
- The `main` functions of the Python files are not modelled. `quality_assessment/src/main.py` calls the filter's `main` with three arguments, while it takes four.
- CommentRater.Rater.Rate: requires the language model's labels to carry the fastText prefix (`LabelsWellFormed`); otherwise the source's `split(...)[1]` raises.
- `is_trivial` and `is_unrelated` are modelled as written (`IsTrivial`, `IsUnrelated`), but `evaluate` fills both columns from `is_too_long`, and the model does so too. Neither predicate therefore feeds the evaluator's table, the corrected one either.

## Findings

| source | as written | input that shows it | evidently intended | confidence | as-written member | corrected member |
|---|---|---|---|---|---|---|
| quality_assessment/src/comment_evaluator.py:329 | the coefficient must be truthy and equal to 0.0, two conditions that exclude each other, so the result is always 0 | a row whose coherence coefficient is 0.0 gives 0 | 1 exactly when the coherence coefficient is 0, as its documentation says | not executed | CommentEvaluator.UnrelatedNeverFlags | CommentEvaluator.UnrelatedIntendedIff |
