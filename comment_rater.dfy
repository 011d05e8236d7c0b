/**
 * The per-comment rating: abbreviations, preprocessing, label, punctuation counts, tokenizer statistics,
 * coherence with the handle, the three readability scores, language, unique words, synonym candidates
 * and the commented-code flag. The label predictor, fastText, nltk, WordNet and the porter2 stemmer are
 * outside capabilities and are passed in as functions.
 */
module CommentRater {
  import opened Wrappers
  import opened Text
  import opened Seqs
  import opened TokenPatterns
  import opened Preprocessing
  import opened CommentObject
  import Tok = Tokenizer

  // ---------------------------------------------------------------------------------------------
  // Edit distance

  /** The Levenshtein distance, by the usual recursion on the first characters. */
  function Levenshtein(a: string, b: string): nat
    decreases |a| + |b|
  {
    if a == [] then |b|
    else if b == [] then |a|
    else if a[0] == b[0] then Levenshtein(a[1..], b[1..])
    else
      var del, ins, sub := Levenshtein(a[1..], b), Levenshtein(a, b[1..]), Levenshtein(a[1..], b[1..]);
      1 + (if del <= ins && del <= sub then del else if ins <= sub then ins else sub)
  }

  /** `levenshtein_distance(a, b) < 2`: equal, or one insertion, deletion or substitution apart. */
  predicate WithinOneEdit(a: string, b: string)
    decreases |a| + |b|
  {
    if a == [] || b == [] then |a| + |b| <= 1
    else if a[0] == b[0] then WithinOneEdit(a[1..], b[1..])
    else a[1..] == b[1..] || a[1..] == b || a == b[1..]
  }

  lemma {:induction false} LevenshteinZero(a: string, b: string)
    ensures Levenshtein(a, b) == 0 <==> a == b
    decreases |a| + |b|
  {
    if a != [] && b != [] && a[0] == b[0] {
      LevenshteinZero(a[1..], b[1..]);
      if a[1..] == b[1..] { assert a == [a[0]] + a[1..] && b == [b[0]] + b[1..]; }
    }
  }

  /** The one-edit test agrees with the Levenshtein distance being below 2. */
  lemma {:induction false} WithinOneEditIsLevenshtein(a: string, b: string)
    ensures WithinOneEdit(a, b) <==> Levenshtein(a, b) < 2
    decreases |a| + |b|
  {
    if a != [] && b != [] {
      if a[0] == b[0] {
        WithinOneEditIsLevenshtein(a[1..], b[1..]);
      } else {
        LevenshteinZero(a[1..], b);
        LevenshteinZero(a, b[1..]);
        LevenshteinZero(a[1..], b[1..]);
      }
    }
  }

  // ---------------------------------------------------------------------------------------------
  // get_coherence_coefficient

  /** The parts of a handle the words are compared with: camel case split, lower-cased, split on whitespace. */
  function HandleParts(handle: string): (r: seq<string>)
    ensures forall k :: 0 <= k < |r| ==> r[k] != ""
  {
    Fields(Lower(SplitCamelCase(handle)))
  }

  /** The number of parts within one edit of `w`. */
  function MatchCount(w: string, parts: seq<string>): (n: nat)
    ensures n <= |parts|
  {
    if parts == [] then 0
    else MatchCount(w, parts[..|parts| - 1]) + (if WithinOneEdit(w, parts[|parts| - 1]) then 1 else 0)
  }

  /** The number of (word, part) pairs, the word lower-cased, that are within one edit. */
  function PairCount(ws: seq<string>, parts: seq<string>): nat
  {
    if ws == [] then 0 else PairCount(ws[..|ws| - 1], parts) + MatchCount(Lower(ws[|ws| - 1]), parts)
  }

  /** The coherence coefficient: None without a handle or without words, else the pair count per word. */
  function Coherence(words: Option<seq<string>>, lookUp: Option<string>): Option<real>
  {
    if lookUp.None? || lookUp.value == "" || words.None? || |words.value| == 0 then None
    else Some(PairCount(words.value, HandleParts(lookUp.value)) as real / |words.value| as real)
  }

  lemma {:induction false} PairCountBound(ws: seq<string>, parts: seq<string>)
    ensures PairCount(ws, parts) <= |ws| * |parts|
  {
    if ws != [] {
      PairCountBound(ws[..|ws| - 1], parts);
      assert (|ws| - 1) * |parts| + |parts| == |ws| * |parts|;
    }
  }

  /**
   * The coefficient is absent exactly when the handle is None or empty or the words are None or empty;
   * otherwise it lies between 0 and the number of handle parts (a pair count, so it can exceed 1).
   */
  lemma CoherenceRange(words: Option<seq<string>>, lookUp: Option<string>)
    ensures Coherence(words, lookUp).None? <==>
              (lookUp.None? || lookUp.value == "" || words.None? || |words.value| == 0)
    ensures Coherence(words, lookUp).Some? ==>
              0.0 <= Coherence(words, lookUp).value <= |HandleParts(lookUp.value)| as real
  {
    if Coherence(words, lookUp).Some? {
      PairRatioBound(words.value, HandleParts(lookUp.value));
    }
  }

  /** The pair count per word lies between 0 and the number of parts. */
  lemma PairRatioBound(ws: seq<string>, parts: seq<string>)
    requires |ws| > 0
    ensures 0.0 <= PairCount(ws, parts) as real / |ws| as real <= |parts| as real
  {
    PairCountBound(ws, parts);
    DivideBound(PairCount(ws, parts), |ws|, |parts|);
  }

  lemma DivideBound(c: nat, n: nat, p: nat)
    requires n > 0 && c <= n * p
    ensures 0.0 <= c as real / n as real <= p as real
  {
    var q := c as real / n as real;
    assert q * n as real == c as real;
    assert (n * p) as real == n as real * p as real;
  }

  /**
   * A worked example of the coefficient being a count of (word, part) pairs rather than of words, so that it
   * is not bounded by 1: one word that is also two of the handle's parts gives a coefficient of 2.
   */
  lemma CoherenceAboveOne()
    ensures Coherence(Some(["get"]), Some("getGet")) == Some(2.0)
  {
    GetGetParts();
    GetGetPairs();
  }

  /** The word `get` is within one edit of both parts `get`. */
  lemma GetGetPairs()
    ensures PairCount(["get"], ["get", "get"]) == 2
  {
    var parts := ["get", "get"];
    WithinOneEditSelf("get");
    assert Lower("get") == "get";
    assert ["get"][..0] == [];
    assert parts[..1] == ["get"] && parts[..1][..0] == [];
    assert MatchCount("get", parts[..1]) == 1;
  }

  /** Every string is within one edit of itself. */
  lemma {:induction false} WithinOneEditSelf(a: string)
    ensures WithinOneEdit(a, a)
    decreases |a|
  {
    if a != [] {
      WithinOneEditSelf(a[1..]);
    }
  }

  /** The handle `getGet` splits into the parts `get` and `get`. */
  lemma GetGetParts()
    ensures HandleParts("getGet") == ["get", "get"]
  {
    GetGetCamel();
    GetGetLower();
    GetGetFields();
  }

  lemma GetGetLower()
    ensures Lower("get Get") == "get get"
  {
  }

  lemma GetGetCamel()
    ensures SplitCamelCase("getGet") == "get Get"
  {
    var h := "getGet";
    assert CamelBreak(h, 3) && !CamelBreak(h, 0) && !CamelBreak(h, 1) && !CamelBreak(h, 2);
    assert !CamelBreak(h, 4) && !CamelBreak(h, 5);
    assert CamelFrom(h, 6) == "";
    assert CamelFrom(h, 3) == " Get";
  }

  lemma GetGetFields()
    ensures Fields("get get") == ["get", "get"]
  {
    assert SplitWs("get get") == ["get", "get"] by {
      SplitJoin(["get", "get"]);
      assert Join(" ", ["get", "get"]) == "get get";
    }
    assert ["get", "get"][1..] == ["get"];
    assert ["get"][1..] == [];
  }

  /** `get_coherence_coefficient(words, look_up)`: two nested loops counting the close pairs. */
  method GetCoherenceCoefficient(words: Option<seq<string>>, lookUp: Option<string>) returns (cc: Option<real>)
    ensures cc == Coherence(words, lookUp)
  {
    if lookUp.None? || lookUp.value == "" || words.None? || |words.value| == 0 {
      return None;
    }
    var similarWords := 0;
    var parts := HandleParts(lookUp.value);
    var ws := words.value;
    var i := 0;
    while i < |ws|
      invariant 0 <= i <= |ws|
      invariant similarWords == PairCount(ws[..i], parts)
    {
      var word := Lower(ws[i]);
      var j := 0;
      while j < |parts|
        invariant 0 <= j <= |parts|
        invariant similarWords == PairCount(ws[..i], parts) + MatchCount(word, parts[..j])
      {
        assert parts[..j + 1][..j] == parts[..j];
        if WithinOneEdit(word, parts[j]) {
          similarWords := similarWords + 1;
        }
        j := j + 1;
      }
      assert parts[..j] == parts;
      assert ws[..i + 1][..i] == ws[..i];
      i := i + 1;
    }
    assert ws[..i] == ws;
    cc := Some(similarWords as real / |ws| as real);
  }

  // ---------------------------------------------------------------------------------------------
  // is_commented_code

  /** The characters `=+&|;` the heuristic counts. */
  const CodeSymbols: seq<char> := ['=', '+', '&', '|', ';']

  /** The number of positions of `s` holding one of `ms`. */
  function SymbolCount(s: string, ms: seq<char>): nat
  {
    if s == [] then 0 else (if s[0] in ms then 1 else 0) + SymbolCount(s[1..], ms)
  }

  /** The sum of `s.count(m)` over the characters `m` of `ms`. */
  function CountEach(s: string, ms: seq<char>): nat
  {
    if ms == [] then 0 else CountEach(s, ms[..|ms| - 1]) + Count(s, ms[|ms| - 1])
  }

  /** The flag `is_commented_code` computes from a comment's raw text. */
  function CodeFlag(text: string): nat
  {
    if SymbolCount(text, CodeSymbols) > 3 then 1 else 0
  }

  lemma {:induction false} CountEachHead(s: string, ms: seq<char>)
    requires s != [] && NoDuplicates(ms)
    ensures CountEach(s, ms) == (if s[0] in ms then 1 else 0) + CountEach(s[1..], ms)
  {
    if ms != [] {
      var init := ms[..|ms| - 1];
      assert NoDuplicates(init);
      CountEachHead(s, init);
      assert ms == init + [ms[|ms| - 1]];
      assert s[0] in ms <==> s[0] in init || s[0] == ms[|ms| - 1];
      assert ms[|ms| - 1] !in init;
    }
  }

  /** Summing the count of each distinct character is counting the positions holding any of them. */
  lemma {:induction false} CountEachIsSymbolCount(s: string, ms: seq<char>)
    requires NoDuplicates(ms)
    ensures CountEach(s, ms) == SymbolCount(s, ms)
  {
    if s == [] {
      CountEachEmpty(ms);
    } else {
      CountEachHead(s, ms);
      CountEachIsSymbolCount(s[1..], ms);
    }
  }

  lemma {:induction false} CountEachEmpty(ms: seq<char>)
    ensures CountEach([], ms) == 0
  {
    if ms != [] { CountEachEmpty(ms[..|ms| - 1]); }
  }

  /** `is_commented_code(comment)`: adds up the count of each of the five symbols and compares with 3. */
  method IsCommentedCode(comment: Comment) returns (flag: nat)
    ensures flag == CodeFlag(comment.text)
    ensures flag == 1 <==> SymbolCount(comment.text, CodeSymbols) >= 4
  {
    var matchers := CodeSymbols;
    var res := 0;
    var k := 0;
    while k < |matchers|
      invariant 0 <= k <= |matchers|
      invariant res == CountEach(comment.text, matchers[..k])
    {
      assert matchers[..k + 1][..k] == matchers[..k];
      res := res + Count(comment.text, matchers[k]);
      k := k + 1;
    }
    assert matchers[..k] == matchers;
    CountEachIsSymbolCount(comment.text, CodeSymbols);
    if res > 3 {
      return 1;
    }
    return 0;
  }

  // ---------------------------------------------------------------------------------------------
  // Readability

  /** `get_flesch_kincaid_grade_level` on the tokenizer's counts. */
  function FleschKincaidGradeLevel(syllables: nat, words: nat, sentences: nat): real
  {
    if sentences == 0 || words == 0 then 0.0
    else 11.8 * (syllables as real / words as real) + 0.39 * (words as real / sentences as real) - 15.59
  }

  /** `get_flesch_reading_ease_level` on the tokenizer's counts. */
  function FleschReadingEase(syllables: nat, words: nat, sentences: nat): real
  {
    if sentences == 0 || words == 0 then 0.0
    else 206.835 - 1.015 * (words as real / sentences as real) - 84.6 * syllables as real / words as real
  }

  /** `get_fog_index` on the tokenizer's counts; the factor is 0.41. */
  function FogIndex(sentences: nat, words: nat, complexWords: nat): real
  {
    if sentences == 0 || words == 0 then 0.0
    else (words as real / sentences as real + complexWords as real / words as real * 100.0) * 0.41
  }

  lemma RatioAtLeastOne(y: real, w: real)
    requires w > 0.0 && y >= w
    ensures y / w >= 1.0
  {
    assert y / w * w == y;
  }

  lemma RatioAtMostOne(c: real, w: real)
    requires w > 0.0 && 0.0 <= c <= w
    ensures 0.0 <= c / w <= 1.0
  {
    assert c / w * w == c;
  }

  /**
   * With at least one sentence and every word having a syllable, the grade level is above -3.79 and the
   * reading ease below 122.235; with complex words among the words, the fog index lies in
   * (0, 0.41 * (words per sentence + 100)].
   */
  lemma ReadabilityBounds(syllables: nat, words: nat, sentences: nat, complexWords: nat)
    requires sentences >= 1 && words >= 1 && syllables >= words && complexWords <= words
    ensures FleschKincaidGradeLevel(syllables, words, sentences) > -3.79
    ensures FleschReadingEase(syllables, words, sentences) < 122.235
    ensures 0.0 < FogIndex(sentences, words, complexWords)
              <= 0.41 * (words as real / sentences as real + 100.0)
  {
    var y, w, s := syllables as real, words as real, sentences as real;
    RatioAtLeastOne(y, w);
    RatioAtMostOne(complexWords as real, w);
    assert w / s > 0.0;
    assert 84.6 * y / w == 84.6 * (y / w);
  }

  /** All three scores are 0 without sentences or without words. */
  lemma ReadabilityGuards(syllables: nat, words: nat, sentences: nat, complexWords: nat)
    requires sentences == 0 || words == 0
    ensures FleschKincaidGradeLevel(syllables, words, sentences) == 0.0
    ensures FleschReadingEase(syllables, words, sentences) == 0.0
    ensures FogIndex(sentences, words, complexWords) == 0.0
  {
  }

  /** More syllables for the same words and sentences raise the grade level and lower the reading ease. */
  lemma ReadabilityMonotone(y1: nat, y2: nat, words: nat, sentences: nat)
    requires y1 <= y2
    ensures FleschKincaidGradeLevel(y1, words, sentences) <= FleschKincaidGradeLevel(y2, words, sentences)
    ensures FleschReadingEase(y1, words, sentences) >= FleschReadingEase(y2, words, sentences)
  {
    if sentences != 0 && words != 0 {
      var w := words as real;
      assert y1 as real / w <= y2 as real / w by {
        assert y1 as real / w * w == y1 as real;
        assert y2 as real / w * w == y2 as real;
      }
      assert 84.6 * y1 as real / w == 84.6 * (y1 as real / w);
      assert 84.6 * y2 as real / w == 84.6 * (y2 as real / w);
    }
  }

  // ---------------------------------------------------------------------------------------------
  // get_language

  /** The prefix fastText puts in front of every label. */
  const LabelPrefix: string := "__label__"

  /** `s.split(sep)` for a non-empty separator: the pieces between non-overlapping left-to-right occurrences. */
  function SplitAt(s: string, sep: string): (r: seq<string>)
    requires |sep| > 0
    ensures |r| >= 1
    decreases |s|
  {
    if |s| < |sep| then [s]
    else if s[..|sep|] == sep then [""] + SplitAt(s[|sep|..], sep)
    else
      var rest := SplitAt(s[1..], sep);
      [[s[0]] + rest[0]] + rest[1..]
  }

  /** Joining the pieces with the separator gives the string back. */
  lemma {:induction false} SplitAtJoin(s: string, sep: string)
    requires |sep| > 0
    ensures Join(sep, SplitAt(s, sep)) == s
    decreases |s|
  {
    if |s| >= |sep| {
      if s[..|sep|] == sep {
        SplitAtJoin(s[|sep|..], sep);
        var rest := SplitAt(s[|sep|..], sep);
        assert Join(sep, [""] + rest) == "" + sep + Join(sep, rest);
        assert s == s[..|sep|] + s[|sep|..];
      } else {
        SplitAtJoin(s[1..], sep);
        var rest := SplitAt(s[1..], sep);
        JoinHead(s[0], rest, sep);
        assert s == [s[0]] + s[1..];
      }
    }
  }

  lemma JoinHead(c: char, ps: seq<string>, sep: string)
    requires |ps| >= 1
    ensures Join(sep, [[c] + ps[0]] + ps[1..]) == [c] + Join(sep, ps)
  {
    if |ps| == 1 {
    } else {
      assert ([[c] + ps[0]] + ps[1..])[1..] == ps[1..];
    }
  }

  lemma {:induction false} SplitAtAbsent(s: string, sep: string)
    requires |sep| > 0 && !Contains(s, sep)
    ensures SplitAt(s, sep) == [s]
    decreases |s|
  {
    if |s| >= |sep| {
      assert s[..|sep|] != sep;
      SplitAtAbsent(s[1..], sep);
      assert [s[0]] + s[1..] == s;
    }
  }

  /** `label.split('__label__')[1]`: defined when the label contains the prefix at least once. */
  function LanguageCode(tag: string): string
    requires |SplitAt(tag, LabelPrefix)| >= 2
  {
    SplitAt(tag, LabelPrefix)[1]
  }

  /** A fastText label gives back the language code it was built from. */
  lemma LanguageCodeOfLabel(code: string)
    requires !Contains(code, LabelPrefix)
    ensures |SplitAt(LabelPrefix + code, LabelPrefix)| >= 2
    ensures LanguageCode(LabelPrefix + code) == code
  {
    var s := LabelPrefix + code;
    assert s[..|LabelPrefix|] == LabelPrefix;
    assert s[|LabelPrefix|..] == code;
    SplitAtAbsent(code, LabelPrefix);
  }

  // ---------------------------------------------------------------------------------------------
  // get_synonyms

  /** The test a lemma name must pass to become a candidate synonym of `word`. */
  predicate Acceptable(w: string, word: string, stem: string -> string)
  {
    '_' !in w && word != w && stem(w) != stem(word)
  }

  /** The candidate list built from the lemma names `names`, in order, each added once. */
  function Candidates(names: seq<string>, word: string, stem: string -> string): seq<string>
  {
    if names == [] then []
    else
      var t := Candidates(names[..|names| - 1], word, stem);
      var w := names[|names| - 1];
      if Acceptable(w, word, stem) && w !in t then t + [w] else t
  }

  lemma CandidatesExtend(names: seq<string>, w: string, word: string, stem: string -> string)
    ensures var t := Candidates(names, word, stem);
            Candidates(names + [w], word, stem) == if Acceptable(w, word, stem) && w !in t then t + [w] else t
  {
    assert (names + [w])[..|names|] == names;
  }

  /**
   * The candidates are duplicate-free, and they are exactly the lemma names that have no `_`, differ
   * from the word and do not share its stem.
   */
  lemma {:induction false} CandidatesShape(names: seq<string>, word: string, stem: string -> string)
    ensures NoDuplicates(Candidates(names, word, stem))
    ensures forall w :: w in Candidates(names, word, stem) <==> w in names && Acceptable(w, word, stem)
  {
    if names != [] {
      var init := names[..|names| - 1];
      CandidatesShape(init, word, stem);
      assert names == init + [names[|names| - 1]];
    }
  }

  /** The dict insertion `d[k] = v`: an existing key keeps its place, a new key goes last. */
  function DictPut(d: seq<SynonymEntry>, k: string, v: seq<string>): (r: seq<SynonymEntry>)
    ensures |r| == |d| || r == d + [SynonymEntry(k, v)]
  {
    if d == [] then [SynonymEntry(k, v)]
    else if d[0].word == k then [SynonymEntry(k, v)] + d[1..]
    else [d[0]] + DictPut(d[1..], k, v)
  }

  function KeysOf(d: seq<SynonymEntry>): (r: seq<string>)
    ensures |r| == |d| && forall i :: 0 <= i < |d| ==> r[i] == d[i].word
  {
    if d == [] then [] else [d[0].word] + KeysOf(d[1..])
  }

  /** The dict `get_synonyms` builds: one entry per word, with the candidates of all its synsets' lemma names. */
  function SynonymDict(words: seq<string>, synsets: string -> seq<seq<string>>, stem: string -> string): seq<SynonymEntry>
  {
    if words == [] then []
    else
      var word := words[|words| - 1];
      DictPut(SynonymDict(words[..|words| - 1], synsets, stem), word, Candidates(Flatten(synsets(word)), word, stem))
  }

  lemma {:induction false} DictPutAbsent(d: seq<SynonymEntry>, k: string, v: seq<string>)
    requires k !in KeysOf(d)
    ensures DictPut(d, k, v) == d + [SynonymEntry(k, v)]
  {
    if d != [] {
      assert k != KeysOf(d)[0];
      assert KeysOf(d[1..]) == KeysOf(d)[1..];
      DictPutAbsent(d[1..], k, v);
    }
  }

  /**
   * Storing under a key the dict already has, at index `i` (the key's first and, in a dict, only entry),
   * keeps the size, replaces that entry where it stands and leaves every other entry as it was.
   */
  lemma {:induction false} DictPutPresent(d: seq<SynonymEntry>, k: string, v: seq<string>, i: nat)
    requires i < |d| && d[i].word == k
    requires forall j :: 0 <= j < i ==> d[j].word != k
    ensures |DictPut(d, k, v)| == |d|
    ensures DictPut(d, k, v)[i] == SynonymEntry(k, v)
    ensures forall j :: 0 <= j < |d| && j != i ==> DictPut(d, k, v)[j] == d[j]
  {
    if d[0].word != k {
      DictPutPresent(d[1..], k, v, i - 1);
      assert DictPut(d, k, v) == [d[0]] + DictPut(d[1..], k, v);
    }
  }

  lemma {:induction false} DictPutKeys(d: seq<SynonymEntry>, k: string, v: seq<string>)
    ensures forall w :: w in KeysOf(DictPut(d, k, v)) <==> w in KeysOf(d) || w == k
  {
    if d != [] {
      DictPutKeys(d[1..], k, v);
      if d[0].word == k {
        assert DictPut(d, k, v)[1..] == d[1..];
      } else {
        assert DictPut(d, k, v)[1..] == DictPut(d[1..], k, v);
      }
    }
  }

  /** The keys of the dict are exactly the words. */
  lemma {:induction false} SynonymDictKeys(words: seq<string>, synsets: string -> seq<seq<string>>, stem: string -> string)
    ensures forall w :: w in KeysOf(SynonymDict(words, synsets, stem)) <==> w in words
  {
    if words != [] {
      var init := words[..|words| - 1];
      var word := words[|words| - 1];
      SynonymDictKeys(init, synsets, stem);
      DictPutKeys(SynonymDict(init, synsets, stem), word, Candidates(Flatten(synsets(word)), word, stem));
      assert words == init + [word];
    }
  }

  /** For duplicate-free words, entry k is word k with its candidates, so each list has the shape of `CandidatesShape`. */
  lemma {:induction false} SynonymDictEntries(words: seq<string>, synsets: string -> seq<seq<string>>, stem: string -> string)
    requires NoDuplicates(words)
    ensures |SynonymDict(words, synsets, stem)| == |words|
    ensures forall k :: 0 <= k < |words| ==>
              SynonymDict(words, synsets, stem)[k] ==
                SynonymEntry(words[k], Candidates(Flatten(synsets(words[k])), words[k], stem))
  {
    if words != [] {
      var init := words[..|words| - 1];
      var word := words[|words| - 1];
      assert NoDuplicates(init);
      SynonymDictEntries(init, synsets, stem);
      SynonymDictKeys(init, synsets, stem);
      assert word !in init;
      DictPutAbsent(SynonymDict(init, synsets, stem), word, Candidates(Flatten(synsets(word)), word, stem));
    }
  }

  /** `get_synonyms(words)`: for each word, every lemma name of every synset, filtered into `tmp`. */
  method GetSynonyms(words: seq<string>, synsets: string -> seq<seq<string>>, stem: string -> string)
    returns (res: seq<SynonymEntry>)
    ensures res == SynonymDict(words, synsets, stem)
  {
    res := [];
    var i := 0;
    while i < |words|
      invariant 0 <= i <= |words|
      invariant res == SynonymDict(words[..i], synsets, stem)
    {
      var word := words[i];
      var tmp := SynsetCandidates(word, synsets(word), stem);
      assert words[..i + 1][..i] == words[..i];
      res := DictPut(res, word, tmp);
      i := i + 1;
    }
    assert words[..i] == words;
  }

  /** The two inner loops of `get_synonyms`: the candidates among the lemma names of all synsets of `word`. */
  method SynsetCandidates(word: string, synets: seq<seq<string>>, stem: string -> string) returns (tmp: seq<string>)
    ensures tmp == Candidates(Flatten(synets), word, stem)
  {
    tmp := [];
    var j := 0;
    while j < |synets|
      invariant 0 <= j <= |synets|
      invariant tmp == Candidates(Flatten(synets[..j]), word, stem)
    {
      ghost var before := Flatten(synets[..j]);
      tmp := AddCandidates(tmp, before, synets[j], word, stem);
      assert synets[..j + 1] == synets[..j] + [synets[j]];
      FlattenAppend(synets[..j], [synets[j]]);
      assert [synets[j]][1..] == [];
      assert Flatten([synets[j]]) == synets[j] + [];
      assert Flatten(synets[..j + 1]) == before + synets[j];
      j := j + 1;
    }
    assert synets[..j] == synets;
  }

  lemma AppendOneMore<T>(a: seq<T>, b: seq<T>, k: nat)
    requires k < |b|
    ensures a + b[..k + 1] == (a + b[..k]) + [b[k]]
  {
    assert b[..k + 1] == b[..k] + [b[k]];
  }

  /** The innermost loop of `get_synonyms`: the lemma names of one synset, appended to `tmp` when acceptable and new. */
  method AddCandidates(tmp0: seq<string>, ghost before: seq<string>, names: seq<string>, word: string, stem: string -> string)
    returns (tmp: seq<string>)
    requires tmp0 == Candidates(before, word, stem)
    ensures tmp == Candidates(before + names, word, stem)
  {
    tmp := tmp0;
    var k := 0;
    assert before + names[..0] == before;
    while k < |names|
      invariant 0 <= k <= |names|
      invariant tmp == Candidates(before + names[..k], word, stem)
    {
      var w := names[k];
      AppendOneMore(before, names, k);
      CandidatesExtend(before + names[..k], w, word, stem);
      if '_' !in w && word != w && w !in tmp && stem(w) != stem(word) {
        tmp := tmp + [w];
      }
      k := k + 1;
    }
    assert names[..k] == names;
  }

  // ---------------------------------------------------------------------------------------------
  // The rater

  lemma EmptyAppend<T>(e: seq<T>, s: seq<T>)
    requires e == []
    ensures e + s == s
  {
  }

  /** `set(re.split(r"\s+", text)).intersection(keys)`. */
  function AbbreviationsIn(text: string, keys: set<string>): (r: set<string>)
    ensures r <= keys
    ensures forall w :: w in r <==> w in SplitWs(text) && w in keys
  {
    set w | w in SplitWs(text) && w in keys
  }

  /**
   * The rater with its loaded resources: the keys of the abbreviation list, the English stopwords and the
   * outside capabilities it calls. `tokenizer` is the one of the comment rated last.
   */
  class Rater {
    const abbreviations: set<string>
    const stopwords: set<string>
    const predict: string -> (string, real)
    const identifyLanguage: string -> (string, real)
    const sentTokenize: string -> seq<string>
    const synsets: string -> seq<seq<string>>
    const stem: string -> string
    const setOrder: seq<string> -> seq<string>
    var tokenizer: Tok.Tokenizer?

    constructor (abbreviations: set<string>, stopwords: set<string>, predict: string -> (string, real),
                 identifyLanguage: string -> (string, real), sentTokenize: string -> seq<string>,
                 synsets: string -> seq<seq<string>>, stem: string -> string, setOrder: seq<string> -> seq<string>)
      ensures this.abbreviations == abbreviations && this.stopwords == stopwords && this.predict == predict
      ensures this.identifyLanguage == identifyLanguage && this.sentTokenize == sentTokenize
      ensures this.synsets == synsets && this.stem == stem && this.setOrder == setOrder && tokenizer == null
    {
      this.abbreviations, this.stopwords, this.predict := abbreviations, stopwords, predict;
      this.identifyLanguage, this.sentTokenize := identifyLanguage, sentTokenize;
      this.synsets, this.stem, this.setOrder := synsets, stem, setOrder;
      tokenizer := null;
    }

    /** Every label the language model returns contains the fastText prefix, so `[1]` of its split exists. */
    ghost predicate LabelsWellFormed()
    {
      forall t :: |SplitAt(identifyLanguage(t).0, LabelPrefix)| >= 2
    }

    /** `list(set(xs))` lists each element of `xs` once, in some order. */
    ghost predicate SetOrderWellFormed()
    {
      forall xs :: NoDuplicates(setOrder(xs)) && (forall w :: w in setOrder(xs) <==> w in xs)
    }

    /** The processed text `rate` derives from a comment's raw text. */
    function ProcessedOf(text: string): string
    {
      PreprocessText(text, AbbreviationsIn(text, abbreviations))
    }

    /** `get_unique_words_swr` on the words `ws`: the distinct words in set order, stopwords left out. */
    function UniqueWordsSwr(ws: seq<string>): seq<string>
    {
      Filter(setOrder(ws), w => w !in stopwords)
    }

    /** The unique words are duplicate-free and are exactly the words that are not stopwords. */
    lemma UniqueWordsSwrShape(ws: seq<string>)
      requires SetOrderWellFormed()
      ensures NoDuplicates(UniqueWordsSwr(ws))
      ensures forall w :: w in UniqueWordsSwr(ws) <==> w in ws && w !in stopwords
    {
      var p := (w: string) => w !in stopwords;
      FilterMembers(setOrder(ws), p);
      FilterIsSubsequence(setOrder(ws), p);
      SubsequenceNoDuplicates(Filter(setOrder(ws), p), setOrder(ws));
    }

    /**
     * The fields `rate` derives for a comment with raw text `text` and handle `handle`: the processed
     * text, the tokenizer's lists of a fresh tokenizer on it, and everything computed from those.
     */
    ghost function Expected(text: string, handle: Option<string>): (r: Ratings)
      requires LabelsWellFormed()
    {
      var abbr := AbbreviationsIn(text, abbreviations);
      var pt := PreprocessText(text, abbr);
      var ws := Words(pt);
      var sents := sentTokenize(pt);
      var syl := FlatMap(ws, SyllablesOf);
      var complex := Filter(ws, IsComplex);
      var lang := identifyLanguage(pt);
      var unique := UniqueWordsSwr(ws);
      Ratings(Some(abbr), Some(pt), Some(predict(pt).0), Some(predict(pt).1),
              Some(Count(text, '?')), Some(Count(text, '!')),
              Some(ws), Some(complex), Some(sents), Some(syl),
              Coherence(Some(ws), handle), Some(FogIndex(|sents|, |ws|, |complex|)),
              Some(FleschKincaidGradeLevel(|syl|, |ws|, |sents|)), Some(FleschReadingEase(|syl|, |ws|, |sents|)),
              Some((LanguageCode(lang.0), lang.1)), Some(unique), Some(SynonymDict(unique, synsets, stem)),
              CodeFlag(text))
    }

    /** What `rate` leaves in a comment: the derived fields of its raw text and handle, and a processing time. */
    ghost predicate Rated(c: Comment)
      reads c
      requires LabelsWellFormed()
    {
      c.Derived() == Expected(c.text, c.handle) && c.timeMillis.Some?
    }

    /**
     * `want` gives, for every raw text and handle, the fields `Expected` gives. The steps of `rate` are
     * stated against such a function, so that the chain of steps only hands on which field was written.
     */
    ghost predicate Specifies(want: (string, Option<string>) -> Ratings)
      requires LabelsWellFormed()
    {
      forall t, h {:trigger Expected(t, h)} :: want(t, h) == Expected(t, h)
    }

    /** The first steps of `rate` for one comment: abbreviations, preprocessing, label and punctuation counts. */
    method RateText(comment: Comment, ghost want: (string, Option<string>) -> Ratings)
      requires LabelsWellFormed() && Specifies(want)
      modifies comment`abbreviations, comment`processedText, comment`commentLabel, comment`labelProbability
      modifies comment`questionMarks, comment`exclamationMarks
      ensures var r := want(comment.text, comment.handle);
        && comment.abbreviations == r.abbreviations && comment.processedText == r.processedText
        && comment.commentLabel == r.commentLabel && comment.labelProbability == r.labelProbability
        && comment.questionMarks == r.questionMarks && comment.exclamationMarks == r.exclamationMarks
      ensures comment.processedText.Some?
    {
      assert want(comment.text, comment.handle) == Expected(comment.text, comment.handle);
      var abbr := AbbreviationsIn(comment.text, abbreviations);
      comment.abbreviations := Some(abbr);
      Preprocess(comment);
      var pt := comment.processedText.value;
      var t := predict(pt);
      comment.commentLabel, comment.labelProbability := Some(t.0), Some(t.1);
      comment.questionMarks, comment.exclamationMarks := Some(Count(comment.text, '?')), Some(Count(comment.text, '!'));
    }

    /** A new tokenizer for the comment, whose statistics it writes into the comment. */
    method Tokenize(comment: Comment, ghost want: (string, Option<string>) -> Ratings)
      requires LabelsWellFormed() && Specifies(want)
      requires comment.processedText.Some? && comment.processedText == want(comment.text, comment.handle).processedText
      modifies this`tokenizer, comment`words, comment`complexWords, comment`sentences, comment`syllables
      ensures var r := want(comment.text, comment.handle);
        && comment.words == r.words && comment.sentences == r.sentences
        && comment.syllables == r.syllables && comment.complexWords == r.complexWords
      ensures tokenizer != null && fresh(tokenizer)
      ensures Some(tokenizer.words) == comment.words && Some(tokenizer.sentences) == comment.sentences
      ensures Some(tokenizer.syllables) == comment.syllables && Some(tokenizer.complexWords) == comment.complexWords
    {
      assert want(comment.text, comment.handle) == Expected(comment.text, comment.handle);
      var tok := new Tok.Tokenizer();
      tokenizer := tok;
      ghost var syl0, complex0 := tok.syllables, tok.complexWords;
      tok.GetStats(comment, sentTokenize);
      ghost var ws := tok.words;
      EmptyAppend(syl0, FlatMap(ws, SyllablesOf));
      EmptyAppend(complex0, Filter(ws, IsComplex));
    }

    /** The coherence coefficient and the readability scores, from the current tokenizer. */
    method RateScores(comment: Comment, ghost want: (string, Option<string>) -> Ratings)
      requires LabelsWellFormed() && Specifies(want) && tokenizer != null
      requires Some(tokenizer.words) == comment.words && Some(tokenizer.sentences) == comment.sentences
      requires Some(tokenizer.syllables) == comment.syllables && Some(tokenizer.complexWords) == comment.complexWords
      requires var r := want(comment.text, comment.handle);
        && comment.words == r.words && comment.sentences == r.sentences
        && comment.syllables == r.syllables && comment.complexWords == r.complexWords
      modifies comment`coherenceCoefficient, comment`fogIndex, comment`fleschKincaidGradeLevel
      modifies comment`fleschReadingEaseLevel
      ensures var r := want(comment.text, comment.handle);
        && comment.coherenceCoefficient == r.coherenceCoefficient && comment.fogIndex == r.fogIndex
        && comment.fleschKincaidGradeLevel == r.fleschKincaidGradeLevel
        && comment.fleschReadingEaseLevel == r.fleschReadingEaseLevel
    {
      assert want(comment.text, comment.handle) == Expected(comment.text, comment.handle);
      var tok := tokenizer;
      var cc := GetCoherenceCoefficient(comment.words, comment.handle);
      comment.coherenceCoefficient := cc;
      comment.fogIndex := Some(FogIndex(|tok.sentences|, |tok.words|, |tok.complexWords|));
      comment.fleschKincaidGradeLevel := Some(FleschKincaidGradeLevel(|tok.syllables|, |tok.words|, |tok.sentences|));
      comment.fleschReadingEaseLevel := Some(FleschReadingEase(|tok.syllables|, |tok.words|, |tok.sentences|));
    }

    /** The last steps of `rate` for one comment: language, unique words, synonyms, code flag and time. */
    method RateConsistency(comment: Comment, elapsed: real, ghost want: (string, Option<string>) -> Ratings)
      requires LabelsWellFormed() && Specifies(want) && tokenizer != null
      requires comment.processedText.Some? && comment.words == Some(tokenizer.words)
      requires var r := want(comment.text, comment.handle);
        comment.processedText == r.processedText && comment.words == r.words
      modifies comment`language, comment`uniqueWordsSwr, comment`synonyms, comment`isCode, comment`timeMillis
      ensures var r := want(comment.text, comment.handle);
        && comment.language == r.language && comment.uniqueWordsSwr == r.uniqueWordsSwr
        && comment.synonyms == r.synonyms && comment.isCode == r.isCode
      ensures comment.timeMillis == Some(elapsed)
    {
      assert want(comment.text, comment.handle) == Expected(comment.text, comment.handle);
      var lang := identifyLanguage(comment.processedText.value);
      var unique := UniqueWordsSwr(tokenizer.words);
      var syn := GetSynonyms(unique, synsets, stem);
      var code := IsCommentedCode(comment);
      comment.language, comment.uniqueWordsSwr, comment.synonyms := Some((LanguageCode(lang.0), lang.1)), Some(unique), Some(syn);
      comment.isCode, comment.timeMillis := code, Some(elapsed);
    }

    /**
     * One iteration of `rate`: every derived field of `comment` is written as `want`, that is `Expected`,
     * gives it, and a new tokenizer is left in the rater; `elapsed` stands for the clock.
     */
    method RateOne(comment: Comment, elapsed: real, ghost want: (string, Option<string>) -> Ratings)
      requires LabelsWellFormed() && Specifies(want)
      modifies this, comment
      ensures comment.Derived() == want(comment.text, comment.handle) && comment.timeMillis == Some(elapsed)
      ensures tokenizer != null && fresh(tokenizer)
    {
      RateText(comment, want);
      Tokenize(comment, want);
      RateScores(comment, want);
      RateConsistency(comment, elapsed, want);
    }

    /** The loop of `rate`, against `want`. */
    method RateEach(comments: seq<Comment>, elapsed: seq<real>, ghost want: (string, Option<string>) -> Ratings)
      requires LabelsWellFormed() && Specifies(want) && |elapsed| == |comments|
      modifies this, comments
      ensures forall k :: 0 <= k < |comments| ==>
        comments[k].Derived() == want(comments[k].text, comments[k].handle) && comments[k].timeMillis.Some?
    {
      var i := 0;
      while i < |comments|
        invariant 0 <= i <= |comments|
        invariant forall k :: 0 <= k < i ==>
          comments[k].Derived() == want(comments[k].text, comments[k].handle) && comments[k].timeMillis.Some?
      {
        RateOne(comments[i], elapsed[i], want);
        i := i + 1;
      }
    }

    /**
     * `rate(comments)`: every comment of the list ends up rated. `elapsed[k]` stands for the time the
     * clock measures for the k-th comment.
     */
    method Rate(comments: seq<Comment>, elapsed: seq<real>)
      requires LabelsWellFormed() && |elapsed| == |comments|
      modifies this, comments
      ensures forall k :: 0 <= k < |comments| ==> Rated(comments[k])
    {
      ghost var want := (t: string, h: Option<string>) => Expected(t, h);
      RateEach(comments, elapsed, want);
    }
  }

  /** For a rated comment with words and sentences, the scores lie in the ranges of `ReadabilityBounds`. */
  lemma RatedReadability(r: Rater, c: Comment)
    requires r.LabelsWellFormed() && r.Rated(c)
    requires |c.words.value| >= 1 && |c.sentences.value| >= 1
    ensures c.fleschKincaidGradeLevel.value > -3.79 && c.fleschReadingEaseLevel.value < 122.235
    ensures 0.0 < c.fogIndex.value <= 0.41 * (|c.words.value| as real / |c.sentences.value| as real + 100.0)
  {
    var ws := c.words.value;
    FilterMembers(RawWords(Strip(Lower(c.processedText.value))), KeepWord);
    SyllablesAtLeastWords(ws);
    ReadabilityBounds(|c.syllables.value|, |ws|, |c.sentences.value|, |c.complexWords.value|);
  }
}
