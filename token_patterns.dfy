/**
 * The regular expressions of the tokenizer as left-to-right scanners: the word pattern `[a-z][-'a-z]*`,
 * the vowel test, the valid-hyphen pattern and the syllable pattern `C*V+C*`, with what they guarantee.
 */
module TokenPatterns {
  import opened Wrappers
  import opened Text
  import opened Seqs

  /** `[aeiouy]`: note that `y` counts as a vowel. */
  predicate IsVowel(c: char) { c == 'a' || c == 'e' || c == 'i' || c == 'o' || c == 'u' || c == 'y' }

  /** `[bcdfghjklmnpqrstvwxz]`. */
  predicate IsConsonant(c: char) { IsLower(c) && !IsVowel(c) }

  /** A character of the class `[-'a-z]`. */
  predicate IsWordPatChar(c: char) { IsLower(c) || c == '-' || c == '\'' }

  /** The shape of a match of the word pattern `[a-z][-'a-z]*`. */
  predicate MatchesWordPat(w: string)
  {
    |w| >= 1 && IsLower(w[0]) && forall i :: 0 < i < |w| ==> IsWordPatChar(w[i])
  }

  /** `re.search(VOWELS, w)` succeeds. */
  predicate HasVowel(w: string)
  {
    w != [] && (IsVowel(w[0]) || HasVowel(w[1..]))
  }

  /** `re.search(VALID_HYPHENS, w)`: two letters, a hyphen, two letters, somewhere in `w`. */
  predicate HasValidHyphen(w: string)
  {
    |w| >= 5 && ((IsLower(w[0]) && IsLower(w[1]) && w[2] == '-' && IsLower(w[3]) && IsLower(w[4]))
                 || HasValidHyphen(w[1..]))
  }

  /** `w.find(c)`: the first index of `c`, or -1. */
  function Find(w: string, c: char): (r: int)
    ensures -1 <= r < |w|
    ensures r == -1 <==> c !in w
    ensures r >= 0 ==> w[r] == c && c !in w[..r]
  {
    if w == [] then -1
    else if w[0] == c then 0
    else var k := Find(w[1..], c); if k == -1 then -1 else k + 1
  }

  /** The word filter: keep a word with a vowel unless it has a hyphen after position 0 and no valid hyphen. */
  predicate KeepWord(w: string)
  {
    !(!HasVowel(w) || (Find(w, '-') > 0 && !HasValidHyphen(w)))
  }

  /** Length of the longest prefix of `s` in `[-'a-z]`. */
  function PatRun(s: string): (n: nat)
    ensures n <= |s|
    ensures forall i :: 0 <= i < n ==> IsWordPatChar(s[i])
    ensures n == |s| || !IsWordPatChar(s[n])
  {
    if s != [] && IsWordPatChar(s[0]) then 1 + PatRun(s[1..]) else 0
  }

  /** `re.findall(WORD_PAT, s)`: scan left to right, each match as long as possible. */
  function RawWords(s: string): seq<string>
    decreases |s|
  {
    if s == [] then []
    else if IsLower(s[0]) then
      var n := 1 + PatRun(s[1..]);
      [s[..n]] + RawWords(s[n..])
    else RawWords(s[1..])
  }

  /** The kept words of a processed text (`line.lower().strip()`, then the word pattern, then the filter). */
  function Words(line: string): seq<string>
  {
    Filter(RawWords(Strip(Lower(line))), KeepWord)
  }

  /** The end of the run of consonants that starts at `i`. */
  function ConsonantEnd(s: string, i: nat): (j: nat)
    requires i <= |s|
    ensures i <= j <= |s|
    ensures j == |s| || !IsConsonant(s[j])
    decreases |s| - i
  {
    if i < |s| && IsConsonant(s[i]) then ConsonantEnd(s, i + 1) else i
  }

  /** The end of the run of vowels that starts at `i`. */
  function VowelEnd(s: string, i: nat): (j: nat)
    requires i <= |s|
    ensures i <= j <= |s|
    ensures j == |s| || !IsVowel(s[j])
    decreases |s| - i
  {
    if i < |s| && IsVowel(s[i]) then VowelEnd(s, i + 1) else i
  }

  /**
   * Where a match of `C*V+C*` that starts at `i` ends, or `i` when none starts there: the run of
   * consonants must be followed by a vowel; the vowels and the consonants after them are then taken greedily.
   */
  function MatchEnd(s: string, i: nat): (e: nat)
    requires i <= |s|
    ensures i <= e <= |s|
  {
    var c := ConsonantEnd(s, i);
    if c < |s| && IsVowel(s[c]) then ConsonantEnd(s, VowelEnd(s, c)) else i
  }

  /** `re.findall(SYLLABLES, s[i..])`: the matches from left to right; where none starts the scan moves on by one. */
  function GroupsFrom(s: string, i: nat): (r: seq<string>)
    requires i <= |s|
    decreases |s| - i
  {
    if i == |s| then []
    else
      var e := MatchEnd(s, i);
      (if e > i then [s[i..e]] else []) + GroupsFrom(s, if e > i then e else i + 1)
  }

  function Groups(s: string): seq<string>
  {
    GroupsFrom(s, 0)
  }

  /** A trailing group that is exactly "e" is glued onto the group before it. */
  function MergeTrailingE(g: seq<string>): seq<string>
  {
    if |g| > 1 && g[|g| - 1] == "e" then g[..|g| - 2] + [g[|g| - 2] + "e"] else g
  }

  /** The syllable groups the tokenizer records for one word. */
  function SyllablesOf(w: string): seq<string>
  {
    MergeTrailingE(Groups(Lower(w)))
  }

  predicate IsComplex(w: string) { |SyllablesOf(w)| >= 3 }

  // ---------------------------------------------------------------------------------------------
  // Properties of the word extraction

  lemma {:induction false} RawWordsMatchPattern(s: string)
    ensures forall k :: 0 <= k < |RawWords(s)| ==> MatchesWordPat(RawWords(s)[k])
    decreases |s|
  {
    if s != [] {
      if IsLower(s[0]) {
        var n := 1 + PatRun(s[1..]);
        RawWordsMatchPattern(s[n..]);
        var w := s[..n];
        forall i | 0 < i < |w| ensures IsWordPatChar(w[i]) {
          assert w[i] == s[1..][i - 1];
        }
      } else {
        RawWordsMatchPattern(s[1..]);
      }
    }
  }

  /** Every kept word matches `[a-z][-'a-z]*` and contains one of `aeiouy`. */
  lemma WordsShape(line: string)
    ensures forall k :: 0 <= k < |Words(line)| ==> MatchesWordPat(Words(line)[k]) && HasVowel(Words(line)[k])
  {
    var raw := RawWords(Strip(Lower(line)));
    RawWordsMatchPattern(Strip(Lower(line)));
    FilterMembers(raw, KeepWord);
    forall k | 0 <= k < |Words(line)|
      ensures MatchesWordPat(Words(line)[k]) && HasVowel(Words(line)[k])
    {
      var w := Words(line)[k];
      assert w in raw && KeepWord(w);
      var j :| 0 <= j < |raw| && raw[j] == w;
    }
  }

  /** A kept word that contains a hyphen contains two letters, the hyphen, two letters. */
  lemma WordsHyphens(line: string)
    ensures forall k :: 0 <= k < |Words(line)| && '-' in Words(line)[k] ==> HasValidHyphen(Words(line)[k])
  {
    var raw := RawWords(Strip(Lower(line)));
    RawWordsMatchPattern(Strip(Lower(line)));
    FilterMembers(raw, KeepWord);
    forall k | 0 <= k < |Words(line)| && '-' in Words(line)[k]
      ensures HasValidHyphen(Words(line)[k])
    {
      var w := Words(line)[k];
      assert w in raw && KeepWord(w);
      var j :| 0 <= j < |raw| && raw[j] == w;
      assert MatchesWordPat(w);
      assert Find(w, '-') != 0;
    }
  }

  /** The kept words keep the order of the pattern's matches and drop some of them. */
  lemma WordsAreSubsequence(line: string)
    ensures IsSubsequence(Words(line), RawWords(Strip(Lower(line))))
  {
    FilterIsSubsequence(RawWords(Strip(Lower(line))), KeepWord);
  }

  // ---------------------------------------------------------------------------------------------
  // Properties of the syllable groups

  /** The merge fires exactly when there are two or more groups and the last is "e"; it removes one group and keeps the letters. */
  lemma MergeTrailingEEffect(g: seq<string>)
    ensures (|g| > 1 && g[|g| - 1] == "e") ==> |MergeTrailingE(g)| == |g| - 1
    ensures !(|g| > 1 && g[|g| - 1] == "e") ==> MergeTrailingE(g) == g
    ensures Flatten(MergeTrailingE(g)) == Flatten(g)
  {
    if |g| > 1 && g[|g| - 1] == "e" {
      var n := |g|;
      var x, y := g[n - 2], g[n - 1];
      assert g == g[..n - 2] + [x, y];
      FlattenAppend(g[..n - 2], [x, y]);
      FlattenAppend(g[..n - 2], [x + "e"]);
      assert [x, y][1..] == [y];
      assert Flatten([y]) == y + Flatten([]);
      assert Flatten([x, y]) == x + Flatten([y]);
      assert Flatten([x + "e"]) == (x + "e") + Flatten([]);
    }
  }

  /** From a position with a vowel at or after it, the scan finds at least one group. */
  lemma {:induction false} GroupsFromVowel(s: string, i: nat)
    requires i <= |s| && HasVowel(s[i..])
    ensures |GroupsFrom(s, i)| >= 1
    decreases |s| - i
  {
    if MatchEnd(s, i) == i {
      assert s[i..][0] == s[i];
      assert !IsVowel(s[i]);
      assert s[i..][1..] == s[i + 1..];
      GroupsFromVowel(s, i + 1);
    }
  }

  lemma {:induction false} LowerKeepsVowels(w: string)
    requires HasVowel(w)
    ensures HasVowel(Lower(w))
  {
    assert Lower(w)[0] == LowerChar(w[0]);
    if !IsVowel(w[0]) {
      LowerKeepsVowels(w[1..]);
      assert Lower(w)[1..] == Lower(w[1..]);
    }
  }

  /** Every kept word gives at least one syllable group, after the merge as well. */
  lemma KeptWordHasSyllable(w: string)
    requires KeepWord(w)
    ensures |SyllablesOf(w)| >= 1
  {
    LowerKeepsVowels(w);
    assert Lower(w)[0..] == Lower(w);
    GroupsFromVowel(Lower(w), 0);
    MergeTrailingEEffect(Groups(Lower(w)));
  }

  /** The syllable list has at least as many entries as there are kept words. */
  lemma {:induction false} SyllablesAtLeastWords(ws: seq<string>)
    requires forall k :: 0 <= k < |ws| ==> KeepWord(ws[k])
    ensures |FlatMap(ws, SyllablesOf)| >= |ws|
  {
    if ws != [] {
      SyllablesAtLeastWords(ws[..|ws| - 1]);
      KeptWordHasSyllable(ws[|ws| - 1]);
    }
  }
}
