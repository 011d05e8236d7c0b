/**
 * The text clean-up the rater applies to a comment before tokenizing it: removal of abbreviations,
 * newlines, dots of function calls, camel case, digits, special characters and runs of whitespace.
 * Each regular-expression substitution is modelled as a left-to-right scan over the string.
 */
module Preprocessing {
  import opened Wrappers
  import opened Text
  import opened Seqs
  import CommentObject

  /** No character of `s` satisfies `bad`. */
  predicate NoneSatisfy(s: string, bad: char -> bool)
  {
    forall i :: 0 <= i < |s| ==> !bad(s[i])
  }

  /** No two neighbouring characters of `s` are both whitespace. */
  predicate NoDoubleSpace(s: string)
  {
    forall i :: 0 <= i < |s| - 1 ==> !(IsSpace(s[i]) && IsSpace(s[i + 1]))
  }

  // ---------------------------------------------------------------------------------------------
  // remove_abbreviations

  /** The filter that keeps the pieces that are not abbreviations. */
  function NotAbbreviation(abbreviations: set<string>): string -> bool
  {
    w => w !in abbreviations
  }

  /** The whitespace-separated pieces of `text` that are not abbreviations, joined by single spaces. */
  function RemoveAbbreviations(text: string, abbreviations: set<string>): string
  {
    Join(" ", Filter(SplitWs(text), NotAbbreviation(abbreviations)))
  }

  predicate AllButLastNonEmpty(ps: seq<string>)
  {
    forall k :: 0 <= k < |ps| - 1 ==> ps[k] != ""
  }

  /** Keeping some pieces keeps the last piece last, so an empty piece can only end up last. */
  lemma {:induction false} FilterAllButLastNonEmpty(ps: seq<string>, p: string -> bool)
    requires AllButLastNonEmpty(ps)
    ensures AllButLastNonEmpty(Filter(ps, p))
  {
    if ps != [] {
      assert AllButLastNonEmpty(ps[1..]) by {
        forall k | 0 <= k < |ps[1..]| - 1 ensures ps[1..][k] != "" { assert ps[1..][k] == ps[k + 1]; }
      }
      FilterAllButLastNonEmpty(ps[1..], p);
      if p(ps[0]) && Filter(ps[1..], p) != [] {
        assert ps[0] != "" by {
          FilterMembers(ps[1..], p);
          assert Filter(ps[1..], p)[0] in ps[1..];
        }
      }
    }
  }

  /** Filtering pieces whose inner pieces are non-empty gives pieces whose inner pieces are non-empty. */
  lemma FilterInnerNonEmpty(ps: seq<string>, p: string -> bool)
    requires forall k :: 0 < k < |ps| - 1 ==> ps[k] != ""
    ensures forall k :: 0 < k < |Filter(ps, p)| - 1 ==> Filter(ps, p)[k] != ""
  {
    if ps != [] {
      assert AllButLastNonEmpty(ps[1..]) by {
        forall k | 0 <= k < |ps[1..]| - 1 ensures ps[1..][k] != "" { assert ps[1..][k] == ps[k + 1]; }
      }
      FilterAllButLastNonEmpty(ps[1..], p);
      var f := Filter(ps[1..], p);
      if p(ps[0]) {
        forall k | 0 < k < |Filter(ps, p)| - 1 ensures Filter(ps, p)[k] != "" {
          assert Filter(ps, p)[k] == f[k - 1];
        }
      }
    }
  }

  /**
   * Splitting the result on whitespace gives back exactly the kept pieces (or the single empty piece
   * when nothing is kept), so no piece of the result is an abbreviation unless it is empty.
   */
  lemma RemoveAbbreviationsPieces(text: string, abbreviations: set<string>)
    ensures var kept := Filter(SplitWs(text), NotAbbreviation(abbreviations));
            (kept == [] ==> RemoveAbbreviations(text, abbreviations) == "")
            && (kept != [] ==> SplitWs(RemoveAbbreviations(text, abbreviations)) == kept)
    ensures forall k :: 0 <= k < |SplitWs(RemoveAbbreviations(text, abbreviations))| ==>
              SplitWs(RemoveAbbreviations(text, abbreviations))[k] == ""
              || SplitWs(RemoveAbbreviations(text, abbreviations))[k] !in abbreviations
  {
    var pieces := SplitWs(text);
    var kept := Filter(pieces, NotAbbreviation(abbreviations));
    FilterMembers(pieces, NotAbbreviation(abbreviations));
    if kept != [] {
      SplitWsInnerNonEmpty(text);
      FilterInnerNonEmpty(pieces, NotAbbreviation(abbreviations));
      forall k | 0 <= k < |kept| ensures NoSpace(kept[k]) {
        assert kept[k] in pieces;
      }
      SplitJoin(kept);
      forall k | 0 <= k < |kept| ensures kept[k] !in abbreviations {
        assert NotAbbreviation(abbreviations)(kept[k]);
      }
    }
  }

  // ---------------------------------------------------------------------------------------------
  // split_function_call

  /** A dot with a word character on each side, in the original string. */
  predicate IsCallDot(s: string, i: int)
  {
    0 < i < |s| - 1 && s[i] == '.' && IsWordChar(s[i - 1]) && IsWordChar(s[i + 1])
  }

  /**
   * `re.sub(r'(\w)\.(?=\w)', r'\1 ', s)`: each dot between two word characters becomes a space. A match
   * consumes only the word character before the dot, so in `a.b.c` both dots are replaced.
   */
  function SplitFunctionCall(s: string): (r: string)
    ensures |r| == |s|
    ensures forall i :: 0 <= i < |s| && IsCallDot(s, i) ==> r[i] == ' '
    ensures forall i :: 0 <= i < |s| && !IsCallDot(s, i) ==> r[i] == s[i]
  {
    seq(|s|, i requires 0 <= i < |s| => if IsCallDot(s, i) then ' ' else s[i])
  }

  /** After the split, no dot is left between two word characters, so splitting twice is the same as splitting once. */
  lemma SplitFunctionCallIdempotent(s: string)
    ensures forall i :: 0 <= i < |s| ==> !IsCallDot(SplitFunctionCall(s), i)
    ensures SplitFunctionCall(SplitFunctionCall(s)) == SplitFunctionCall(s)
  {
    var r := SplitFunctionCall(s);
    forall i | 0 < i < |s| - 1 && r[i] == '.'
      ensures !IsWordChar(r[i - 1]) || !IsWordChar(r[i + 1])
    {
      assert s[i] == '.' && !IsCallDot(s, i);
      assert IsCallDot(s, i - 1) || r[i - 1] == s[i - 1];
      assert IsCallDot(s, i + 1) || r[i + 1] == s[i + 1];
    }
  }

  // ---------------------------------------------------------------------------------------------
  // split_camel_case

  /**
   * Where `((?<=[a-z])[A-Z]|(?<!\A)[A-Z](?=[a-z]))` matches: an upper-case letter that is not the first
   * character and follows a lower-case letter or precedes one.
   */
  predicate CamelBreak(s: string, j: int)
  {
    0 < j < |s| && IsUpper(s[j]) && (IsLower(s[j - 1]) || (j + 1 < |s| && IsLower(s[j + 1])))
  }

  /** The split from position `j` on: a space goes in front of every break. */
  function CamelFrom(s: string, j: nat): (r: string)
    requires j <= |s|
    ensures j < |s| ==> r != [] && r[0] == (if CamelBreak(s, j) then ' ' else s[j])
    decreases |s| - j
  {
    if j == |s| then [] else (if CamelBreak(s, j) then " " else "") + [s[j]] + CamelFrom(s, j + 1)
  }

  /** `re.sub(..., r' \1', s)` for the camel-case pattern. */
  function SplitCamelCase(s: string): string
  {
    CamelFrom(s, 0)
  }

  /** No lower-case letter is directly followed by an upper-case one. */
  predicate NoHump(r: string)
  {
    forall i :: 0 <= i < |r| - 1 ==> !(IsLower(r[i]) && IsUpper(r[i + 1]))
  }

  /** After the split, no lower-case letter is directly followed by an upper-case one. */
  lemma {:induction false} CamelFromNoHump(s: string, j: nat)
    requires j <= |s|
    ensures NoHump(CamelFrom(s, j))
    decreases |s| - j
  {
    if j < |s| {
      CamelFromNoHump(s, j + 1);
      var pre := (if CamelBreak(s, j) then " " else "") + [s[j]];
      var rest := CamelFrom(s, j + 1);
      var r := CamelFrom(s, j);
      assert r == pre + rest;
      assert pre[|pre| - 1] == s[j];
      forall i | 0 <= i < |r| - 1 ensures !(IsLower(r[i]) && IsUpper(r[i + 1])) {
        if i >= |pre| {
          var k := i - |pre|;
          assert 0 <= k < |rest| - 1 && NoHump(rest);
          assert r[i] == rest[k] && r[i + 1] == rest[k + 1];
        } else if i == |pre| - 1 {
          assert j + 1 < |s|;
          assert r[i] == s[j] && r[i + 1] == rest[0];
          assert rest[0] == (if CamelBreak(s, j + 1) then ' ' else s[j + 1]);
          assert IsLower(s[j]) && IsUpper(s[j + 1]) ==> CamelBreak(s, j + 1);
        } else {
          assert r[i] == ' ';
        }
      }
    }
  }

  lemma SplitCamelCaseNoHump(s: string)
    ensures NoHump(SplitCamelCase(s))
  {
    CamelFromNoHump(s, 0);
  }

  /** The split only inserts spaces: deleting the spaces of both sides gives the same string. */
  lemma {:induction false} CamelFromInsertsSpaces(s: string, j: nat)
    requires j <= |s|
    ensures Without(CamelFrom(s, j), ' ') == Without(s[j..], ' ')
    decreases |s| - j
  {
    if j < |s| {
      CamelFromInsertsSpaces(s, j + 1);
      var pre := (if CamelBreak(s, j) then " " else "") + [s[j]];
      WithoutAppend(pre, CamelFrom(s, j + 1), ' ');
      assert s[j..] == [s[j]] + s[j + 1..];
      WithoutAppend([s[j]], s[j + 1..], ' ');
      if CamelBreak(s, j) {
        WithoutAppend(" ", [s[j]], ' ');
      }
    }
  }

  lemma SplitCamelCaseInsertsSpaces(s: string)
    ensures Without(SplitCamelCase(s), ' ') == Without(s, ' ')
  {
    CamelFromInsertsSpaces(s, 0);
    assert s[0..] == s;
  }

  // ---------------------------------------------------------------------------------------------
  // remove_numbers, remove_special_characters

  /** `re.sub(r"\d", "", s)`: every digit deleted, everything else kept in order. */
  function RemoveNumbers(s: string): (r: string)
    ensures |r| <= |s|
    ensures NoneSatisfy(r, IsDigit)
  {
    if s == [] then [] else (if IsDigit(s[0]) then [] else [s[0]]) + RemoveNumbers(s[1..])
  }

  /** A string without digits is left as it is. */
  lemma {:induction false} RemoveNumbersNoDigits(s: string)
    requires NoneSatisfy(s, IsDigit)
    ensures RemoveNumbers(s) == s
  {
    if s != [] {
      assert !IsDigit(s[0]);
      assert NoneSatisfy(s[1..], IsDigit) by {
        forall i | 0 <= i < |s[1..]| ensures !IsDigit(s[1..][i]) { assert s[1..][i] == s[i + 1]; }
      }
      RemoveNumbersNoDigits(s[1..]);
      assert [s[0]] + s[1..] == s;
    }
  }

  /** Removing digits twice is the same as removing them once. */
  lemma RemoveNumbersIdempotent(s: string)
    ensures RemoveNumbers(RemoveNumbers(s)) == RemoveNumbers(s)
  {
    RemoveNumbersNoDigits(RemoveNumbers(s));
  }

  /** Every character that is not a digit occurs as often after the removal as before it. */
  lemma {:induction false} RemoveNumbersKeepsOthers(s: string, c: char)
    requires !IsDigit(c)
    ensures Count(RemoveNumbers(s), c) == Count(s, c)
  {
    if s != [] {
      RemoveNumbersKeepsOthers(s[1..], c);
      var pre := if IsDigit(s[0]) then [] else [s[0]];
      CountAppend(pre, RemoveNumbers(s[1..]), c);
    }
  }

  lemma CountAppend(a: string, b: string, c: char)
    ensures Count(a + b, c) == Count(a, c) + Count(b, c)
  {
    if a == [] {
      assert a + b == b;
    } else {
      assert (a + b)[1..] == a[1..] + b;
      CountAppend(a[1..], b, c);
    }
  }

  /** The characters of the class `[\-$%^&*()_+|~=`{}\[\]\";'<>\/]`. */
  predicate IsSpecial(c: char)
  {
    c in {'-', '$', '%', '^', '&', '*', '(', ')', '_', '+', '|', '~', '=', '`', '{', '}', '[', ']', '"', ';',
          '\'', '<', '>', '/'}
  }

  /** `re.sub(special, " ", s)`: every special character becomes a space. */
  function RemoveSpecialCharacters(s: string): (r: string)
    ensures |r| == |s| && NoneSatisfy(r, IsSpecial)
    ensures forall i :: 0 <= i < |s| ==> (IsSpecial(s[i]) ==> r[i] == ' ') && (!IsSpecial(s[i]) ==> r[i] == s[i])
  {
    seq(|s|, i requires 0 <= i < |s| => if IsSpecial(s[i]) then ' ' else s[i])
  }

  /** Replacing the special characters twice is the same as doing it once. */
  lemma RemoveSpecialCharactersIdempotent(s: string)
    ensures RemoveSpecialCharacters(RemoveSpecialCharacters(s)) == RemoveSpecialCharacters(s)
  {
  }

  // ---------------------------------------------------------------------------------------------
  // remove_multiple_spaces

  /** `re.sub(r'\s\s+', " ", s)`: every run of two or more whitespace characters becomes one space. */
  function CollapseSpaces(s: string): (r: string)
    ensures |r| <= |s|
    ensures s != [] ==> r != [] && (!IsSpace(s[0]) ==> r[0] == s[0]) && (IsSpace(s[0]) ==> IsSpace(r[0]))
    decreases |s|
  {
    if s == [] then []
    else if |s| >= 2 && IsSpace(s[0]) && IsSpace(s[1]) then " " + CollapseSpaces(StripLeft(s))
    else [s[0]] + CollapseSpaces(s[1..])
  }

  /** `remove_multiple_spaces`: collapse the runs, then strip both ends. */
  function RemoveMultipleSpaces(s: string): string
  {
    Strip(CollapseSpaces(s))
  }

  lemma {:induction false} CollapseSpacesNoDouble(s: string)
    ensures NoDoubleSpace(CollapseSpaces(s))
    decreases |s|
  {
    if s != [] {
      var r := CollapseSpaces(s);
      if |s| >= 2 && IsSpace(s[0]) && IsSpace(s[1]) {
        var t := StripLeft(s);
        CollapseSpacesNoDouble(t);
        assert r == " " + CollapseSpaces(t);
        forall i | 0 <= i < |r| - 1 ensures !(IsSpace(r[i]) && IsSpace(r[i + 1])) {
          if i > 0 { assert r[i] == CollapseSpaces(t)[i - 1] && r[i + 1] == CollapseSpaces(t)[i]; }
        }
      } else {
        CollapseSpacesNoDouble(s[1..]);
        var rest := CollapseSpaces(s[1..]);
        assert r == [s[0]] + rest;
        forall i | 0 <= i < |r| - 1 ensures !(IsSpace(r[i]) && IsSpace(r[i + 1])) {
          if i > 0 { assert r[i] == rest[i - 1] && r[i + 1] == rest[i]; }
          else { assert r[1] == rest[0]; if IsSpace(s[0]) { assert !IsSpace(s[1]); } }
        }
      }
    }
  }

  lemma NoDoubleSpaceSlice(s: string, a: nat, b: nat)
    requires NoDoubleSpace(s) && a <= b <= |s|
    ensures NoDoubleSpace(s[a..b])
  {
    forall i | 0 <= i < |s[a..b]| - 1 ensures !(IsSpace(s[a..b][i]) && IsSpace(s[a..b][i + 1])) {
      assert s[a..b][i] == s[a + i] && s[a..b][i + 1] == s[a + i + 1];
    }
  }

  lemma {:induction false} StripKeepsNoDoubleSpace(s: string)
    requires NoDoubleSpace(s)
    ensures NoDoubleSpace(StripLeft(s)) && NoDoubleSpace(StripRight(s))
  {
    if s != [] {
      NoDoubleSpaceSlice(s, 1, |s|);
      NoDoubleSpaceSlice(s, 0, |s| - 1);
      assert s[1..|s|] == s[1..];
      assert s[0..|s| - 1] == s[..|s| - 1];
      if IsSpace(s[0]) { StripKeepsNoDoubleSpace(s[1..]); }
      if IsSpace(s[|s| - 1]) { StripKeepsNoDoubleSpace(s[..|s| - 1]); }
    }
  }

  /** The result never holds two whitespace characters in a row, nor whitespace at either end. */
  lemma RemoveMultipleSpacesShape(s: string)
    ensures NoDoubleSpace(RemoveMultipleSpaces(s))
    ensures var r := RemoveMultipleSpaces(s); r == [] || (!IsSpace(r[0]) && !IsSpace(r[|r| - 1]))
  {
    CollapseSpacesNoDouble(s);
    StripKeepsNoDoubleSpace(CollapseSpaces(s));
    StripKeepsNoDoubleSpace(StripLeft(CollapseSpaces(s)));
  }

  /** A string without two whitespace characters in a row is not changed by the collapse. */
  lemma {:induction false} CollapseSpacesIdentity(s: string)
    requires NoDoubleSpace(s)
    ensures CollapseSpaces(s) == s
  {
    if s != [] {
      NoDoubleSpaceSlice(s, 1, |s|);
      assert s[1..|s|] == s[1..];
      CollapseSpacesIdentity(s[1..]);
      assert [s[0]] + s[1..] == s;
    }
  }

  lemma StripRightOfStripped(s: string)
    requires s == [] || !IsSpace(s[|s| - 1])
    ensures StripRight(s) == s
  {
  }

  lemma StripLeftOfStripped(s: string)
    requires s == [] || !IsSpace(s[0])
    ensures StripLeft(s) == s
  {
  }

  /** Removing multiple spaces twice is the same as doing it once. */
  lemma RemoveMultipleSpacesIdempotent(s: string)
    ensures RemoveMultipleSpaces(RemoveMultipleSpaces(s)) == RemoveMultipleSpaces(s)
  {
    var r := RemoveMultipleSpaces(s);
    RemoveMultipleSpacesShape(s);
    CollapseSpacesIdentity(r);
    StripLeftOfStripped(r);
    StripRightOfStripped(r);
  }

  // ---------------------------------------------------------------------------------------------
  // Characters each step can put into the text

  /** A condition that no character of the input meets and a space does not meet holds of no character of the output. */
  lemma CamelFromKeeps(s: string, j: nat, bad: char -> bool)
    requires j <= |s| && !bad(' ') && NoneSatisfy(s, bad)
    ensures NoneSatisfy(CamelFrom(s, j), bad)
    decreases |s| - j
  {
    if j < |s| {
      CamelFromKeeps(s, j + 1, bad);
      var pre := (if CamelBreak(s, j) then " " else "") + [s[j]];
      var r := CamelFrom(s, j);
      forall i | 0 <= i < |r| ensures !bad(r[i]) {
        if i >= |pre| { assert r[i] == CamelFrom(s, j + 1)[i - |pre|]; }
      }
    }
  }

  lemma {:induction false} RemoveNumbersKeeps(s: string, bad: char -> bool)
    requires NoneSatisfy(s, bad)
    ensures NoneSatisfy(RemoveNumbers(s), bad)
  {
    if s != [] {
      assert NoneSatisfy(s[1..], bad) by {
        forall i | 0 <= i < |s[1..]| ensures !bad(s[1..][i]) { assert s[1..][i] == s[i + 1]; }
      }
      RemoveNumbersKeeps(s[1..], bad);
      var pre := if IsDigit(s[0]) then [] else [s[0]];
      var r := RemoveNumbers(s);
      forall i | 0 <= i < |r| ensures !bad(r[i]) {
        if i >= |pre| { assert r[i] == RemoveNumbers(s[1..])[i - |pre|]; }
      }
    }
  }

  lemma {:induction false} CollapseSpacesKeeps(s: string, bad: char -> bool)
    requires !bad(' ') && NoneSatisfy(s, bad)
    ensures NoneSatisfy(CollapseSpaces(s), bad)
    decreases |s|
  {
    if s != [] {
      var r := CollapseSpaces(s);
      if |s| >= 2 && IsSpace(s[0]) && IsSpace(s[1]) {
        var t := StripLeft(s);
        StripLeftSuffix(s);
        assert NoneSatisfy(t, bad) by {
          forall i | 0 <= i < |t| ensures !bad(t[i]) { assert t[i] == s[|s| - |t| + i]; }
        }
        CollapseSpacesKeeps(t, bad);
        forall i | 0 <= i < |r| ensures !bad(r[i]) {
          if i > 0 { assert r[i] == CollapseSpaces(t)[i - 1]; }
        }
      } else {
        assert NoneSatisfy(s[1..], bad) by {
          forall i | 0 <= i < |s[1..]| ensures !bad(s[1..][i]) { assert s[1..][i] == s[i + 1]; }
        }
        CollapseSpacesKeeps(s[1..], bad);
        forall i | 0 <= i < |r| ensures !bad(r[i]) {
          if i > 0 { assert r[i] == CollapseSpaces(s[1..])[i - 1]; }
        }
      }
    }
  }

  lemma StripKeeps(s: string, bad: char -> bool)
    requires NoneSatisfy(s, bad)
    ensures NoneSatisfy(StripLeft(s), bad) && NoneSatisfy(StripRight(s), bad)
  {
    var l, r := StripLeft(s), StripRight(s);
    StripLeftSuffix(s);
    forall i | 0 <= i < |l| ensures !bad(l[i]) { assert l[i] == s[|s| - |l| + i]; }
    forall i | 0 <= i < |r| ensures !bad(r[i]) { assert r[i] == s[i]; }
  }

  lemma RemoveMultipleSpacesKeeps(s: string, bad: char -> bool)
    requires !bad(' ') && NoneSatisfy(s, bad)
    ensures NoneSatisfy(RemoveMultipleSpaces(s), bad)
  {
    CollapseSpacesKeeps(s, bad);
    StripKeeps(CollapseSpaces(s), bad);
    StripKeeps(StripLeft(CollapseSpaces(s)), bad);
  }

  // ---------------------------------------------------------------------------------------------
  // preprocess

  /** The seven steps of `preprocess`, each a rewrite of the text. */
  datatype Step = DropAbbreviations | NewlinesToSpaces | SplitCalls | SplitCamel | DropNumbers | DropSpecials | CollapseWhitespace

  function ApplyStep(step: Step, t: string, abbreviations: set<string>): string
  {
    match step
    case DropAbbreviations => RemoveAbbreviations(t, abbreviations)
    case NewlinesToSpaces => ReplaceChar(t, '\n', ' ')
    case SplitCalls => SplitFunctionCall(t)
    case SplitCamel => SplitCamelCase(t)
    case DropNumbers => RemoveNumbers(t)
    case DropSpecials => RemoveSpecialCharacters(t)
    case CollapseWhitespace => RemoveMultipleSpaces(t)
  }

  /** The steps applied to `t` one after the other, first to last. */
  function ApplySteps(steps: seq<Step>, t: string, abbreviations: set<string>): string
  {
    if steps == [] then t else ApplySteps(steps[1..], ApplyStep(steps[0], t, abbreviations), abbreviations)
  }

  /** The order in which `preprocess` applies its steps. */
  const PreprocessSteps: seq<Step> :=
    [DropAbbreviations, NewlinesToSpaces, SplitCalls, SplitCamel, DropNumbers, DropSpecials, CollapseWhitespace]

  /** The processed text of a comment with the given text and abbreviations. */
  function PreprocessText(text: string, abbreviations: set<string>): string
  {
    ApplySteps(PreprocessSteps, text, abbreviations)
  }

  /** The processed text written out as the composition of the seven rewrites. */
  lemma PreprocessTextUnfold(text: string, abbreviations: set<string>)
    ensures PreprocessText(text, abbreviations)
         == RemoveMultipleSpaces(RemoveSpecialCharacters(RemoveNumbers(SplitCamelCase(SplitFunctionCall(
              ReplaceChar(RemoveAbbreviations(text, abbreviations), '\n', ' '))))))
  {
    var ss := PreprocessSteps;
    var t1 := RemoveAbbreviations(text, abbreviations);
    var t2 := ReplaceChar(t1, '\n', ' ');
    var t3 := SplitFunctionCall(t2);
    var t4 := SplitCamelCase(t3);
    var t5 := RemoveNumbers(t4);
    var t6 := RemoveSpecialCharacters(t5);
    assert ApplySteps(ss, text, abbreviations) == ApplySteps(ss[1..], t1, abbreviations);
    assert ApplySteps(ss[1..], t1, abbreviations) == ApplySteps(ss[2..], t2, abbreviations);
    assert ApplySteps(ss[2..], t2, abbreviations) == ApplySteps(ss[3..], t3, abbreviations);
    assert ApplySteps(ss[3..], t3, abbreviations) == ApplySteps(ss[4..], t4, abbreviations);
    assert ApplySteps(ss[4..], t4, abbreviations) == ApplySteps(ss[5..], t5, abbreviations);
    assert ApplySteps(ss[5..], t5, abbreviations) == ApplySteps(ss[6..], t6, abbreviations);
    assert ApplySteps(ss[6..], t6, abbreviations) == ApplySteps(ss[7..], RemoveMultipleSpaces(t6), abbreviations);
  }

  predicate IsNewline(c: char) { c == '\n' }

  /**
   * The processed text holds no digit, no special character and no newline, never two whitespace
   * characters in a row, and no whitespace at either end.
   */
  lemma PreprocessTextShape(text: string, abbreviations: set<string>)
    ensures var r := PreprocessText(text, abbreviations);
            && NoneSatisfy(r, IsDigit) && NoneSatisfy(r, IsSpecial) && NoneSatisfy(r, IsNewline)
            && NoDoubleSpace(r) && (r == [] || (!IsSpace(r[0]) && !IsSpace(r[|r| - 1])))
  {
    PreprocessTextUnfold(text, abbreviations);
    var t1 := RemoveAbbreviations(text, abbreviations);
    var t2 := ReplaceChar(t1, '\n', ' ');
    var t3 := SplitFunctionCall(t2);
    var t4 := SplitCamelCase(t3);
    var t5 := RemoveNumbers(t4);
    var t6 := RemoveSpecialCharacters(t5);
    assert NoneSatisfy(t3, IsNewline) by {
      forall i | 0 <= i < |t3| ensures !IsNewline(t3[i]) { assert t3[i] == ' ' || t3[i] == t2[i]; }
    }
    CamelFromKeeps(t3, 0, IsNewline);
    RemoveNumbersKeeps(t4, IsNewline);
    assert NoneSatisfy(t6, IsNewline);
    RemoveMultipleSpacesKeeps(t6, IsNewline);
    assert NoneSatisfy(t6, IsDigit);
    RemoveMultipleSpacesKeeps(t6, IsDigit);
    RemoveMultipleSpacesKeeps(t6, IsSpecial);
    RemoveMultipleSpacesShape(t6);
  }

  /**
   * `preprocess`: writes the processed text of `comment`, built from its raw text and the abbreviations
   * found in it, through the seven steps in order.
   */
  method Preprocess(comment: CommentObject.Comment)
    requires comment.abbreviations.Some?
    modifies comment`processedText
    ensures comment.processedText == Some(PreprocessText(comment.text, comment.abbreviations.value))
  {
    var t := RemoveAbbreviations(comment.text, comment.abbreviations.value);
    t := ReplaceChar(t, '\n', ' ');
    t := SplitFunctionCall(t);
    t := SplitCamelCase(t);
    t := RemoveNumbers(t);
    t := RemoveSpecialCharacters(t);
    t := RemoveMultipleSpaces(t);
    PreprocessTextUnfold(comment.text, comment.abbreviations.value);
    comment.processedText := Some(t);
  }
}
