/**
 * ASCII character classes and the Python string built-ins the pipeline relies on
 * (`str.lower`, `str.strip`, `str.split`, `str.join`, `str.count`, `in`, `re.split(r"\s+", ...)`).
 * Non-ASCII characters are treated as plain non-space, non-word characters.
 */
module Text {

  /** `str.isspace()` on ASCII: space, the controls 9-13 (\t \n \v \f \r) and the separators 28-31. */
  predicate IsSpace(c: char) { c == ' ' || (9 <= c as int <= 13) || (28 <= c as int <= 31) }

  predicate IsDigit(c: char) { '0' <= c <= '9' }
  predicate IsLower(c: char) { 'a' <= c <= 'z' }
  predicate IsUpper(c: char) { 'A' <= c <= 'Z' }

  /** The regex class `\w` on ASCII. */
  predicate IsWordChar(c: char) { IsLower(c) || IsUpper(c) || IsDigit(c) || c == '_' }

  predicate NoSpace(s: string) { forall i :: 0 <= i < |s| ==> !IsSpace(s[i]) }

  function LowerChar(c: char): (r: char)
    ensures IsUpper(c) ==> IsLower(r)
    ensures !IsUpper(c) ==> r == c
  {
    if IsUpper(c) then (c as int + 32) as char else c
  }

  /** `str.lower()`. */
  function Lower(s: string): (r: string)
    ensures |r| == |s|
  {
    if s == [] then [] else [LowerChar(s[0])] + Lower(s[1..])
  }

  /** `s.count(c)` for a one-character string `c`. */
  function Count(s: string, c: char): nat
  {
    if s == [] then 0 else (if s[0] == c then 1 else 0) + Count(s[1..], c)
  }

  /** Python's `sub in s`: `sub` occurs in `s` as a contiguous substring. */
  predicate Contains(s: string, sub: string)
  {
    sub <= s || (s != [] && Contains(s[1..], sub))
  }

  predicate EndsWith(s: string, suffix: string)
  {
    |suffix| <= |s| && s[|s| - |suffix|..] == suffix
  }

  /** `s.replace(a, b)` for one-character `a` and `b`. */
  function ReplaceChar(s: string, a: char, b: char): (r: string)
    ensures |r| == |s|
    ensures forall i :: 0 <= i < |s| ==> r[i] == if s[i] == a then b else s[i]
  {
    if s == [] then [] else [if s[0] == a then b else s[0]] + ReplaceChar(s[1..], a, b)
  }

  /** `s.replace(c, "")`. */
  function RemoveChar(s: string, c: char): (r: string)
    ensures c !in r
  {
    if s == [] then [] else (if s[0] == c then [] else [s[0]]) + RemoveChar(s[1..], c)
  }

  /** Drops the leading run of whitespace. */
  function StripLeft(s: string): (r: string)
    ensures |r| <= |s|
    ensures r == [] || !IsSpace(r[0])
    ensures forall i :: 0 <= i < |s| - |r| ==> IsSpace(s[i])
  {
    if s != [] && IsSpace(s[0]) then StripLeft(s[1..]) else s
  }

  /** What `StripLeft` leaves is a suffix of its argument. */
  lemma {:induction false} StripLeftSuffix(s: string)
    ensures StripLeft(s) == s[|s| - |StripLeft(s)|..]
  {
    if s != [] && IsSpace(s[0]) {
      StripLeftSuffix(s[1..]);
      assert s[1..][|s[1..]| - |StripLeft(s[1..])|..] == s[|s| - |StripLeft(s)|..];
    }
  }

  /** Drops the trailing run of whitespace. */
  function StripRight(s: string): (r: string)
    ensures |r| <= |s| && r == s[..|r|]
    ensures r == [] || !IsSpace(r[|r| - 1])
    ensures forall i :: |r| <= i < |s| ==> IsSpace(s[i])
  {
    if s != [] && IsSpace(s[|s| - 1]) then StripRight(s[..|s| - 1]) else s
  }

  /** `str.strip()` with no argument. */
  function Strip(s: string): (r: string)
    ensures r == [] || (!IsSpace(r[0]) && !IsSpace(r[|r| - 1]))
  {
    StripRight(StripLeft(s))
  }

  /** Every character is whitespace. */
  predicate AllSpace(s: string)
  {
    forall i :: 0 <= i < |s| ==> IsSpace(s[i])
  }

  /** `s.strip()` is empty exactly when `s` is all whitespace. */
  lemma StripBlank(s: string)
    ensures Strip(s) == "" <==> AllSpace(s)
  {
    StripLeftSuffix(s);
  }

  /** The characters left after deleting `c` are those of `s` other than `c`. */
  lemma {:induction false} RemoveCharMembers(s: string, c: char)
    ensures forall x :: x in RemoveChar(s, c) <==> x in s && x != c
  {
    if s != [] {
      RemoveCharMembers(s[1..], c);
      assert s == [s[0]] + s[1..];
    }
  }

  /** Deleting a whitespace character does not change whether a string is all whitespace. */
  lemma RemoveSpaceBlank(t: string, c: char)
    requires IsSpace(c)
    ensures AllSpace(RemoveChar(t, c)) <==> AllSpace(t)
  {
    var r := RemoveChar(t, c);
    RemoveCharMembers(t, c);
    if AllSpace(t) {
      forall i | 0 <= i < |r| ensures IsSpace(r[i]) {
        assert r[i] in t;
      }
    }
    if AllSpace(r) {
      forall i | 0 <= i < |t| ensures IsSpace(t[i]) {
        if t[i] != c {
          assert t[i] in r;
        }
      }
    }
  }

  /** `s.replace("\n", "").strip()` is empty exactly when `s` is all whitespace. */
  lemma BlankAfterNewlines(s: string)
    ensures Strip(RemoveChar(s, '\n')) == "" <==> AllSpace(s)
  {
    StripBlank(RemoveChar(s, '\n'));
    RemoveSpaceBlank(s, '\n');
  }

  /**
   * `re.split(r"\s+", s)`: the pieces between maximal runs of whitespace. A leading run yields an
   * initial empty piece and a trailing run a final one, so the result is never empty.
   */
  function SplitWs(s: string): (r: seq<string>)
    ensures |r| >= 1
    ensures forall k :: 0 <= k < |r| ==> NoSpace(r[k])
    decreases |s|
  {
    if s == [] then [""]
    else if IsSpace(s[0]) then [""] + SplitWs(StripLeft(s))
    else
      var rest := SplitWs(s[1..]);
      [[s[0]] + rest[0]] + rest[1..]
  }

  /** `sep.join(parts)`. */
  function Join(sep: string, parts: seq<string>): string
  {
    if parts == [] then ""
    else if |parts| == 1 then parts[0]
    else parts[0] + sep + Join(sep, parts[1..])
  }

  /** `sep.join` of one more piece. */
  lemma {:induction false} JoinSnoc(sep: string, ps: seq<string>, p: string)
    requires ps != []
    ensures Join(sep, ps + [p]) == Join(sep, ps) + sep + p
  {
    if |ps| == 1 {
    } else {
      assert (ps + [p])[1..] == ps[1..] + [p];
      JoinSnoc(sep, ps[1..], p);
    }
  }

  /** `str.split()` with no argument: the non-empty whitespace-separated pieces. */
  function Fields(s: string): (r: seq<string>)
    ensures forall k :: 0 <= k < |r| ==> r[k] != "" && NoSpace(r[k])
  {
    var pieces := SplitWs(s);
    FieldsOf(pieces)
  }

  function FieldsOf(pieces: seq<string>): (r: seq<string>)
    requires forall k :: 0 <= k < |pieces| ==> NoSpace(pieces[k])
    ensures forall k :: 0 <= k < |r| ==> r[k] != "" && NoSpace(r[k])
  {
    if pieces == [] then []
    else if pieces[0] == "" then FieldsOf(pieces[1..])
    else [pieces[0]] + FieldsOf(pieces[1..])
  }

  /** `s` with every occurrence of `c` deleted. */
  function Without(s: string, c: char): (r: string)
  {
    if s == [] then [] else (if s[0] == c then [] else [s[0]]) + Without(s[1..], c)
  }

  lemma WithoutAppend(a: string, b: string, c: char)
    ensures Without(a + b, c) == Without(a, c) + Without(b, c)
  {
    if a == [] {
      assert a + b == b;
    } else {
      assert (a + b)[1..] == a[1..] + b;
      WithoutAppend(a[1..], b, c);
    }
  }

  /** Pieces of `re.split(r"\s+", s)` other than the first and the last are never empty. */
  lemma {:induction false} SplitWsInnerNonEmpty(s: string)
    ensures forall k :: 0 < k < |SplitWs(s)| - 1 ==> SplitWs(s)[k] != ""
    decreases |s|
  {
    if s == [] {
    } else if IsSpace(s[0]) {
      var t := StripLeft(s);
      SplitWsInnerNonEmpty(t);
      if t != [] {
        assert !IsSpace(t[0]);
        SplitWsFirstNonEmpty(t);
      }
    } else {
      SplitWsInnerNonEmpty(s[1..]);
    }
  }

  lemma SplitWsFirstNonEmpty(s: string)
    requires s != [] && !IsSpace(s[0])
    ensures SplitWs(s)[0] != ""
  {
  }

  lemma {:induction false} SplitWsNoSpace(p: string)
    requires NoSpace(p)
    ensures SplitWs(p) == [p]
  {
    if p != [] {
      assert NoSpace(p[1..]) by {
        forall i | 0 <= i < |p[1..]| ensures !IsSpace(p[1..][i]) { assert p[1..][i] == p[i + 1]; }
      }
      SplitWsNoSpace(p[1..]);
      assert [p[0]] + p[1..] == p;
    }
  }

  lemma {:induction false} SplitWsPrefix(p: string, t: string)
    requires NoSpace(p)
    requires t == [] || IsSpace(t[0])
    ensures SplitWs(p + t) == [p + SplitWs(t)[0]] + SplitWs(t)[1..]
    decreases |p|
  {
    if p == [] {
      assert p + t == t;
    } else {
      assert (p + t)[1..] == p[1..] + t;
      assert NoSpace(p[1..]) by {
        forall i | 0 <= i < |p[1..]| ensures !IsSpace(p[1..][i]) { assert p[1..][i] == p[i + 1]; }
      }
      SplitWsPrefix(p[1..], t);
      assert [p[0]] + (p[1..] + SplitWs(t)[0]) == p + SplitWs(t)[0];
    }
  }

  /**
   * Joining with one space and splitting on whitespace runs gives the pieces back, as long as no piece
   * holds whitespace and only the first and the last piece may be empty.
   */
  lemma {:induction false} SplitJoin(parts: seq<string>)
    requires |parts| >= 1
    requires forall k :: 0 <= k < |parts| ==> NoSpace(parts[k])
    requires forall k :: 0 < k < |parts| - 1 ==> parts[k] != ""
    ensures SplitWs(Join(" ", parts)) == parts
  {
    if |parts| == 1 {
      SplitWsNoSpace(parts[0]);
    } else {
      var rest := Join(" ", parts[1..]);
      SplitJoin(parts[1..]);
      assert Join(" ", parts) == parts[0] + (" " + rest);
      SplitWsPrefix(parts[0], " " + rest);
      JoinStartsNonSpace(parts[1..]);
      SplitWsAfterSpace(rest);
      assert parts[0] + "" == parts[0];
      assert [parts[0]] + parts[1..] == parts;
    }
  }

  /** One space in front of a string that does not start with whitespace adds one empty piece in front. */
  lemma SplitWsAfterSpace(rest: string)
    requires rest == [] || !IsSpace(rest[0])
    ensures SplitWs(" " + rest) == [""] + SplitWs(rest)
  {
    assert (" " + rest)[1..] == rest;
    assert StripLeft(" " + rest) == StripLeft(rest);
  }

  /** A join whose first piece has no whitespace, and is non-empty when more pieces follow, starts with a non-space. */
  lemma JoinStartsNonSpace(ps: seq<string>)
    requires |ps| >= 1 && NoSpace(ps[0])
    requires |ps| >= 2 ==> ps[0] != ""
    ensures Join(" ", ps) == [] || !IsSpace(Join(" ", ps)[0])
  {
    if |ps| >= 2 {
      assert Join(" ", ps) == ps[0] + " " + Join(" ", ps[1..]);
      assert Join(" ", ps)[0] == ps[0][0];
    }
  }
}
