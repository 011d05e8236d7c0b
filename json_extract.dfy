/**
 * The walk over a JSON document (the comment report) that collects file markers and comment texts, and the
 * pairing of each comment text with the file named by the most recent marker.
 */
module JsonExtract {
  import opened Wrappers
  import opened Text
  import opened Seqs

  /** A decoded JSON value; an object is its items in iteration order. */
  datatype Json =
    | JNull
    | JBool(b: bool)
    | JNum(n: real)
    | JStr(s: string)
    | JArr(items: seq<Json>)
    | JObj(entries: seq<(string, Json)>)

  /** The text that marks a file name in the collected list. */
  const FileTag: string := "fl:"

  predicate IsContainer(v: Json) { v.JObj? || v.JArr? }

  /** Python's `x in obj` for a dict: `x` is one of its keys. */
  predicate HasKey(es: seq<(string, Json)>, x: string)
  {
    exists i :: 0 <= i < |es| && es[i].0 == x
  }

  /** Both parts collected, one after the other; None (a raised error) if either part raised. */
  function Concat(a: Option<seq<Json>>, b: Option<seq<Json>>): Option<seq<Json>>
  {
    if a.Some? && b.Some? then Some(a.value + b.value) else None
  }

  lemma ConcatAssoc(a: Option<seq<Json>>, b: Option<seq<Json>>, c: Option<seq<Json>>)
    ensures Concat(Concat(a, b), c) == Concat(a, Concat(b, c))
  {
    if a.Some? && b.Some? && c.Some? {
      assert (a.value + b.value) + c.value == a.value + (b.value + c.value);
    }
  }

  lemma ConcatUnit(a: Option<seq<Json>>)
    ensures Concat(Some([]), a) == a && Concat(a, Some([])) == a
  {
    if a.Some? {
      assert [] + a.value == a.value && a.value + [] == a.value;
    }
  }

  /**
   * The own-key checks of one item `(k, v)`: with `k == key`, a string value containing a `.` is collected
   * behind `fl:`; `"." in v` raises a TypeError on null, numbers and booleans, and prepending `fl:` to a
   * list or dict that contains `"."` raises one too.
   */
  function KeyPart(k: string, v: Json, key: string): Option<seq<Json>>
  {
    if k != key then Some([])
    else match v
      case JStr(s) => if Contains(s, ".") then Some([JStr(FileTag + s)]) else Some([])
      case JArr(xs) => if JStr(".") in xs then None else Some([])
      case JObj(es) => if HasKey(es, ".") then None else Some([])
      case _ => None
  }

  /** An item keyed `text` whose value is not null is collected as it is. */
  function TextPart(k: string, v: Json): seq<Json>
  {
    if k == "text" && v != JNull then [v] else []
  }

  /** What `extract` appends for `obj`, depth first; None when it raises. */
  function Extracted(obj: Json, key: string): Option<seq<Json>>
    decreases obj, 1
  {
    match obj
    case JObj(es) => EntriesExtracted(obj, key, |es|)
    case JArr(xs) => ItemsExtracted(obj, key, |xs|)
    case _ => Some([])
  }

  /** The first `n` items of an object: each nested container first, then the own-key checks. */
  function EntriesExtracted(obj: Json, key: string, n: nat): Option<seq<Json>>
    requires obj.JObj? && n <= |obj.entries|
    decreases obj, 0, n
  {
    if n == 0 then Some([])
    else Concat(EntriesExtracted(obj, key, n - 1), EntryExtracted(obj.entries[n - 1], key))
  }

  /** One item of an object. */
  function EntryExtracted(e: (string, Json), key: string): Option<seq<Json>>
    decreases e
  {
    var nested := if IsContainer(e.1) then Extracted(e.1, key) else Some([]);
    Concat(Concat(nested, KeyPart(e.0, e.1, key)), Some(TextPart(e.0, e.1)))
  }

  /** The first `n` elements of a list, in order. */
  function ItemsExtracted(obj: Json, key: string, n: nat): Option<seq<Json>>
    requires obj.JArr? && n <= |obj.items|
    decreases obj, 0, n
  {
    if n == 0 then Some([]) else Concat(ItemsExtracted(obj, key, n - 1), Extracted(obj.items[n - 1], key))
  }

  /** Once an item raises, every longer prefix raises. */
  lemma {:induction false} EntriesErrorSticks(obj: Json, key: string, i: nat, n: nat)
    requires obj.JObj? && i <= n <= |obj.entries| && EntriesExtracted(obj, key, i).None?
    ensures EntriesExtracted(obj, key, n).None?
    decreases n
  {
    if n > i {
      EntriesErrorSticks(obj, key, i, n - 1);
    }
  }

  lemma {:induction false} ItemsErrorSticks(obj: Json, key: string, i: nat, n: nat)
    requires obj.JArr? && i <= n <= |obj.items| && ItemsExtracted(obj, key, i).None?
    ensures ItemsExtracted(obj, key, n).None?
    decreases n
  {
    if n > i {
      ItemsErrorSticks(obj, key, i, n - 1);
    }
  }

  /** `extract(obj, arr, key)`: appends to the shared list `arr`; None stands for the error it raises. */
  method Extract(obj: Json, key: string, arr: seq<Json>) returns (r: Option<seq<Json>>)
    ensures r == Concat(Some(arr), Extracted(obj, key))
    decreases obj, 1
  {
    match obj {
      case JObj(es) =>
        ConcatUnit(Some(arr));
        var acc := arr;
        var i := 0;
        while i < |es|
          invariant 0 <= i <= |es|
          invariant Concat(Some(arr), EntriesExtracted(obj, key, i)) == Some(acc)
        {
          var next := ExtractEntry(es[i], key, acc);
          ConcatAssoc(Some(arr), EntriesExtracted(obj, key, i), EntryExtracted(es[i], key));
          if next.None? {
            EntriesErrorSticks(obj, key, i + 1, |es|);
            return None;
          }
          acc := next.value;
          i := i + 1;
        }
        r := Some(acc);
      case JArr(xs) =>
        ConcatUnit(Some(arr));
        var acc := arr;
        var i := 0;
        while i < |xs|
          invariant 0 <= i <= |xs|
          invariant Concat(Some(arr), ItemsExtracted(obj, key, i)) == Some(acc)
        {
          var next := Extract(xs[i], key, acc);
          ConcatAssoc(Some(arr), ItemsExtracted(obj, key, i), Extracted(xs[i], key));
          if next.None? {
            ItemsErrorSticks(obj, key, i + 1, |xs|);
            return None;
          }
          acc := next.value;
          i := i + 1;
        }
        r := Some(acc);
      case _ =>
        ConcatUnit(Some(arr));
        r := Some(arr);
    }
  }

  /** The body of the loop over an object's items. */
  method ExtractEntry(e: (string, Json), key: string, arr: seq<Json>) returns (r: Option<seq<Json>>)
    ensures r == Concat(Some(arr), EntryExtracted(e, key))
    decreases e
  {
    var (k, v) := e;
    ghost var nestedSpec := if IsContainer(v) then Extracted(v, key) else Some([]);
    ConcatAssoc(Some(arr), Concat(nestedSpec, KeyPart(k, v, key)), Some(TextPart(k, v)));
    ConcatAssoc(Some(arr), nestedSpec, KeyPart(k, v, key));
    var acc := arr;
    if v.JObj? || v.JArr? {
      var nested := Extract(v, key, acc);
      if nested.None? {
        return None;
      }
      acc := nested.value;
    } else {
      ConcatUnit(Some(arr));
    }
    assert Some(acc) == Concat(Some(arr), nestedSpec);
    var own := KeyCheck(k, v, key, acc);
    if own.None? {
      return None;
    }
    acc := own.value;
    assert Some(acc) == Concat(Some(arr), Concat(nestedSpec, KeyPart(k, v, key)));
    if k == "text" && v != JNull {
      acc := acc + [v];
    } else {
      ConcatUnit(Some(acc));
    }
    r := Some(acc);
  }

  /** The own-key checks of an item, appending to `arr`. */
  method KeyCheck(k: string, v: Json, key: string, arr: seq<Json>) returns (r: Option<seq<Json>>)
    ensures r == Concat(Some(arr), KeyPart(k, v, key))
  {
    r := Some(arr);
    if k == key {
      match v {
        case JStr(s) =>
          if Contains(s, ".") {
            r := Some(arr + [JStr(FileTag + s)]);
          }
        case JArr(xs) =>
          if JStr(".") in xs {
            r := None;
          }
        case JObj(es) =>
          if HasKey(es, ".") {
            r := None;
          }
        case _ =>
          r := None;
      }
    }
    if r == Some(arr) {
      ConcatUnit(Some(arr));
    }
  }

  /** `_files_comments_helper`: the collected list for `obj`, starting from an empty one. */
  method FilesCommentsHelper(obj: Json, key: string) returns (r: Option<seq<Json>>)
    ensures r == Extracted(obj, key)
  {
    r := Extract(obj, key, []);
    ConcatUnit(Extracted(obj, key));
  }

  // ---------------------------------------------------------------------------------------------
  // Where the collected values come from
  // ---------------------------------------------------------------------------------------------

  /** `v` is the value of an item keyed `k` somewhere inside `obj`. */
  ghost predicate Under(obj: Json, k: string, v: Json)
    decreases obj
  {
    match obj
    case JObj(es) => exists i :: 0 <= i < |es| && ((es[i].0 == k && es[i].1 == v) || Under(es[i].1, k, v))
    case JArr(xs) => exists i :: 0 <= i < |xs| && Under(xs[i], k, v)
    case _ => false
  }

  /** A collected value is a file marker built from a dotted `key` value, or a non-null `text` value, of `obj`. */
  ghost predicate Origin(obj: Json, key: string, x: Json)
  {
    || (x.JStr? && FileTag <= x.s && Contains(x.s[|FileTag|..], ".") && Under(obj, key, JStr(x.s[|FileTag|..])))
    || (x != JNull && Under(obj, "text", x))
  }

  /** Every value `extract` collects comes from the document. */
  lemma {:induction false} ExtractedSound(obj: Json, key: string)
    requires Extracted(obj, key).Some?
    ensures forall x :: x in Extracted(obj, key).value ==> Origin(obj, key, x)
    decreases obj, 1
  {
    match obj {
      case JObj(es) => EntriesSound(obj, key, |es|);
      case JArr(xs) => ItemsSound(obj, key, |xs|);
      case _ =>
    }
  }

  lemma {:induction false} EntriesSound(obj: Json, key: string, n: nat)
    requires obj.JObj? && n <= |obj.entries| && EntriesExtracted(obj, key, n).Some?
    ensures forall x :: x in EntriesExtracted(obj, key, n).value ==> Origin(obj, key, x)
    decreases obj, 0, n
  {
    if n > 0 {
      var e := obj.entries[n - 1];
      EntriesSound(obj, key, n - 1);
      var nested := if IsContainer(e.1) then Extracted(e.1, key) else Some([]);
      assert nested.Some?;
      if IsContainer(e.1) {
        ExtractedSound(e.1, key);
      }
      forall x | x in nested.value ensures Origin(obj, key, x) {
        OriginLifts(obj, n - 1, key, x);
      }
      forall x | x in KeyPart(e.0, e.1, key).value ensures Origin(obj, key, x) {
        assert x.s[|FileTag|..] == e.1.s;
      }
    }
  }

  /** What comes from an item's value comes from the object. */
  lemma OriginLifts(obj: Json, i: nat, key: string, x: Json)
    requires obj.JObj? && i < |obj.entries| && Origin(obj.entries[i].1, key, x)
    ensures Origin(obj, key, x)
  {
  }

  lemma {:induction false} ItemsSound(obj: Json, key: string, n: nat)
    requires obj.JArr? && n <= |obj.items| && ItemsExtracted(obj, key, n).Some?
    ensures forall x :: x in ItemsExtracted(obj, key, n).value ==> Origin(obj, key, x)
    decreases obj, 0, n
  {
    if n > 0 {
      ItemsSound(obj, key, n - 1);
      ExtractedSound(obj.items[n - 1], key);
      forall x | x in Extracted(obj.items[n - 1], key).value ensures Origin(obj, key, x) {
        assert Origin(obj.items[n - 1], key, x);
        if x.JStr? && FileTag <= x.s && Contains(x.s[|FileTag|..], ".") && Under(obj.items[n - 1], key, JStr(x.s[|FileTag|..])) {
          assert Under(obj, key, JStr(x.s[|FileTag|..]));
        } else {
          assert Under(obj, "text", x);
        }
      }
    }
  }

  /** `v` is the value of an item keyed `k` inside one of the first `n` items of an object. */
  ghost predicate UnderEntries(es: seq<(string, Json)>, n: nat, k: string, v: Json)
    requires n <= |es|
  {
    exists i :: 0 <= i < n && ((es[i].0 == k && es[i].1 == v) || Under(es[i].1, k, v))
  }

  /** `v` is the value of an item keyed `k` inside one of the first `n` elements of a list. */
  ghost predicate UnderItems(xs: seq<Json>, n: nat, k: string, v: Json)
    requires n <= |xs|
  {
    exists i :: 0 <= i < n && Under(xs[i], k, v)
  }

  /** Every dotted value of `key` is collected behind `fl:`, and every non-null `text` value as it is. */
  lemma {:induction false} ExtractedComplete(obj: Json, key: string)
    requires Extracted(obj, key).Some?
    ensures forall s :: Under(obj, key, JStr(s)) && Contains(s, ".") ==> JStr(FileTag + s) in Extracted(obj, key).value
    ensures forall v :: Under(obj, "text", v) && v != JNull ==> v in Extracted(obj, key).value
    decreases obj, 1
  {
    match obj {
      case JObj(es) =>
        EntriesComplete(obj, key, |es|);
        forall s | Under(obj, key, JStr(s)) ensures UnderEntries(es, |es|, key, JStr(s)) { }
        forall v | Under(obj, "text", v) ensures UnderEntries(es, |es|, "text", v) { }
      case JArr(xs) =>
        ItemsComplete(obj, key, |xs|);
        forall s | Under(obj, key, JStr(s)) ensures UnderItems(xs, |xs|, key, JStr(s)) { }
        forall v | Under(obj, "text", v) ensures UnderItems(xs, |xs|, "text", v) { }
      case _ =>
    }
  }

  lemma {:induction false} EntriesComplete(obj: Json, key: string, n: nat)
    requires obj.JObj? && n <= |obj.entries| && EntriesExtracted(obj, key, n).Some?
    ensures forall s :: UnderEntries(obj.entries, n, key, JStr(s)) && Contains(s, ".") ==>
      JStr(FileTag + s) in EntriesExtracted(obj, key, n).value
    ensures forall v :: UnderEntries(obj.entries, n, "text", v) && v != JNull ==>
      v in EntriesExtracted(obj, key, n).value
    decreases obj, 0, n
  {
    if n > 0 {
      var es := obj.entries;
      var e := es[n - 1];
      var before := EntriesExtracted(obj, key, n - 1);
      var nested := if IsContainer(e.1) then Extracted(e.1, key) else Some([]);
      assert before.Some? && nested.Some? && KeyPart(e.0, e.1, key).Some?;
      var r := EntriesExtracted(obj, key, n).value;
      assert r == before.value + nested.value + KeyPart(e.0, e.1, key).value + TextPart(e.0, e.1);
      EntriesComplete(obj, key, n - 1);
      if IsContainer(e.1) {
        ExtractedComplete(e.1, key);
      }
      forall s | UnderEntries(es, n, key, JStr(s)) && Contains(s, ".") ensures JStr(FileTag + s) in r {
        var i :| 0 <= i < n && ((es[i].0 == key && es[i].1 == JStr(s)) || Under(es[i].1, key, JStr(s)));
        if i < n - 1 {
          assert UnderEntries(es, n - 1, key, JStr(s));
        } else if es[i].0 == key && es[i].1 == JStr(s) {
          assert KeyPart(e.0, e.1, key).value == [JStr(FileTag + s)];
        } else {
          assert IsContainer(e.1);
        }
      }
      forall v | UnderEntries(es, n, "text", v) && v != JNull ensures v in r {
        var i :| 0 <= i < n && ((es[i].0 == "text" && es[i].1 == v) || Under(es[i].1, "text", v));
        if i < n - 1 {
          assert UnderEntries(es, n - 1, "text", v);
        } else if es[i].0 == "text" && es[i].1 == v {
          assert TextPart(e.0, e.1) == [v];
        } else {
          assert IsContainer(e.1);
        }
      }
    }
  }

  lemma {:induction false} ItemsComplete(obj: Json, key: string, n: nat)
    requires obj.JArr? && n <= |obj.items| && ItemsExtracted(obj, key, n).Some?
    ensures forall s :: UnderItems(obj.items, n, key, JStr(s)) && Contains(s, ".") ==>
      JStr(FileTag + s) in ItemsExtracted(obj, key, n).value
    ensures forall v :: UnderItems(obj.items, n, "text", v) && v != JNull ==>
      v in ItemsExtracted(obj, key, n).value
    decreases obj, 0, n
  {
    if n > 0 {
      var xs := obj.items;
      var before := ItemsExtracted(obj, key, n - 1);
      assert before.Some? && Extracted(xs[n - 1], key).Some?;
      var r := ItemsExtracted(obj, key, n).value;
      assert r == before.value + Extracted(xs[n - 1], key).value;
      ItemsComplete(obj, key, n - 1);
      ExtractedComplete(xs[n - 1], key);
      forall s | UnderItems(xs, n, key, JStr(s)) && Contains(s, ".") ensures JStr(FileTag + s) in r {
        var i :| 0 <= i < n && Under(xs[i], key, JStr(s));
        if i < n - 1 {
          assert UnderItems(xs, n - 1, key, JStr(s));
        }
      }
      forall v | UnderItems(xs, n, "text", v) && v != JNull ensures v in r {
        var i :| 0 <= i < n && Under(xs[i], "text", v);
        if i < n - 1 {
          assert UnderItems(xs, n - 1, "text", v);
        }
      }
    }
  }

  // ---------------------------------------------------------------------------------------------
  // get_files_comments
  // ---------------------------------------------------------------------------------------------

  /** `"fl:" in x`; None where Python raises a TypeError (null, numbers, booleans). */
  function MarkerTest(x: Json): Option<bool>
  {
    match x
    case JStr(s) => Some(Contains(s, FileTag))
    case JArr(xs) => Some(JStr(FileTag) in xs)
    case JObj(es) => Some(HasKey(es, FileTag))
    case _ => None
  }

  predicate IsMarker(x: Json) { MarkerTest(x) == Some(true) }

  predicate IsText(x: Json) { MarkerTest(x) == Some(false) }

  /** `current_file` after the values `s`: the most recent marker, `""` before the first. */
  function Current(s: seq<Json>): Json
  {
    if s == [] then JStr("")
    else if IsMarker(s[|s| - 1]) then s[|s| - 1]
    else Current(s[..|s| - 1])
  }

  /** A `fl:` starts at index `k` of `f`. */
  predicate TagAt(f: string, k: int)
  {
    0 <= k && k + |FileTag| <= |f| && f[k..k + |FileTag|] == FileTag
  }

  /** Where the text after the last `fl:` among the first `i` characters of `f` starts (0 if there is none). */
  function PieceStart(f: string, i: nat): (r: nat)
    requires i <= |f|
    ensures r <= i
    decreases i
  {
    if i < |FileTag| then 0
    else if f[i - |FileTag|..i] == FileTag then i
    else PieceStart(f, i - 1)
  }

  /** A non-zero start follows a `fl:`, and no `fl:` ends after it. */
  lemma {:induction false} PieceStartLast(f: string, i: nat)
    requires i <= |f|
    ensures PieceStart(f, i) > 0 ==> TagAt(f, PieceStart(f, i) - |FileTag|)
    ensures forall k :: PieceStart(f, i) < k + |FileTag| <= i ==> !TagAt(f, k)
    decreases i
  {
    if i >= |FileTag| && f[i - |FileTag|..i] != FileTag {
      PieceStartLast(f, i - 1);
    }
  }

  /** `f.split("fl:")[-1]`. */
  function LastPiece(f: string): string
  {
    f[PieceStart(f, |f|)..]
  }

  /** The file in one pair, or None when `current_file` is a list or dict (it has no `split`). */
  function FileOf(current: Json): Option<string>
  {
    if current.JStr? then Some(LastPiece(current.s)) else None
  }

  /** The list `get_files_comments` returns for the collected values `s`; None when it raises. */
  function Mapped(s: seq<Json>): Option<seq<(string, Json)>>
  {
    if s == [] then Some([])
    else
      var init, x := s[..|s| - 1], s[|s| - 1];
      match Mapped(init)
      case None => None
      case Some(m) =>
        match MarkerTest(x)
        case None => None
        case Some(true) => Some(m)
        case Some(false) =>
          match FileOf(Current(init))
          case None => None
          case Some(f) => Some(m + [(f, x)])
  }

  /** The whole of `get_files_comments(obj)`. */
  function FilesComments(obj: Json): Option<seq<(string, Json)>>
  {
    match Extracted(obj, "name")
    case None => None
    case Some(u) => Mapped(u)
  }

  lemma {:induction false} MappedErrorSticks(s: seq<Json>, i: nat)
    requires i <= |s| && Mapped(s[..i]).None?
    ensures Mapped(s).None?
    decreases |s| - i
  {
    if i < |s| {
      TakeStep(s, i);
      assert s[..i + 1][..i] == s[..i];
      MappedErrorSticks(s, i + 1);
    } else {
      assert s[..i] == s;
    }
  }

  /** `get_files_comments`: None stands for the error Python raises. */
  method GetFilesComments(obj: Json) returns (r: Option<seq<(string, Json)>>)
    ensures r == FilesComments(obj)
  {
    var unmapped := FilesCommentsHelper(obj, "name");
    if unmapped.None? {
      return None;
    }
    var u := unmapped.value;
    var mapped: seq<(string, Json)> := [];
    var current := JStr("");
    var i := 0;
    while i < |u|
      invariant 0 <= i <= |u|
      invariant Mapped(u[..i]) == Some(mapped) && current == Current(u[..i])
    {
      var item := u[i];
      assert u[..i + 1][..i] == u[..i] && u[..i + 1][i] == item;
      var marker := MarkerTest(item);
      if marker.None? {
        MappedErrorSticks(u, i + 1);
        return None;
      }
      if marker.value {
        current := item;
      } else {
        if !current.JStr? {
          MappedErrorSticks(u, i + 1);
          return None;
        }
        mapped := mapped + [(LastPiece(current.s), item)];
      }
      i := i + 1;
    }
    assert u[..i] == u;
    r := Some(mapped);
  }

  // ---------------------------------------------------------------------------------------------
  // Properties of the pairing
  // ---------------------------------------------------------------------------------------------

  /** Exactly one pair per collected value that is not a marker, in order; markers yield none. */
  lemma {:induction false} MappedTexts(s: seq<Json>)
    requires Mapped(s).Some?
    ensures Map(Mapped(s).value, (p: (string, Json)) => p.1) == Filter(s, IsText)
    ensures forall x :: x in s ==> MarkerTest(x).Some?
  {
    if s != [] {
      var init, x := s[..|s| - 1], s[|s| - 1];
      MappedTexts(init);
      FilterSnoc(s, IsText);
      Snoc(s);
      var m := Mapped(init).value;
      if IsText(x) {
        MapSnoc(Mapped(s).value, (p: (string, Json)) => p.1);
        assert Mapped(s).value[..|Mapped(s).value| - 1] == m;
      }
    }
  }

  /** `current_file` is the latest marker, or `""` when no marker has been seen. */
  lemma {:induction false} CurrentIsLatest(s: seq<Json>)
    ensures || (Current(s) == JStr("") && forall i :: 0 <= i < |s| ==> !IsMarker(s[i]))
            || (exists i :: 0 <= i < |s| && Current(s) == s[i] && IsMarker(s[i])
                  && forall j :: i < j < |s| ==> !IsMarker(s[j]))
  {
    if s != [] {
      var init := s[..|s| - 1];
      CurrentIsLatest(init);
      if !IsMarker(s[|s| - 1]) {
        if Current(init) == JStr("") && forall i :: 0 <= i < |init| ==> !IsMarker(init[i]) {
          assert forall i :: 0 <= i < |s| ==> !IsMarker(s[i]) by {
            forall i | 0 <= i < |s| ensures !IsMarker(s[i]) {
              if i < |init| {
                assert s[i] == init[i];
              }
            }
          }
        } else {
          var i :| 0 <= i < |init| && Current(init) == init[i] && IsMarker(init[i])
            && forall j :: i < j < |init| ==> !IsMarker(init[j]);
          assert s[i] == init[i];
          assert forall j :: i < j < |s| ==> !IsMarker(s[j]) by {
            forall j | i < j < |s| ensures !IsMarker(s[j]) {
              if j < |init| {
                assert s[j] == init[j];
              }
            }
          }
        }
      }
    }
  }

  /** `f` contains no `fl:`. */
  ghost predicate NoFileTag(f: string)
  {
    forall k :: !TagAt(f, k)
  }

  /**
   * The file name is the end of the marker after its last `fl:`: a suffix without `fl:`, preceded by `fl:`
   * when the marker has one, and the whole text when it has none.
   */
  lemma LastPieceShape(f: string)
    ensures var r := LastPiece(f);
      && |r| <= |f| && f[|f| - |r|..] == r
      && NoFileTag(r)
      && (Contains(f, FileTag) ==> EndsWith(f[..|f| - |r|], FileTag))
      && (!Contains(f, FileTag) ==> r == f)
  {
    var start := PieceStart(f, |f|);
    LastPieceNoTag(f);
    PieceStartFound(f);
    if start > 0 {
      PieceStartLast(f, |f|);
      assert f[..start][start - |FileTag|..] == f[start - |FileTag|..start];
    }
  }

  /** The last piece contains no `fl:`. */
  lemma LastPieceNoTag(f: string)
    ensures NoFileTag(LastPiece(f))
  {
    var start := PieceStart(f, |f|);
    var r := f[start..];
    PieceStartLast(f, |f|);
    forall k | TagAt(r, k) ensures false {
      assert r[k..k + |FileTag|] == f[start + k..start + k + |FileTag|];
      assert TagAt(f, start + k);
    }
  }

  /** The last piece starts after a `fl:` exactly when the marker contains one. */
  lemma PieceStartFound(f: string)
    ensures PieceStart(f, |f|) > 0 <==> Contains(f, FileTag)
  {
    if Contains(f, FileTag) {
      PieceStartFoundIf(f);
    }
    if PieceStart(f, |f|) > 0 {
      PieceStartFoundOnlyIf(f);
    }
  }

  lemma PieceStartFoundIf(f: string)
    requires Contains(f, FileTag)
    ensures PieceStart(f, |f|) > 0
  {
    var k := ContainsIndex(f, FileTag);
    PieceStartLast(f, |f|);
    assert TagAt(f, k);
  }

  lemma PieceStartFoundOnlyIf(f: string)
    requires PieceStart(f, |f|) > 0
    ensures Contains(f, FileTag)
  {
    var k := PieceStart(f, |f|) - |FileTag|;
    PieceStartLast(f, |f|);
    assert TagAt(f, k);
    ContainsAtIndex(f, FileTag, k);
  }

  /** Python's `sub in s` holds once `sub` occurs at some index `k`. */
  lemma {:induction false} ContainsAtIndex(s: string, sub: string, k: nat)
    requires k + |sub| <= |s| && s[k..k + |sub|] == sub
    ensures Contains(s, sub)
    decreases k
  {
    if k == 0 {
      assert s[..|sub|] == sub;
    } else {
      assert s[1..][k - 1..k - 1 + |sub|] == sub;
      ContainsAtIndex(s[1..], sub, k - 1);
    }
  }

  /** An index where `sub` occurs in `s`, given `sub in s`. */
  lemma {:induction false} ContainsIndex(s: string, sub: string) returns (k: nat)
    requires Contains(s, sub)
    ensures k + |sub| <= |s| && s[k..k + |sub|] == sub
  {
    if sub <= s {
      k := 0;
      assert s[..|sub|] == sub;
    } else {
      var k1 := ContainsIndex(s[1..], sub);
      k := k1 + 1;
      assert s[k..k + |sub|] == s[1..][k1..k1 + |sub|];
    }
  }
}
