/**
 * The scraper's tree logic over an abstract srcML document: which elements lack a comment, the
 * handle of an element, and how the comments of a file become comment records (merging of adjacent
 * comments, comment type and handle, consecutive ids).
 */
module CommentScraper {
  import opened Wrappers
  import opened Text
  import opened Seqs
  import CommentObject

  /** The element tags that ought to carry a comment. */
  const CommentTypes: seq<string> := ["class", "function", "constructor", "interface", "enum"]

  /**
   * An element node of the srcML document: its tag, its `pos:start` attribute, the value of its first
   * child node (None when that child is not a text node), and its element children in document order.
   */
  datatype Element = Element(tag: string, pos: string, text: Option<string>, children: seq<Element>)

  /** One `comment` element of a file, in document order, with its next element sibling (None at the end). */
  datatype Site = Site(comment: Element, next: Option<Element>)

  /**
   * One `unit` element of the srcML archive: its `filename` and `language` attributes, the unit element
   * itself, and its `comment` elements in document order.
   */
  datatype Unit = Unit(filename: string, language: string, root: Element, comments: seq<Site>)

  /** A missing-comment record: `file`, `pos`, `name` (None for the header record) and `type`. */
  datatype MissingRecord = MissingRecord(file: string, pos: string, name: Option<string>, typ: string)

  /** The arguments a found comment is constructed with, apart from its id. */
  datatype Found = Found(path: string, line: string, typ: string, text: string, handle: Option<string>, language: string)

  // ---------------------------------------------------------------------------------------------
  // Sizes, for termination of the walks into nested blocks.
  // ---------------------------------------------------------------------------------------------

  function Size(e: Element): nat
    decreases e, 1
  {
    1 + SizeKids(e, |e.children|)
  }

  function SizeKids(e: Element, n: nat): nat
    requires n <= |e.children|
    decreases e, 0, n
  {
    if n == 0 then 0 else SizeKids(e, n - 1) + Size(e.children[n - 1])
  }

  lemma {:induction false} SizeKidsAtLeast(e: Element, n: nat, k: nat)
    requires k < n <= |e.children|
    ensures Size(e.children[k]) <= SizeKids(e, n)
  {
    if k < n - 1 {
      SizeKidsAtLeast(e, n - 1, k);
    }
  }

  lemma ChildSmaller(e: Element, k: nat)
    requires k < |e.children|
    ensures Size(e.children[k]) < Size(e)
  {
    SizeKidsAtLeast(e, |e.children|, k);
  }

  // ---------------------------------------------------------------------------------------------
  // get_handle
  // ---------------------------------------------------------------------------------------------

  /** The text of the last element of `cs` tagged `name`, or `""` when there is none. */
  function LastName(cs: seq<Element>): Option<string>
  {
    if cs == [] then Some("")
    else if cs[|cs| - 1].tag == "name" then cs[|cs| - 1].text
    else LastName(cs[..|cs| - 1])
  }

  /** With no child tagged `name` the handle is the empty string. */
  lemma {:induction false} LastNameNone(cs: seq<Element>)
    requires forall k :: 0 <= k < |cs| ==> cs[k].tag != "name"
    ensures LastName(cs) == Some("")
  {
    if cs != [] {
      assert cs[|cs| - 1].tag != "name";
      LastNameNone(cs[..|cs| - 1]);
    }
  }

  /** Otherwise it is the text of the last child tagged `name`. */
  lemma {:induction false} LastNameLast(cs: seq<Element>, k: nat)
    requires k < |cs| && cs[k].tag == "name"
    requires forall j :: k < j < |cs| ==> cs[j].tag != "name"
    ensures LastName(cs) == cs[k].text
  {
    if k < |cs| - 1 {
      assert cs[|cs| - 1].tag != "name";
      LastNameLast(cs[..|cs| - 1], k);
    }
  }

  /** `get_handle`: overwrites `name` with the text of every direct child tagged `name`. */
  method GetHandle(e: Element) returns (name: Option<string>)
    ensures name == LastName(e.children)
  {
    var attrs := e.children;
    name := Some("");
    var i := 0;
    while i < |attrs|
      invariant 0 <= i <= |attrs|
      invariant name == LastName(attrs[..i])
    {
      TakeStep(attrs, i);
      if attrs[i].tag == "name" {
        name := attrs[i].text;
      }
      i := i + 1;
    }
    TakeAll(attrs);
  }

  // ---------------------------------------------------------------------------------------------
  // get_missing_comments
  // ---------------------------------------------------------------------------------------------

  /**
   * The first element tagged `tag` among the first `n` children of `e` and their descendants, in
   * document order (`getElementsByTagName(tag)[0]`).
   */
  function FirstIn(e: Element, tag: string, n: nat): (r: Option<Element>)
    requires n <= |e.children|
    ensures r.Some? ==> r.value.tag == tag && Size(r.value) < Size(e)
    decreases e, n
  {
    if n == 0 then None
    else
      var before := FirstIn(e, tag, n - 1);
      if before.Some? then before
      else
        var c := e.children[n - 1];
        ChildSmaller(e, n - 1);
        if c.tag == tag then Some(c) else FirstIn(c, tag, |c.children|)
  }

  /** The first `block` element below `e`. */
  function FirstBlock(e: Element): (r: Option<Element>)
    ensures r.Some? ==> Size(r.value) < Size(e)
  {
    FirstIn(e, "block", |e.children|)
  }

  /** Child `i` of `e` should carry a comment and the element before it is not one. Index 0 never counts. */
  predicate Reported(e: Element, i: nat)
    requires i < |e.children|
  {
    1 <= i && e.children[i].tag in CommentTypes && !(i > 1 && e.children[i - 1].tag == "comment")
  }

  /** The record `get_missing_comments` writes for child `i` of `e`. */
  function RecordFor(e: Element, i: nat, path: string): MissingRecord
    requires i < |e.children|
  {
    var c := e.children[i];
    MissingRecord(path, c.pos, LastName(c.children), c.tag)
  }

  /** The missing comments below the children of `e`. */
  function Missing(e: Element, path: string): seq<MissingRecord>
    decreases Size(e), 1
  {
    MissingUpTo(e, path, |e.children|)
  }

  /** The missing comments contributed by the first `n` children of `e`. */
  function MissingUpTo(e: Element, path: string, n: nat): seq<MissingRecord>
    requires n <= |e.children|
    decreases Size(e), 0, n
  {
    if n == 0 then [] else MissingUpTo(e, path, n - 1) + MissingAt(e, path, n - 1)
  }

  /** A reported child adds its record, then the missing comments of the first block below it. */
  function MissingAt(e: Element, path: string, i: nat): seq<MissingRecord>
    requires i < |e.children|
    decreases Size(e), 0, i
  {
    if !Reported(e, i) then []
    else
      var b := FirstBlock(e.children[i]);
      ChildSmaller(e, i);
      [RecordFor(e, i, path)] + (if b.Some? then Missing(b.value, path) else [])
  }

  /** `get_missing_comments`, over the children of `e`. */
  method GetMissingComments(e: Element, path: string) returns (m: seq<MissingRecord>)
    ensures m == Missing(e, path)
    decreases Size(e)
  {
    var children := e.children;
    m := [];
    if |children| == 0 {
      return;
    }
    var i := 1;
    while i < |children|
      invariant 1 <= i <= |children|
      invariant m == MissingUpTo(e, path, i)
    {
      if children[i].tag in CommentTypes {
        if !(i > 1 && children[i - 1].tag == "comment") {
          var name := GetHandle(children[i]);
          m := m + [MissingRecord(path, children[i].pos, name, children[i].tag)];
          var b := FirstBlock(children[i]);
          if b.Some? {
            ChildSmaller(e, i);
            var more := GetMissingComments(b.value, path);
            m := m + more;
          }
        }
      }
      i := i + 1;
    }
  }

  /** Every record names the given file and has one of the comment types as its type. */
  lemma {:induction false} MissingRecordsWellFormed(e: Element, path: string)
    ensures forall r :: r in Missing(e, path) ==> r.file == path && r.typ in CommentTypes
    decreases Size(e), 1
  {
    MissingUpToWellFormed(e, path, |e.children|);
  }

  lemma {:induction false} MissingUpToWellFormed(e: Element, path: string, n: nat)
    requires n <= |e.children|
    ensures forall r :: r in MissingUpTo(e, path, n) ==> r.file == path && r.typ in CommentTypes
    decreases Size(e), 0, n
  {
    if n > 0 {
      MissingUpToWellFormed(e, path, n - 1);
      var i := n - 1;
      if Reported(e, i) {
        var b := FirstBlock(e.children[i]);
        ChildSmaller(e, i);
        if b.Some? {
          MissingRecordsWellFormed(b.value, path);
        }
      }
    }
  }

  /** The records of the first `n` children come first among those of the first `m`. */
  lemma {:induction false} MissingUpToPrefix(e: Element, path: string, n: nat, m: nat)
    requires n <= m <= |e.children|
    ensures MissingUpTo(e, path, n) <= MissingUpTo(e, path, m)
    decreases m
  {
    if n < m {
      MissingUpToPrefix(e, path, n, m - 1);
    }
  }

  /** A reported child's record is among the missing comments. */
  lemma ReportedIsListed(e: Element, path: string, i: nat)
    requires i < |e.children| && Reported(e, i)
    ensures RecordFor(e, i, path) in Missing(e, path)
  {
    MissingUpToPrefix(e, path, i + 1, |e.children|);
    var pre := MissingUpTo(e, path, i + 1);
    assert pre[|MissingUpTo(e, path, i)|] == RecordFor(e, i, path);
    assert pre[|MissingUpTo(e, path, i)|] == Missing(e, path)[|MissingUpTo(e, path, i)|];
  }

  /**
   * Children whose tags agree everywhere and whose subtrees agree at the reported positions give the
   * same records: what lies below a child that is not reported is never searched.
   */
  lemma {:induction false} MissingUpToLocal(e: Element, f: Element, path: string, n: nat)
    requires n <= |e.children| == |f.children|
    requires forall k :: 0 <= k < |e.children| ==> e.children[k].tag == f.children[k].tag
    requires forall k :: 0 <= k < n && Reported(e, k) ==> e.children[k] == f.children[k]
    ensures MissingUpTo(e, path, n) == MissingUpTo(f, path, n)
  {
    if n > 0 {
      MissingUpToLocal(e, f, path, n - 1);
      var i := n - 1;
      assert Reported(e, i) == Reported(f, i);
    }
  }

  /** A documented child (not reported) can have any subtree: the records do not change. */
  lemma DocumentedNotSearched(e: Element, path: string, i: nat, c: Element)
    requires i < |e.children| && !Reported(e, i) && c.tag == e.children[i].tag
    ensures Missing(e.(children := e.children[i := c]), path) == Missing(e, path)
  {
    var f := e.(children := e.children[i := c]);
    MissingUpToLocal(e, f, path, |e.children|);
  }

  /** The first child is never reported and never looked at, not even its tag. */
  lemma FirstChildIgnored(e: Element, path: string, c: Element)
    requires e.children != []
    ensures Missing(e.(children := e.children[0 := c]), path) == Missing(e, path)
  {
    var f := e.(children := e.children[0 := c]);
    assert e.children[1..] == f.children[1..];
    MissingUpToFrom1(e, f, path, |e.children|);
  }

  lemma {:induction false} MissingUpToFrom1(e: Element, f: Element, path: string, n: nat)
    requires n <= |e.children| == |f.children| && e.children != []
    requires e.children[1..] == f.children[1..]
    ensures MissingUpTo(e, path, n) == MissingUpTo(f, path, n)
  {
    if n > 0 {
      MissingUpToFrom1(e, f, path, n - 1);
      var i := n - 1;
      if i >= 1 {
        assert e.children[i] == e.children[1..][i - 1] == f.children[1..][i - 1] == f.children[i];
        if i > 1 {
          assert e.children[i - 1] == e.children[1..][i - 2] == f.children[1..][i - 2] == f.children[i - 1];
        }
      }
      assert Reported(e, i) == Reported(f, i);
    }
  }

  // ---------------------------------------------------------------------------------------------
  // The merge/classify/id loop of get_directory_comments
  // ---------------------------------------------------------------------------------------------

  predicate IsComment(o: Option<Element>)
  {
    o.Some? && o.value.tag == "comment"
  }

  /**
   * The sites come from one document: a site whose next sibling is a comment element is followed, in
   * document order, by that very comment.
   */
  predicate Chained(cs: seq<Site>)
  {
    forall i :: 0 <= i < |cs| && IsComment(cs[i].next) ==> i + 1 < |cs| && cs[i].next.value == cs[i + 1].comment
  }

  /** Every comment element starts with a text node. */
  predicate HasText(cs: seq<Site>)
  {
    forall i :: 0 <= i < |cs| ==> cs[i].comment.text.Some?
  }

  function TextOf(s: Site): string
  {
    if s.comment.text.Some? then s.comment.text.value else ""
  }

  /** The last site of the run of adjacent comments that starts at site `i`. */
  function RunEnd(cs: seq<Site>, i: nat): (r: nat)
    requires Chained(cs) && i < |cs|
    ensures i <= r < |cs| && !IsComment(cs[r].next)
    decreases |cs| - i
  {
    if IsComment(cs[i].next) then RunEnd(cs, i + 1) else i
  }

  /** Inside a run every comment is followed by the next one. */
  lemma {:induction false} RunEndLinks(cs: seq<Site>, i: nat, k: nat)
    requires Chained(cs) && i < |cs| && i <= k < RunEnd(cs, i)
    ensures IsComment(cs[k].next) && cs[k].next.value == cs[k + 1].comment
    decreases |cs| - i
  {
    if k > i {
      RunEndLinks(cs, i + 1, k);
    }
  }

  /** The texts of a run joined by the two characters backslash and `n`. */
  function RunText(cs: seq<Site>, s: nat, j: nat): string
    requires s <= j < |cs|
    decreases j
  {
    if j == s then TextOf(cs[s]) else RunText(cs, s, j - 1) + "\\n" + TextOf(cs[j])
  }

  /** The record of the run `cs[s..j + 1]`, typed and named after the element that follows it. */
  function RecordOf(u: Unit, s: nat, j: nat): Found
    requires s <= j < |u.comments|
  {
    var line := u.comments[s].comment.pos;
    var sibling := u.comments[j].next;
    Found(u.filename, line, TypeOf(line, sibling), RunText(u.comments, s, j), HandleOf(sibling), u.language)
  }

  /** The element after a run names the comment's type when its tag is one of the comment types. */
  predicate Typed(sibling: Option<Element>)
  {
    sibling.Some? && sibling.value.tag in CommentTypes
  }

  function TypeOf(line: string, sibling: Option<Element>): string
  {
    if Typed(sibling) then sibling.value.tag else if line == "1:1" then "header" else "in-line"
  }

  function HandleOf(sibling: Option<Element>): Option<string>
  {
    if Typed(sibling) then LastName(sibling.value.children) else None
  }

  /** A comment is kept unless it is blank once its newlines are removed and it is stripped: unless it is all whitespace. */
  predicate NonBlank(text: string)
  {
    !AllSpace(text)
  }

  /** The records of the runs from site `i` on, blank ones dropped. */
  function Records(u: Unit, i: nat): seq<Found>
    requires Chained(u.comments) && i <= |u.comments|
    decreases |u.comments| - i
  {
    if i == |u.comments| then []
    else
      var j := RunEnd(u.comments, i);
      var f := RecordOf(u, i, j);
      (if NonBlank(f.text) then [f] else []) + Records(u, j + 1)
  }

  /**
   * The record a run of adjacent comments becomes, read off the run itself: the first comment's
   * position, the texts joined by backslash and `n`, and the type and handle the element after the
   * last comment gives.
   */
  function RunRecord(u: Unit, g: seq<Site>): Found
    requires g != []
  {
    var line := g[0].comment.pos;
    var sibling := g[|g| - 1].next;
    Found(u.filename, line, TypeOf(line, sibling), Join("\\n", Map(g, TextOf)), HandleOf(sibling), u.language)
  }

  /** The record of each run among `rs`, in order. */
  function RunRecords(u: Unit, rs: seq<seq<Site>>): (r: seq<Found>)
    requires AllNonEmpty(rs)
    ensures |r| == |rs| && forall n :: 0 <= n < |rs| ==> r[n] == RunRecord(u, rs[n])
  {
    seq(|rs|, n requires 0 <= n < |rs| => RunRecord(u, rs[n]))
  }

  predicate Kept(f: Found)
  {
    NonBlank(f.text)
  }

  /** The records of the non-blank runs among `rs`, in order. */
  function KeptRecords(u: Unit, rs: seq<seq<Site>>): seq<Found>
    requires AllNonEmpty(rs)
  {
    Filter(RunRecords(u, rs), Kept)
  }

  /** The index scan yields, in order, one record per run of adjacent comments, blank ones dropped. */
  lemma {:induction false} RecordsOfRuns(u: Unit, i: nat)
    requires Chained(u.comments) && i <= |u.comments|
    ensures AllNonEmpty(Runs(u.comments, i))
    ensures Records(u, i) == KeptRecords(u, Runs(u.comments, i))
    decreases |u.comments| - i
  {
    RunsNonEmpty(u.comments, i);
    if i < |u.comments| {
      RecordsOfRuns(u, RunEnd(u.comments, i) + 1);
      RecordsOfRunsStep(u, i);
    }
  }

  /** If the records after the first run are those of the later runs, the records from `i` are those of all runs. */
  lemma RecordsOfRunsStep(u: Unit, i: nat)
    requires Chained(u.comments) && i < |u.comments|
    requires AllNonEmpty(Runs(u.comments, i)) && AllNonEmpty(Runs(u.comments, RunEnd(u.comments, i) + 1))
    requires Records(u, RunEnd(u.comments, i) + 1) == KeptRecords(u, Runs(u.comments, RunEnd(u.comments, i) + 1))
    ensures Records(u, i) == KeptRecords(u, Runs(u.comments, i))
  {
    RunsHead(u.comments, i);
    RecordsHead(u, i);
    KeptRecordsHead(u, Runs(u.comments, i));
  }

  /** The scan's first record is the record of the first run. */
  lemma RecordsHead(u: Unit, i: nat)
    ensures Chained(u.comments) && i < |u.comments| ==>
      var f := RunRecord(u, u.comments[i..RunEnd(u.comments, i) + 1]);
      Records(u, i) == (if Kept(f) then [f] else []) + Records(u, RunEnd(u.comments, i) + 1)
  {
    if Chained(u.comments) && i < |u.comments| {
      var j := RunEnd(u.comments, i);
      RunRecordOf(u, i, j);
      RecordsStep(u, i, j, RecordOf(u, i, j));
    }
  }

  /** The kept records of non-empty runs: the first run's record unless blank, then those of the rest. */
  lemma KeptRecordsHead(u: Unit, rs: seq<seq<Site>>)
    ensures AllNonEmpty(rs) && rs != [] ==>
      AllNonEmpty(rs[1..]) &&
      var f := RunRecord(u, rs[0]);
      KeptRecords(u, rs) == (if Kept(f) then [f] else []) + KeptRecords(u, rs[1..])
  {
    if AllNonEmpty(rs) && rs != [] {
      assert RunRecords(u, rs)[1..] == RunRecords(u, rs[1..]);
    }
  }

  /** The first run from site `i` ends at `RunEnd`, and the runs after it start right behind it. */
  lemma RunsHead(cs: seq<Site>, i: nat)
    ensures Chained(cs) && i < |cs| ==>
      var rs := Runs(cs, i);
      rs != [] && rs[0] == cs[i..RunEnd(cs, i) + 1] && rs[1..] == Runs(cs, RunEnd(cs, i) + 1)
  {
  }

  /** No run is empty. */
  predicate AllNonEmpty(rs: seq<seq<Site>>)
  {
    forall n :: 0 <= n < |rs| ==> rs[n] != []
  }

  lemma RunsNonEmpty(cs: seq<Site>, i: nat)
    ensures Chained(cs) && i <= |cs| ==> AllNonEmpty(Runs(cs, i))
  {
    if Chained(cs) && i <= |cs| {
      RunsShape(cs, i);
      forall n | 0 <= n < |Runs(cs, i)| ensures Runs(cs, i)[n] != [] {
        assert RunShaped(Runs(cs, i)[n]);
      }
    }
  }

  /** The scan's record of sites `s..j` is the record of that slice as a run. */
  lemma RunRecordOf(u: Unit, s: nat, j: nat)
    requires s <= j < |u.comments|
    ensures RecordOf(u, s, j) == RunRecord(u, u.comments[s..j + 1])
  {
    var g := u.comments[s..j + 1];
    RunTextJoin(u.comments, s, j);
    RunTextsAt(u.comments, s, j);
    assert RunTexts(u.comments, s, j) == Map(g, TextOf);
  }

  /** The first run from site `i`, ending at `j`, gives the first record `f` unless it is blank. */
  lemma RecordsStep(u: Unit, i: nat, j: nat, f: Found)
    requires Chained(u.comments) && i < |u.comments|
    requires j == RunEnd(u.comments, i) && f == RecordOf(u, i, j)
    ensures Records(u, i) == (if NonBlank(f.text) then [f] else []) + Records(u, j + 1)
  {
  }

  /** The runs of adjacent comments from site `i` on. */
  function Runs(cs: seq<Site>, i: nat): seq<seq<Site>>
    requires Chained(cs) && i <= |cs|
    decreases |cs| - i
  {
    if i == |cs| then [] else [cs[i..RunEnd(cs, i) + 1]] + Runs(cs, RunEnd(cs, i) + 1)
  }

  /** The runs consume every comment exactly once and in order. */
  lemma {:induction false} RunsPartition(cs: seq<Site>, i: nat)
    requires Chained(cs) && i <= |cs|
    ensures Flatten(Runs(cs, i)) == cs[i..]
    decreases |cs| - i
  {
    if i < |cs| {
      var j := RunEnd(cs, i);
      RunsPartition(cs, j + 1);
      FlattenCons(cs[i..j + 1], Runs(cs, j + 1));
      SliceJoin(cs, i, j + 1);
    }
  }

  /**
   * Each run is non-empty, each of its later comments is the next sibling of the one before, and the
   * element after its last comment is no comment.
   */
  lemma {:induction false} RunsShape(cs: seq<Site>, i: nat)
    requires Chained(cs) && i <= |cs|
    ensures forall n :: 0 <= n < |Runs(cs, i)| ==> RunShaped(Runs(cs, i)[n])
    decreases |cs| - i
  {
    if i < |cs| {
      var j := RunEnd(cs, i);
      var g := cs[i..j + 1];
      RunsShape(cs, j + 1);
      forall k | 0 < k < |g| ensures g[k - 1].next == Some(g[k].comment) {
        RunEndLinks(cs, i, i + k - 1);
        assert g[k - 1] == cs[i + k - 1] && g[k] == cs[i + k];
      }
      assert RunShaped(g);
      var rs := Runs(cs, i);
      forall n | 0 <= n < |rs| ensures RunShaped(rs[n]) {
        if n > 0 {
          assert rs[n] == Runs(cs, j + 1)[n - 1];
        }
      }
    }
  }

  /** A run: non-empty, linked by next siblings, and not followed by a comment. */
  predicate RunShaped(g: seq<Site>)
  {
    && g != [] && !IsComment(g[|g| - 1].next)
    && forall k :: 0 < k < |g| ==> g[k - 1].next == Some(g[k].comment)
  }

  /** The texts of the comments of the run `cs[s..j + 1]`, in order. */
  function RunTexts(cs: seq<Site>, s: nat, j: nat): (r: seq<string>)
    requires s <= j < |cs|
    ensures |r| == j - s + 1
    decreases j
  {
    if j == s then [TextOf(cs[s])] else RunTexts(cs, s, j - 1) + [TextOf(cs[j])]
  }

  lemma {:induction false} RunTextsAt(cs: seq<Site>, s: nat, j: nat)
    requires s <= j < |cs|
    ensures forall k :: 0 <= k <= j - s ==> RunTexts(cs, s, j)[k] == TextOf(cs[s + k])
    decreases j
  {
    if j > s {
      RunTextsAt(cs, s, j - 1);
    }
  }

  /** A run's text is `'\\n'.join` of the texts of its comments. */
  lemma {:induction false} RunTextJoin(cs: seq<Site>, s: nat, j: nat)
    requires s <= j < |cs|
    ensures RunText(cs, s, j) == Join("\\n", RunTexts(cs, s, j))
    decreases j
  {
    if j > s {
      RunTextJoin(cs, s, j - 1);
      JoinSnoc("\\n", RunTexts(cs, s, j - 1), TextOf(cs[j]));
    }
  }

  /** A record's type and handle: the following element's tag and handle when that tag is a comment type. */
  lemma RecordTyping(u: Unit, s: nat, j: nat)
    requires s <= j < |u.comments|
    ensures var f := RecordOf(u, s, j); var sib := u.comments[j].next;
      && (sib.Some? && sib.value.tag in CommentTypes ==> f.typ == sib.value.tag && f.handle == LastName(sib.value.children))
      && (!(sib.Some? && sib.value.tag in CommentTypes) ==> f.handle.None? && (f.typ == "header" <==> f.line == "1:1"))
      && f.typ in CommentTypes + ["header", "in-line"]
  {
  }

  /** Each kept record has a non-blank text. */
  lemma {:induction false} RecordsNonBlank(u: Unit, i: nat)
    requires Chained(u.comments) && i <= |u.comments|
    ensures forall k :: 0 <= k < |Records(u, i)| ==> NonBlank(Records(u, i)[k].text) && Records(u, i)[k].path == u.filename
    decreases |u.comments| - i
  {
    if i < |u.comments| {
      RecordsNonBlank(u, RunEnd(u.comments, i) + 1);
    }
  }

  /** The header record a file gets when its first element is not a comment. */
  function HeaderRecord(path: string): MissingRecord
  {
    MissingRecord(path, "1:1", None, "header")
  }

  /** What the source needs of a unit it does not skip: an element child, and comments from one document that start with text. */
  predicate UnitOk(u: Unit)
  {
    u.filename == "" || (u.root.children != [] && Chained(u.comments) && HasText(u.comments))
  }

  /** The comments found in a unit; a unit without a file name is skipped. */
  function FileFound(u: Unit): seq<Found>
    requires UnitOk(u)
  {
    if u.filename == "" then [] else Records(u, 0)
  }

  /** The missing comments of a unit: the header record, then those of `get_missing_comments`. */
  function FileMissing(u: Unit): seq<MissingRecord>
    requires UnitOk(u)
  {
    if u.filename == "" then []
    else (if u.root.children[0].tag != "comment" then [HeaderRecord(u.filename)] else []) + Missing(u.root, u.filename)
  }

  /** The header record leads a file's missing comments exactly when its first element is not a comment. */
  lemma HeaderRule(u: Unit)
    requires UnitOk(u) && u.filename != ""
    ensures u.root.children[0].tag != "comment" <==> (FileMissing(u) != [] && FileMissing(u)[0] == HeaderRecord(u.filename))
  {
    MissingRecordsWellFormed(u.root, u.filename);
    if u.root.children[0].tag == "comment" && FileMissing(u) != [] {
      assert FileMissing(u)[0] in Missing(u.root, u.filename);
    }
  }

  predicate UnitsOk(units: seq<Unit>)
  {
    forall k :: 0 <= k < |units| ==> UnitOk(units[k])
  }

  function AllFound(units: seq<Unit>): seq<Found>
    requires UnitsOk(units)
  {
    if units == [] then [] else AllFound(units[..|units| - 1]) + FileFound(units[|units| - 1])
  }

  function AllMissing(units: seq<Unit>): seq<MissingRecord>
    requires UnitsOk(units)
  {
    if units == [] then [] else AllMissing(units[..|units| - 1]) + FileMissing(units[|units| - 1])
  }

  /** The constructor arguments of a found comment, apart from its id. */
  function Describe(c: CommentObject.Comment): Found
  {
    Found(c.path, c.line, c.commentType, c.text, c.handle, c.codeLanguage)
  }

  /** The comments carry the records `want` and the ids from `first` on, one after another. */
  ghost predicate Numbered(found: seq<CommentObject.Comment>, want: seq<Found>, first: int)
  {
    && |found| == |want|
    && forall k :: 0 <= k < |found| ==> found[k].id == first + k && Describe(found[k]) == want[k]
  }

  lemma NumberedAppend(a: seq<CommentObject.Comment>, wa: seq<Found>, b: seq<CommentObject.Comment>, wb: seq<Found>, first: int)
    requires Numbered(a, wa, first) && Numbered(b, wb, first + |a|)
    ensures Numbered(a + b, wa + wb, first)
  {
    forall k | 0 <= k < |a + b| ensures (a + b)[k].id == first + k && Describe((a + b)[k]) == (wa + wb)[k] {
      if k >= |a| {
        assert (a + b)[k] == b[k - |a|] && (wa + wb)[k] == wb[k - |a|];
      }
    }
  }

  lemma NumberedSnoc(found: seq<CommentObject.Comment>, want: seq<Found>, c: CommentObject.Comment, f: Found, first: int)
    requires Numbered(found, want, first) && c.id == first + |found| && Describe(c) == f
    ensures Numbered(found + [c], want + [f], first)
  {
  }

  /**
   * The inner `while` loop: from site `i`, appends the texts of the adjacent comments that follow;
   * returns the run's text, its last site and the element after it.
   */
  method MergeRun(comments: seq<Site>, i: nat) returns (text: string, j: nat, sibling: Option<Element>)
    requires Chained(comments) && HasText(comments) && i < |comments|
    ensures j == RunEnd(comments, i) && text == RunText(comments, i, j) && sibling == comments[j].next
  {
    j := i;
    text := comments[i].comment.text.value;
    sibling := comments[i].next;
    while sibling.Some? && sibling.value.tag == "comment"
      invariant i <= j < |comments| && sibling == comments[j].next
      invariant text == RunText(comments, i, j)
      invariant RunEnd(comments, i) == RunEnd(comments, j)
      decreases |comments| - j
    {
      text := text + "\\n" + sibling.value.text.value;
      j := j + 1;
      sibling := comments[j].next;
    }
  }

  /**
   * One pass of the loop body from site `i`: the merged run up to site `j`, its line, type, text and
   * handle, and whether it is kept.
   */
  method ScrapeRun(u: Unit, i: nat) returns (f: Found, j: nat, keep: bool)
    requires Chained(u.comments) && HasText(u.comments) && i < |u.comments|
    ensures j == RunEnd(u.comments, i) && f == RecordOf(u, i, j) && keep == NonBlank(f.text)
  {
    var line := u.comments[i].comment.pos;
    var text, sibling;
    text, j, sibling := MergeRun(u.comments, i);
    var typ, handle := Classify(line, sibling);
    keep := IsKept(text);
    f := Found(u.filename, line, typ, text, handle, u.language);
  }

  /** The default type, the header rule at `1:1`, and the override by the following element. */
  method Classify(line: string, sibling: Option<Element>) returns (typ: string, handle: Option<string>)
    ensures typ == TypeOf(line, sibling) && handle == HandleOf(sibling)
  {
    typ := "in-line";
    handle := None;
    if line == "1:1" {
      typ := "header";
    }
    if sibling.Some? && sibling.value.tag in CommentTypes {
      typ := sibling.value.tag;
      handle := GetHandle(sibling.value);
    }
  }

  /** The test that discards empty comments. */
  method IsKept(text: string) returns (keep: bool)
    ensures keep == NonBlank(text)
  {
    keep := Strip(RemoveChar(text, '\n')) != "";
    BlankAfterNewlines(text);
  }

  /** The scraper; `id` numbers the found comments across files. */
  class Scraper {
    var id: int

    constructor ()
      ensures id == 0
    {
      id := 0;
    }

    /** The body of the loop over the units of the archive, for one unit. */
    method ScrapeFile(u: Unit) returns (found: seq<CommentObject.Comment>, missing: seq<MissingRecord>)
      requires UnitOk(u)
      modifies this
      ensures Numbered(found, FileFound(u), old(id)) && id == old(id) + |found|
      ensures missing == FileMissing(u)
    {
      found, missing := [], [];
      if u.filename == "" {
        return;
      }
      found := ScrapeComments(u);
      var children := u.root.children;
      if children[0].tag != "comment" {
        missing := missing + [HeaderRecord(u.filename)];
      }
      var more := GetMissingComments(u.root, u.filename);
      missing := missing + more;
    }

    /** The `while` loop over the comments of one file: merge each run, type it, keep it unless blank. */
    method ScrapeComments(u: Unit) returns (found: seq<CommentObject.Comment>)
      requires Chained(u.comments) && HasText(u.comments)
      modifies this
      ensures Numbered(found, Records(u, 0), old(id)) && id == old(id) + |found|
    {
      found := [];
      var comments := u.comments;
      ghost var done: seq<Found> := [];
      var i := 0;
      while i < |comments|
        invariant 0 <= i <= |comments|
        invariant done + Records(u, i) == Records(u, 0)
        invariant Numbered(found, done, old(id)) && id == old(id) + |found|
        decreases |comments| - i
      {
        ghost var start := i;
        var f, keep;
        f, i, keep := ScrapeRun(u, i);
        ghost var kept := if keep then [f] else [];
        RecordsStep(u, start, i, f);
        AppendAssoc(done, kept, Records(u, i + 1));
        if keep {
          var c := new CommentObject.Comment(id, f.path, f.line, f.typ, f.text, f.handle, f.language);
          NumberedSnoc(found, done, c, f, old(id));
          found := found + [c];
          id := id + 1;
        }
        done := done + kept;
        i := i + 1;
      }
    }

    /** `get_directory_comments` after srcML has run: the found and the missing comments of every unit, in order. */
    method GetDirectoryComments(units: seq<Unit>) returns (found: seq<CommentObject.Comment>, missing: seq<MissingRecord>)
      requires UnitsOk(units)
      modifies this
      ensures Numbered(found, AllFound(units), old(id)) && id == old(id) + |found|
      ensures missing == AllMissing(units)
    {
      found, missing := [], [];
      var i := 0;
      while i < |units|
        invariant 0 <= i <= |units|
        invariant Numbered(found, AllFound(units[..i]), old(id)) && id == old(id) + |found|
        invariant missing == AllMissing(units[..i])
      {
        assert UnitOk(units[i]);
        var f, m := ScrapeFile(units[i]);
        NumberedAppend(found, AllFound(units[..i]), f, FileFound(units[i]), old(id));
        found := found + f;
        missing := missing + m;
        TakeStep(units, i);
        assert units[..i + 1][..i] == units[..i];
        i := i + 1;
      }
      TakeAll(units);
    }
  }
}
