/** The finished sitemap and what the browser shows of it: a filter that keeps what matches, and
    a compression that joins runs of directories nobody requested into one row. */
module SiteView {
  import opened Bytes
  import opened Ascii
  import opened Letters
  import opened SiteTree

  /** A finished node: its rows, those of its whole subtree, and its children. */
  datatype SiteNode = SiteNode(origin: Origin, segs: Segments, count: nat, subtree: nat, children: seq<SiteNode>)

  function SubtreeSum(ts: seq<SiteNode>): nat {
    if ts == [] then 0 else SubtreeSum(ts[..|ts| - 1]) + ts[|ts| - 1].subtree
  }

  /** Every subtree count is the node's own count and its children's subtree counts. */
  predicate WellCounted(t: SiteNode) {
    && t.subtree == t.count + SubtreeSum(t.children)
    && forall i :: 0 <= i < |t.children| ==> WellCounted(t.children[i])
  }

  /** A host's origin, or a node's last segment. */
  function NameOf(t: SiteNode): string {
    if t.segs == [] then (if t.origin.tls then "https://" else "http://") + t.origin.netloc else t.segs[|t.segs| - 1]
  }

  function PathOf(segs: Segments): string {
    if segs == [] then "" else if segs == ["/"] then "/" else PathOf(segs[..|segs| - 1]) + "/" + segs[|segs| - 1]
  }

  /** A node and everything below it, in the order the tree lists them. */
  function Preorder(t: SiteNode): (r: seq<SiteNode>)
    ensures |r| > 0 && r[0] == t
    decreases t, 1
  {
    [t] + PreorderAll(t.children)
  }

  function PreorderAll(ts: seq<SiteNode>): seq<SiteNode>
    decreases ts, 0
  {
    if ts == [] then [] else PreorderAll(ts[..|ts| - 1]) + Preorder(ts[|ts| - 1])
  }

  // ------------------------------------------------------------------ filter

  predicate Hit(t: SiteNode, needle: string) {
    Contains(Lower(NameOf(t)), needle) || Contains(Lower(PathOf(t.segs)), needle)
  }

  function FilterTree(t: SiteNode, needle: string): Option<SiteNode>
    decreases t, 1
  {
    if Hit(t, needle) then Some(t)
    else
      var children := FilterAll(t.children, needle);
      if children == [] then None else Some(t.(children := children))
  }

  function FilterAll(ts: seq<SiteNode>, needle: string): seq<SiteNode>
    decreases ts, 0
  {
    if ts == [] then [] else
      FilterAll(ts[..|ts| - 1], needle)
      + match FilterTree(ts[|ts| - 1], needle) case Some(t) => [t] case None => []
  }

  /** A node as the tree shows it, without its children. */
  datatype Entry = Entry(origin: Origin, segs: Segments, count: nat, subtree: nat)

  function EntryOf(t: SiteNode): Entry { Entry(t.origin, t.segs, t.count, t.subtree) }

  function Entries(ts: seq<SiteNode>): seq<Entry> {
    if ts == [] then [] else Entries(ts[..|ts| - 1]) + [EntryOf(ts[|ts| - 1])]
  }

  predicate AnyHit(ts: seq<SiteNode>, needle: string) { exists i :: 0 <= i < |ts| && Hit(ts[i], needle) }

  /** The entries to keep, in order: a node that matches, has a match above it (`under`), or has a
      match below it. */
  function Wanted(t: SiteNode, needle: string, under: bool): seq<Entry>
    decreases t, 1
  {
    (if under || AnyHit(Preorder(t), needle) then [EntryOf(t)] else [])
    + WantedAll(t.children, needle, under || Hit(t, needle))
  }

  function WantedAll(ts: seq<SiteNode>, needle: string, under: bool): seq<Entry>
    decreases ts, 0
  {
    if ts == [] then [] else WantedAll(ts[..|ts| - 1], needle, under) + Wanted(ts[|ts| - 1], needle, under)
  }

  lemma {:induction false} EntriesAppend(a: seq<SiteNode>, b: seq<SiteNode>)
    ensures Entries(a + b) == Entries(a) + Entries(b)
  {
    if b == [] { assert a + b == a; }
    else {
      assert (a + b)[..|a + b| - 1] == a + b[..|b| - 1];
      EntriesAppend(a, b[..|b| - 1]);
    }
  }

  lemma EntriesOne(t: SiteNode)
    ensures Entries([t]) == [EntryOf(t)]
  {
    assert [t][..0] == [];
  }

  lemma EntriesNode(t: SiteNode)
    ensures Entries(Preorder(t)) == [EntryOf(t)] + Entries(PreorderAll(t.children))
  {
    hide Entries;
    EntriesOne(t);
    EntriesAppend([t], PreorderAll(t.children));
  }

  /** Under a match everything is kept. */
  lemma {:induction false} WantedUnder(t: SiteNode, needle: string)
    ensures Wanted(t, needle, true) == Entries(Preorder(t))
    decreases t, 1
  {
    EntriesNode(t);
    WantedAllUnder(t.children, needle);
  }

  lemma {:induction false} WantedAllUnder(ts: seq<SiteNode>, needle: string)
    ensures WantedAll(ts, needle, true) == Entries(PreorderAll(ts))
    decreases ts, 0
  {
    if ts != [] {
      WantedAllUnder(ts[..|ts| - 1], needle);
      WantedUnder(ts[|ts| - 1], needle);
      EntriesAppend(PreorderAll(ts[..|ts| - 1]), Preorder(ts[|ts| - 1]));
    }
  }

  lemma AnyHitAppend(a: seq<SiteNode>, b: seq<SiteNode>, needle: string)
    ensures AnyHit(a + b, needle) <==> AnyHit(a, needle) || AnyHit(b, needle)
  {
    if AnyHit(a, needle) {
      var i :| 0 <= i < |a| && Hit(a[i], needle);
      assert Hit((a + b)[i], needle);
    }
    if AnyHit(b, needle) {
      var i :| 0 <= i < |b| && Hit(b[i], needle);
      assert Hit((a + b)[|a| + i], needle);
    }
  }

  /** A tree is kept exactly when something in it matches, and what is kept of it is what is wanted. */
  lemma {:induction false} FilterKeeps(t: SiteNode, needle: string)
    ensures FilterTree(t, needle).Some? <==> AnyHit(Preorder(t), needle)
    ensures Wanted(t, needle, false)
         == match FilterTree(t, needle) case Some(f) => Entries(Preorder(f)) case None => []
    decreases t, 1
  {
    hide Hit;
    FilterAllKeeps(t.children, needle);
    AnyHitAppend([t], PreorderAll(t.children), needle);
    assert AnyHit([t], needle) <==> Hit(t, needle) by { assert [t][0] == t; }
    if Hit(t, needle) {
      EntriesNode(t);
      WantedAllUnder(t.children, needle);
    } else {
      EntriesNode(t.(children := FilterAll(t.children, needle)));
    }
  }

  lemma {:induction false} FilterAllKeeps(ts: seq<SiteNode>, needle: string)
    ensures FilterAll(ts, needle) != [] <==> AnyHit(PreorderAll(ts), needle)
    ensures WantedAll(ts, needle, false) == Entries(PreorderAll(FilterAll(ts, needle)))
    decreases ts, 0
  {
    if ts != [] {
      hide Hit;
      var front, last := ts[..|ts| - 1], ts[|ts| - 1];
      FilterAllKeeps(front, needle);
      FilterKeeps(last, needle);
      AnyHitAppend(PreorderAll(front), Preorder(last), needle);
      var kept := FilterAll(front, needle);
      match FilterTree(last, needle)
      case None =>
        assert FilterAll(ts, needle) == kept;
      case Some(f) =>
        assert (kept + [f])[..|kept|] == kept;
        EntriesAppend(PreorderAll(kept), Preorder(f));
    }
  }

  // ---------------------------------------------------------------- compress

  /** A row of the view: the node it stands for, its label and the rows below it. */
  datatype ViewNode = ViewNode(node: SiteNode, caption: string, children: seq<ViewNode>)

  /** A directory nobody requested, with one child, tells nothing by itself. */
  predicate Joins(t: SiteNode) { t.segs != [] && t.count == 0 && |t.children| == 1 }

  /** The deepest node of a run, and the run's label. */
  function RunEnd(t: SiteNode): SiteNode { if Joins(t) then RunEnd(t.children[0]) else t }

  function RunLabel(t: SiteNode, caption: string): string {
    if Joins(t) then RunLabel(t.children[0], caption + "/" + NameOf(t.children[0])) else caption
  }

  lemma {:induction false} RunEndBelow(t: SiteNode)
    ensures RunEnd(t) == t || RunEnd(t) < t
  {
    if Joins(t) { RunEndBelow(t.children[0]); }
  }

  function Compress(t: SiteNode, enabled: bool): ViewNode
    decreases t, 1
  {
    RunEndBelow(t);
    if enabled then ViewNode(RunEnd(t), RunLabel(t, NameOf(t)), CompressAll(RunEnd(t).children, enabled))
    else ViewNode(t, NameOf(t), CompressAll(t.children, enabled))
  }

  function CompressAll(ts: seq<SiteNode>, enabled: bool): (r: seq<ViewNode>)
    ensures |r| == |ts|
    decreases ts, 0
  {
    if ts == [] then [] else CompressAll(ts[..|ts| - 1], enabled) + [Compress(ts[|ts| - 1], enabled)]
  }

  lemma CompressNext(ts: seq<SiteNode>, i: nat, enabled: bool)
    requires i < |ts|
    ensures CompressAll(ts[..i + 1], enabled) == CompressAll(ts[..i], enabled) + [Compress(ts[i], enabled)]
  {
    assert ts[..i + 1][..i] == ts[..i];
    hide Compress;
  }

  /** The loop over a run and the recursion below it. */
  method CompressTree(t: SiteNode, enabled: bool) returns (v: ViewNode)
    ensures v == Compress(t, enabled)
    decreases t, 1
  {
    var current, caption := t, NameOf(t);
    if enabled {
      while Joins(current)
        invariant RunEnd(current) == RunEnd(t) && RunLabel(current, caption) == RunLabel(t, NameOf(t))
        invariant current == t || current < t
        decreases current
      {
        current := current.children[0];
        caption := caption + "/" + NameOf(current);
      }
    }
    hide RunEnd, RunLabel, Joins;
    var children: seq<ViewNode> := [];
    for i := 0 to |current.children|
      invariant children == CompressAll(current.children[..i], enabled)
    {
      var child := CompressTree(current.children[i], enabled);
      CompressNext(current.children, i, enabled);
      children := children + [child];
    }
    assert current.children[..|current.children|] == current.children;
    v := ViewNode(current, caption, children);
  }

  /** The nodes a row and the rows below it stand for. */
  function Shown(v: ViewNode): seq<SiteNode>
    decreases v, 1
  {
    [v.node] + ShownAll(v.children)
  }

  function ShownAll(vs: seq<ViewNode>): seq<SiteNode>
    decreases vs, 0
  {
    if vs == [] then [] else ShownAll(vs[..|vs| - 1]) + Shown(vs[|vs| - 1])
  }

  /** The nodes that rows of history were counted at. */
  function Requested(ts: seq<SiteNode>): seq<SiteNode> {
    if ts == [] then [] else Requested(ts[..|ts| - 1]) + if ts[|ts| - 1].count > 0 then [ts[|ts| - 1]] else []
  }

  lemma {:induction false} RequestedAppend(a: seq<SiteNode>, b: seq<SiteNode>)
    ensures Requested(a + b) == Requested(a) + Requested(b)
  {
    if b == [] { assert a + b == a; }
    else {
      assert (a + b)[..|a + b| - 1] == a + b[..|b| - 1];
      RequestedAppend(a, b[..|b| - 1]);
    }
  }

  lemma RequestedOne(t: SiteNode)
    ensures Requested([t]) == if t.count > 0 then [t] else []
  {
    assert [t][..0] == [];
  }

  lemma PreorderOne(t: SiteNode)
    ensures PreorderAll([t]) == Preorder(t)
  {
    assert [t][..0] == [];
  }

  /** A run's nodes before its last were not requested. */
  lemma {:induction false} RunRequested(t: SiteNode)
    ensures Requested(Preorder(t)) == Requested(Preorder(RunEnd(t)))
  {
    if Joins(t) {
      hide Requested, Preorder, PreorderAll;
      var child := t.children[0];
      RunRequested(child);
      assert t.children == [child];
      PreorderOne(child);
      RequestedAppend([t], Preorder(child));
      RequestedOne(t);
      assert Preorder(t) == [t] + Preorder(child) by { PreorderStep(t); }
    }
  }

  lemma PreorderStep(t: SiteNode)
    ensures Preorder(t) == [t] + PreorderAll(t.children)
  {}

  /** The rows show every requested node exactly once, in the tree's order. */
  lemma {:induction false} CompressShows(t: SiteNode, enabled: bool)
    ensures Requested(Shown(Compress(t, enabled))) == Requested(Preorder(t))
    decreases t, 1
  {
    var end := if enabled then RunEnd(t) else t;
    RunEndBelow(t);
    RunRequested(t);
    CompressAllShows(end.children, enabled);
    RequestedAppend([end], ShownAll(CompressAll(end.children, enabled)));
    RequestedAppend([end], PreorderAll(end.children));
    hide Requested;
  }

  lemma {:induction false} CompressAllShows(ts: seq<SiteNode>, enabled: bool)
    ensures Requested(ShownAll(CompressAll(ts, enabled))) == Requested(PreorderAll(ts))
    decreases ts, 0
  {
    if ts != [] {
      hide Requested, Compress, Shown, Preorder;
      var front, last := ts[..|ts| - 1], ts[|ts| - 1];
      CompressAllShows(front, enabled);
      CompressShows(last, enabled);
      var vs := CompressAll(front, enabled);
      assert (vs + [Compress(last, enabled)])[..|vs|] == vs;
      RequestedAppend(ShownAll(vs), Shown(Compress(last, enabled)));
      RequestedAppend(PreorderAll(front), Preorder(last));
    } else { assert Requested([]) == []; }
  }

  /** A joined row counts the subtree of the first node of its run. */
  lemma {:induction false} JoinedCount(t: SiteNode, enabled: bool)
    requires WellCounted(t)
    ensures Compress(t, enabled).node.subtree == t.subtree
  {
    RunCount(t);
  }

  lemma SumOne(t: SiteNode)
    ensures SubtreeSum([t]) == t.subtree
  {
    assert [t][..0] == [];
  }

  lemma {:induction false} RunCount(t: SiteNode)
    requires WellCounted(t)
    ensures RunEnd(t).subtree == t.subtree
  {
    if Joins(t) {
      assert t.children == [t.children[0]];
      SumOne(t.children[0]);
      RunCount(t.children[0]);
    }
  }

  /** The labels of a run's nodes after the first. */
  function Labels(chain: seq<SiteNode>): string {
    if chain == [] then "" else "/" + NameOf(chain[0]) + Labels(chain[1..])
  }

  /** A joined row stands for a run: directories nobody requested, each with the next one as its only
      child, as far as they go; its label is their names. */
  lemma {:induction false} RunChain(t: SiteNode, caption: string) returns (chain: seq<SiteNode>)
    ensures |chain| > 0 && chain[0] == t && chain[|chain| - 1] == RunEnd(t)
    ensures forall i :: 0 <= i < |chain| - 1 ==>
      chain[i].segs != [] && chain[i].count == 0 && chain[i].children == [chain[i + 1]]
    ensures var end := RunEnd(t); end.segs == [] || end.count > 0 || |end.children| != 1
    ensures RunLabel(t, caption) == caption + Labels(chain[1..])
  {
    if Joins(t) {
      var child := t.children[0];
      var rest := RunChain(child, caption + "/" + NameOf(child));
      chain := [t] + rest;
      assert chain[1..] == rest && t.children == [child];
      assert Labels(rest) == "/" + NameOf(child) + Labels(rest[1..]);
      assert caption + "/" + NameOf(child) + Labels(rest[1..]) == caption + ("/" + NameOf(child) + Labels(rest[1..]));
    } else {
      chain := [t];
      assert caption + "" == caption;
    }
  }

  /** A node's path is its segments, each behind a slash; the root document's is a slash. */
  lemma {:induction false} PathJoined(segs: Segments)
    requires segs != [] && segs[0] != "/"
    ensures PathOf(segs) == "/" + Join(segs, "/")
  {
    if |segs| == 1 {
      assert segs == [segs[0]] && segs[..0] == [];
      assert "" + "/" + segs[0] == "/" + segs[0];
    } else {
      var front, last := segs[..|segs| - 1], segs[|segs| - 1];
      PathJoined(front);
      JoinSnoc(front, last, "/");
      assert front + [last] == segs;
    }
  }

  /** A host is named by its origin, and any other node by its last segment. */
  lemma NameMeans(t: SiteNode)
    ensures t.segs == [] && t.origin.tls ==> NameOf(t) == "https://" + t.origin.netloc
    ensures t.segs == [] && !t.origin.tls ==> NameOf(t) == "http://" + t.origin.netloc
    ensures t.segs != [] ==> NameOf(t) == t.segs[|t.segs| - 1]
  {}

  /** A node matches when its name or its path mentions the needle, in any case. */
  lemma HitMeans(t: SiteNode, needle: string)
    requires IsLower(needle)
    ensures Hit(t, needle) <==> Mentions(NameOf(t), needle) || Mentions(PathOf(t.segs), needle)
  {
    MentionsLower(NameOf(t), needle);
    MentionsLower(PathOf(t.segs), needle);
  }

  // ---------------------------------------------------- joining a filtered tree

  /** The children a filter keeps, before it looks inside them. */
  function Kept(ts: seq<SiteNode>, needle: string): (r: seq<SiteNode>)
    ensures |r| == |FilterAll(ts, needle)| && SubtreeSum(r) <= SubtreeSum(ts)
    ensures forall i :: 0 <= i < |r| ==> r[i] in ts && FilterTree(r[i], needle) == Some(FilterAll(ts, needle)[i])
  {
    if ts == [] then [] else
      var front, last := Kept(ts[..|ts| - 1], needle), ts[|ts| - 1];
      assert (front + [last])[..|front|] == front;
      if FilterTree(last, needle).Some? then front + [last] else front
  }

  /** Flows of the siblings a filter hides along a joined run. */
  function Lost(t: SiteNode, needle: string): nat {
    var kept := Kept(t.children, needle);
    if Hit(t, needle) || t.segs == [] || t.count > 0 || |kept| != 1 then 0
    else SubtreeSum(t.children) - SubtreeSum(kept) + Lost(kept[0], needle)
  }

  /** In a filtered tree a joined row counts less than the first node of its run by the flows of
      the siblings hidden along the run, so the two agree exactly when none is hidden. */
  lemma {:induction false} JoinedFiltered(t: SiteNode, needle: string, f: SiteNode)
    requires WellCounted(t) && FilterTree(t, needle) == Some(f)
    ensures f.subtree == t.subtree && Compress(f, true).node.subtree + Lost(t, needle) == f.subtree
    ensures Compress(f, true).node.subtree == f.subtree <==> Lost(t, needle) == 0
  {
    RunFiltered(t, needle, f);
  }

  lemma {:induction false} RunFiltered(t: SiteNode, needle: string, f: SiteNode)
    requires WellCounted(t) && FilterTree(t, needle) == Some(f)
    ensures f.subtree == t.subtree && RunEnd(f).subtree + Lost(t, needle) == t.subtree
  {
    hide Hit;
    if Hit(t, needle) { RunCount(t); }
    else if Joins(f) {
      var kept := Kept(t.children, needle);
      assert kept == [kept[0]];
      SumOne(kept[0]);
      RunFiltered(kept[0], needle, f.children[0]);
    }
  }

  lemma ContainsChar(s: string, ch: char)
    ensures Contains(s, [ch]) <==> ch in s
  {
    var r := Find(s, [ch]);
    if r != -1 { assert s[r..r + 1][0] == s[r]; }
    if ch in s {
      var i :| 0 <= i < |s| && s[i] == ch;
      assert At(s, [ch], i);
    }
  }

  lemma FilterTwo(b: SiteNode, c: SiteNode, needle: string)
    requires FilterTree(b, needle) == Some(b) && FilterTree(c, needle) == None
    ensures FilterAll([b, c], needle) == [b]
    ensures SubtreeSum([b, c]) == b.subtree + c.subtree
  {
    hide Hit, FilterTree;
    assert [b, c][..1] == [b] && [b][..0] == [];
    assert FilterAll([b], needle) == [b];
    SumOne(b);
  }

  /** The tree of a directory nobody requested and two pages in it. */
  function TwoPages(): SiteNode {
    var o := Origin("h", false);
    SiteNode(o, ["a"], 0, 2, [SiteNode(o, ["a", "b"], 1, 1, []), SiteNode(o, ["a", "c"], 1, 1, [])])
  }

  lemma TwoPagesHits()
    ensures var t := TwoPages(); !Hit(t, "b") && Hit(t.children[0], "b") && !Hit(t.children[1], "b")
  {
    assert ["a", "b"][..1] == ["a"] && ["a", "c"][..1] == ["a"] && ["a"][..0] == [];
    assert PathOf(["a"]) == "/a" && PathOf(["a", "c"]) == "/a/c";
    ContainsChar(Lower("a"), 'b');
    ContainsChar(Lower("/a"), 'b');
    ContainsChar(Lower("b"), 'b');
    ContainsChar(Lower("c"), 'b');
    ContainsChar(Lower("/a/c"), 'b');
    hide Contains;
  }

  /** Flows are hidden: of two requested pages in one directory a filter shows one, and the row
      joined from the directory and the page counts one flow where the directory counts two. */
  lemma HiddenSibling()
    ensures WellCounted(TwoPages()) && TwoPages().subtree == 2
    ensures FilterTree(TwoPages(), "b").Some? && Compress(FilterTree(TwoPages(), "b").value, true).node.subtree == 1
  {
    var t := TwoPages();
    TwoPagesHits();
    hide Hit;
    assert SubtreeSum([]) == 0 && FilterAll([], "b") == [];
    FilterTwo(t.children[0], t.children[1], "b");
  }
}
