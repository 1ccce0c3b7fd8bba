/** Building the sitemap: history rows are walked into a forest of host trees under a budget of
    nodes, then every node's subtree is summed. */
module Sitemap {
  import opened Bytes
  import opened SiteTree
  import opened SiteView

  const MAX_NODES: nat := 40000

  /** A history row: whether its URL is an http or https one in scope with a host, its origin and
      path, and how many flows it stands for. */
  datatype Row = Row(listed: bool, origin: Origin, path: string, n: Option<nat>)

  /** A missing or zero number of flows counts as one. */
  function FlowsOf(row: Row): nat { if row.n == None || row.n == Some(0) then 1 else row.n.value }

  function NonEmpty(parts: seq<string>): Segments {
    if parts == [] then [] else (if parts[0] == "" then [] else [parts[0]]) + NonEmpty(parts[1..])
  }

  function PathSegments(row: Row): Segments { NonEmpty(Split(row.path, "/")) }

  /** A row stands for its flows, and for one when their number is missing or zero. */
  lemma FlowsMean(row: Row)
    ensures FlowsOf(row) > 0
    ensures row.n.Some? && row.n.value > 0 ==> FlowsOf(row) == row.n.value
    ensures row.n == None || row.n == Some(0) ==> FlowsOf(row) == 1
  {}

  predicate SlashFree(parts: seq<string>) { forall i :: 0 <= i < |parts| ==> '/' !in parts[i] }

  lemma {:induction false} AllNonEmpty(parts: seq<string>)
    requires forall i :: 0 <= i < |parts| ==> parts[i] != ""
    ensures NonEmpty(parts) == parts
  {
    if parts != [] { AllNonEmpty(parts[1..]); }
  }

  lemma {:induction false} NonEmptyConcat(a: seq<string>, b: seq<string>)
    ensures NonEmpty(a + b) == NonEmpty(a) + NonEmpty(b)
  {
    if a == [] { assert a + b == b; }
    else {
      assert (a + b)[0] == a[0] && (a + b)[1..] == a[1..] + b;
      NonEmptyConcat(a[1..], b);
    }
  }

  lemma SlashParts(parts: seq<string>)
    requires parts != [] && SlashFree(parts)
    ensures Split(Join(parts, "/"), "/") == parts
  {
    forall l | l in parts ensures !Contains(l, "/") {
      var i :| 0 <= i < |parts| && parts[i] == l;
      FindByte(l, '/');
    }
    SeparatorsUnbordered('/');
    SplitJoin(parts, "/");
  }

  /** A path's segments are what stands between its slashes; a doubled slash, and one at either end, make
      none. */
  lemma SegmentsMean(row: Row, segs: Segments, more: Segments)
    requires SlashFree(segs) && SlashFree(more)
    requires (forall i :: 0 <= i < |segs| ==> segs[i] != "") && forall i :: 0 <= i < |more| ==> more[i] != ""
    requires row.path == Join([""] + segs + [""] + more + [""], "/")
        || (more == [] && row.path == Join([""] + segs, "/"))
    ensures PathSegments(row) == segs + more
  {
    hide *;
    Separated(segs, more);
    if row.path == Join([""] + segs + [""] + more + [""], "/") { PathParts(row, [""] + segs + [""] + more + [""]); }
    else {
      PathParts(row, [""] + segs);
      assert segs + [] == segs;
    }
  }

  lemma PathParts(row: Row, parts: seq<string>)
    requires parts != [] && SlashFree(parts) && row.path == Join(parts, "/")
    ensures PathSegments(row) == NonEmpty(parts)
  {
    hide NonEmpty, Split, Join, SlashFree;
    SlashParts(parts);
  }

  lemma Separated(segs: Segments, more: Segments)
    requires SlashFree(segs) && SlashFree(more)
    requires (forall i :: 0 <= i < |segs| ==> segs[i] != "") && forall i :: 0 <= i < |more| ==> more[i] != ""
    ensures var all := [""] + segs + [""] + more + [""]; all != [] && SlashFree(all) && NonEmpty(all) == segs + more
    ensures [""] + segs != [] && SlashFree([""] + segs) && NonEmpty([""] + segs) == segs
  {
    AllNonEmpty(segs);
    AllNonEmpty(more);
    NoneEmptyLeft();
    hide NonEmpty, SlashFree;
    var a := [""] + segs;
    var b := a + [""];
    var c := b + more;
    FreeConcat([""], segs);
    FreeConcat(a, [""]);
    FreeConcat(b, more);
    FreeConcat(c, [""]);
    NonEmptyConcat([""], segs);
    NonEmptyConcat(a, [""]);
    NonEmptyConcat(b, more);
    NonEmptyConcat(c, [""]);
    NothingAround(segs);
    NothingAround(segs + more);
  }

  lemma NothingAround(s: Segments)
    ensures [] + s == s && s + [] == s
  {}

  lemma FreeConcat(a: seq<string>, b: seq<string>)
    requires SlashFree(b)
    ensures SlashFree(a) ==> SlashFree(a + b)
  {}

  lemma NoneEmptyLeft()
    ensures NonEmpty([""]) == [] && SlashFree([""])
  {}

  predicate RootDocument(row: Row) { PathSegments(row) == [] }

  /** Where a row belongs; the root document has a node of its own. */
  function Home(row: Row): Segments { if RootDocument(row) then ["/"] else PathSegments(row) }

  /** Every listed row at its own path. */
  function Placed(rows: seq<Row>): seq<Place> {
    if rows == [] then [] else
      var row := rows[|rows| - 1];
      Placed(rows[..|rows| - 1]) + if row.listed then [Place(row.origin, Home(row), FlowsOf(row))] else []
  }

  /** What the budget may do to a row: leave it at an ancestor, or lose it if it is a root document. */
  predicate Accounts(rows: seq<Row>, placed: seq<Place>) {
    if rows == [] then placed == [] else
      var row, front := rows[|rows| - 1], rows[..|rows| - 1];
      if !row.listed then Accounts(front, placed)
      else
        || (placed != [] && Fits(row, placed[|placed| - 1]) && Accounts(front, placed[..|placed| - 1]))
        || (RootDocument(row) && Accounts(front, placed))
  }

  predicate Fits(row: Row, x: Place) { x.origin == row.origin && x.n == FlowsOf(row) && x.segs <= Home(row) }

  /** `_children.get`: the child with a path, if there is one. */
  function FindKid(nodes: seq<Node>, kids: seq<nat>, path: Segments): (r: Option<nat>)
    ensures r.Some? ==> r.value in kids && r.value < |nodes| && nodes[r.value].segs == path
    ensures r.None? ==> forall k :: 0 <= k < |kids| && kids[k] < |nodes| ==> nodes[kids[k]].segs != path
  {
    if kids == [] then None
    else if kids[0] < |nodes| && nodes[kids[0]].segs == path then Some(kids[0])
    else FindKid(nodes, kids[1..], path)
  }

  function PathNodes(nodes: seq<Node>): nat {
    if nodes == [] then 0 else PathNodes(nodes[..|nodes| - 1]) + if nodes[|nodes| - 1].segs == [] then 0 else 1
  }

  lemma {:induction false} PathNodesSame(before: seq<Node>, after: seq<Node>)
    requires |before| == |after| && forall i :: 0 <= i < |before| ==> before[i].segs == after[i].segs
    ensures PathNodes(before) == PathNodes(after)
  {
    if before != [] { PathNodesSame(before[..|before| - 1], after[..|after| - 1]); }
  }

  /** Every node's count is the flows of the rows placed at it. */
  predicate Tally(nodes: seq<Node>, placed: seq<Place>) {
    forall i :: 0 <= i < |nodes| ==> nodes[i].count == CountAt(placed, nodes[i].origin, nodes[i].segs)
  }

  predicate RootsOk(nodes: seq<Node>, roots: map<Origin, nat>) {
    && (forall o :: o in roots ==> roots[o] < |nodes| && nodes[roots[o]].origin == o && nodes[roots[o]].segs == [])
    && (forall i :: 0 <= i < |nodes| ==> nodes[i].origin in roots)
  }

  predicate Sound(nodes: seq<Node>, roots: map<Origin, nat>, placed: seq<Place>) {
    Forest(nodes) && Tally(nodes, placed) && Homed(nodes, placed) && RootsOk(nodes, roots)
  }

  /** Where no node has a path, no row is placed. */
  lemma {:induction false} CountNowhere(nodes: seq<Node>, placed: seq<Place>, origin: Origin, segs: Segments)
    requires Homed(nodes, placed) && forall i :: 0 <= i < |nodes| ==> nodes[i].origin != origin || nodes[i].segs != segs
    ensures CountAt(placed, origin, segs) == 0
  {
    if placed != [] {
      assert HasHome(nodes, placed[|placed| - 1]);
      CountNowhere(nodes, placed[..|placed| - 1], origin, segs);
    }
  }

  lemma HomedGrows(nodes: seq<Node>, grown: seq<Node>, placed: seq<Place>)
    requires Homed(nodes, placed) && |nodes| <= |grown|
    requires forall i :: 0 <= i < |nodes| ==> grown[i].origin == nodes[i].origin && grown[i].segs == nodes[i].segs
    ensures Homed(grown, placed)
  {
    forall r | 0 <= r < |placed| ensures HasHome(grown, placed[r]) {
      assert HasHome(nodes, placed[r]);
      var j :| 0 <= j < |nodes| && nodes[j].origin == placed[r].origin && nodes[j].segs == placed[r].segs;
      assert grown[j].segs == placed[r].segs;
    }
  }

  lemma RootTally(nodes: seq<Node>, placed: seq<Place>, origin: Origin)
    requires Tally(nodes, placed) && Homed(nodes, placed) && NoRoot(nodes, origin)
    ensures Tally(WithRoot(nodes, origin), placed)
  {
    CountNowhere(nodes, placed, origin, []);
    hide CountAt, Homed;
  }

  lemma RootAdded(nodes: seq<Node>, roots: map<Origin, nat>, origin: Origin)
    requires RootsOk(nodes, roots) && origin !in roots
    ensures NoRoot(nodes, origin) && RootsOk(WithRoot(nodes, origin), roots[origin := |nodes|])
    ensures PathNodes(WithRoot(nodes, origin)) == PathNodes(nodes)
  {
    RootUncounted(nodes, origin);
    hide PathNodes;
  }

  lemma RootUncounted(nodes: seq<Node>, origin: Origin)
    ensures PathNodes(WithRoot(nodes, origin)) == PathNodes(nodes)
  {
    assert WithRoot(nodes, origin)[..|nodes|] == nodes;
  }

  lemma RootSound(nodes: seq<Node>, roots: map<Origin, nat>, placed: seq<Place>, origin: Origin)
    requires Sound(nodes, roots, placed) && origin !in roots
    ensures Sound(WithRoot(nodes, origin), roots[origin := |nodes|], placed)
    ensures PathNodes(WithRoot(nodes, origin)) == PathNodes(nodes)
  {
    hide Forest, Homed, Tally, RootsOk, PathNodes, NoRoot;
    RootAdded(nodes, roots, origin);
    WithRootForest(nodes, origin);
    HomedGrows(nodes, WithRoot(nodes, origin), placed);
    RootTally(nodes, placed, origin);
  }

  lemma NewPath(nodes: seq<Node>, p: nat, name: string)
    requires p < |nodes| && Unique(WithKid(nodes, p, name))
    ensures forall i :: 0 <= i < |nodes| ==>
      nodes[i].origin != nodes[p].origin || nodes[i].segs != nodes[p].segs + [name]
  {
    var grown := WithKid(nodes, p, name);
    assert grown[|nodes|].origin == nodes[p].origin && grown[|nodes|].segs == nodes[p].segs + [name];
    forall i | 0 <= i < |nodes| ensures nodes[i].origin != nodes[p].origin || nodes[i].segs != nodes[p].segs + [name] {
      assert grown[i].origin == nodes[i].origin && grown[i].segs == nodes[i].segs;
    }
  }

  lemma KidTally(nodes: seq<Node>, placed: seq<Place>, p: nat, name: string)
    requires Forest(nodes) && Tally(nodes, placed) && Homed(nodes, placed) && p < |nodes| && NoKid(nodes, p, name)
    ensures Tally(WithKid(nodes, p, name), placed)
  {
    hide CountAt, Forest, Homed, NoKid;
    WithKidUnique(nodes, p, name);
    NewPath(nodes, p, name);
    CountNowhere(nodes, placed, nodes[p].origin, nodes[p].segs + [name]);
  }

  lemma SameRoots(nodes: seq<Node>, grown: seq<Node>, roots: map<Origin, nat>)
    requires RootsOk(nodes, roots) && |nodes| <= |grown|
    requires forall i :: 0 <= i < |nodes| ==> grown[i].origin == nodes[i].origin && grown[i].segs == nodes[i].segs
    requires forall i :: |nodes| <= i < |grown| ==> grown[i].origin in roots
    ensures RootsOk(grown, roots)
  {}

  lemma KidSound(nodes: seq<Node>, roots: map<Origin, nat>, placed: seq<Place>, p: nat, name: string)
    requires Sound(nodes, roots, placed) && p < |nodes| && NoKid(nodes, p, name)
    ensures Sound(WithKid(nodes, p, name), roots, placed)
    ensures PathNodes(WithKid(nodes, p, name)) == PathNodes(nodes) + 1
  {
    hide Forest, Homed, Tally, NoKid;
    var grown := WithKid(nodes, p, name);
    assert nodes[p].origin in roots;
    hide RootsOk;
    SameRoots(nodes, grown, roots);
    PathNodesSame(nodes, grown[..|nodes|]);
    HomedGrows(nodes, grown, placed);
    hide PathNodes, WithKid;
    WithKidForest(nodes, p, name);
    KidTally(nodes, placed, p, name);
  }

  lemma OnePath(nodes: seq<Node>, i: nat, t: nat)
    requires Forest(nodes) && i < |nodes| && t < |nodes|
    requires nodes[i].origin == nodes[t].origin && nodes[i].segs == nodes[t].segs
    ensures i == t
  {
    hide KidsOk, Rooted;
  }

  lemma CountedTally(nodes: seq<Node>, placed: seq<Place>, t: nat, n: nat)
    requires Forest(nodes) && Tally(nodes, placed) && t < |nodes|
    ensures Tally(Counted(nodes, t, n), placed + [Place(nodes[t].origin, nodes[t].segs, n)])
  {
    assert (placed + [Place(nodes[t].origin, nodes[t].segs, n)])[..|placed|] == placed;
    hide Forest;
    forall i | 0 <= i < |nodes| && i != t ensures nodes[i].origin != nodes[t].origin || nodes[i].segs != nodes[t].segs {
      if nodes[i].origin == nodes[t].origin && nodes[i].segs == nodes[t].segs { OnePath(nodes, i, t); }
    }
  }

  lemma CountedSound(nodes: seq<Node>, roots: map<Origin, nat>, placed: seq<Place>, t: nat, n: nat)
    requires Sound(nodes, roots, placed) && t < |nodes|
    ensures Sound(Counted(nodes, t, n), roots, placed + [Place(nodes[t].origin, nodes[t].segs, n)])
    ensures PathNodes(Counted(nodes, t, n)) == PathNodes(nodes)
  {
    hide Forest, Homed, Tally, RootsOk, PathNodes;
    var ms := Counted(nodes, t, n);
    var x := Place(nodes[t].origin, nodes[t].segs, n);
    SameRoots(nodes, ms, roots);
    PathNodesSame(nodes, ms);
    HomedGrows(nodes, ms, placed);
    assert HasHome(ms, x) by { assert ms[t].segs == nodes[t].segs; }
    HomedSnoc(ms, placed, x);
    hide Counted;
    CountedForest(nodes, t, n);
    CountedTally(nodes, placed, t, n);
  }

  lemma HomedSnoc(nodes: seq<Node>, placed: seq<Place>, x: Place)
    requires Homed(nodes, placed) && HasHome(nodes, x)
    ensures Homed(nodes, placed + [x])
  {
    hide HasHome;
  }

  // ------------------------------------------------------------------ building

  /** The map has the row's own node. */
  predicate AtHome(nodes: seq<Node>, row: Row) { HasPath(nodes, row.origin, Home(row)) }

  /** Where the map lets a row be counted: at the deepest node on its path; a root document without
      its node is lost. */
  function Settled(nodes: seq<Node>, row: Row): seq<Place> {
    if !row.listed then []
    else
      var depth := Reach(nodes, row.origin, Home(row), 0);
      if depth == 0 && RootDocument(row) then []
      else [Place(row.origin, Home(row)[..depth], FlowsOf(row))]
  }

  /** Every row where the map lets it be counted. */
  function SettledAll(nodes: seq<Node>, rows: seq<Row>): seq<Place> {
    if rows == [] then [] else SettledAll(nodes, rows[..|rows| - 1]) + Settled(nodes, rows[|rows| - 1])
  }

  /** New nodes stand on one path. */
  predicate Grown(before: seq<Node>, after: seq<Node>, origin: Origin, path: Segments) {
    && Extends(before, after)
    && forall i :: |before| <= i < |after| ==> after[i].origin == origin && after[i].segs <= path
  }

  lemma GrownItself(nodes: seq<Node>, origin: Origin, path: Segments)
    ensures Grown(nodes, nodes, origin, path)
  {}

  lemma GrownByHost(before: seq<Node>, nodes: seq<Node>, origin: Origin, path: Segments)
    requires nodes == before || nodes == WithRoot(before, origin)
    ensures Grown(before, nodes, origin, path) && Frozen(before, nodes)
  {}

  lemma GrownThrough(a: seq<Node>, b: seq<Node>, c: seq<Node>, origin: Origin, path: Segments)
    requires Grown(a, b, origin, path) && Grown(b, c, origin, path)
    ensures Grown(a, c, origin, path) && (Frozen(a, b) && b == c ==> Frozen(a, c))
  {}

  lemma GrownExtends(before: seq<Node>, after: seq<Node>, origin: Origin, path: Segments)
    requires Grown(before, after, origin, path)
    ensures Extends(before, after)
  {}

  lemma GrownByKid(before: seq<Node>, nodes: seq<Node>, p: nat, path: Segments, i: nat)
    requires p < |nodes| && i < |path| && nodes[p].segs == path[..i] && Grown(before, nodes, nodes[p].origin, path)
    ensures Grown(before, WithKid(nodes, p, path[i]), nodes[p].origin, path)
  {
    assert path[..i] + [path[i]] == path[..i + 1];
  }

  lemma PathAt(nodes: seq<Node>, j: nat)
    requires j < |nodes|
    ensures HasPath(nodes, nodes[j].origin, nodes[j].segs)
  {}

  lemma SoundForest(nodes: seq<Node>, roots: map<Origin, nat>, placed: seq<Place>)
    requires Sound(nodes, roots, placed)
    ensures Forest(nodes)
  {}

  lemma HostAbove(nodes: seq<Node>, roots: map<Origin, nat>, placed: seq<Place>, t: nat)
    requires Sound(nodes, roots, placed) && t < |nodes|
    ensures HasPath(nodes, nodes[t].origin, [])
  {
    hide *;
    SoundForest(nodes, roots, placed);
    PathAt(nodes, t);
    PathsAbove(nodes, nodes[t].origin, nodes[t].segs, 0);
    assert nodes[t].segs[..0] == [];
  }

  /** A walk that finds no child has gone as far as the map goes. */
  lemma WalkEnds(nodes: seq<Node>, roots: map<Origin, nat>, placed: seq<Place>, t: nat, path: Segments, i: nat)
    requires Sound(nodes, roots, placed) && t < |nodes| && i < |path| && nodes[t].segs == path[..i]
    requires NoKid(nodes, t, path[i])
    ensures Reach(nodes, nodes[t].origin, path, 0) == i && !HasPath(nodes, nodes[t].origin, path)
  {
    hide *;
    var origin := nodes[t].origin;
    SoundForest(nodes, roots, placed);
    PathAt(nodes, t);
    NoKidNoPath(nodes, t, path[i]);
    assert path[..i] + [path[i]] == path[..i + 1];
    ReachStops(nodes, origin, path, i);
  }

  lemma WalkArrives(nodes: seq<Node>, roots: map<Origin, nat>, placed: seq<Place>, t: nat, path: Segments)
    requires Sound(nodes, roots, placed) && t < |nodes| && nodes[t].segs == path
    ensures Reach(nodes, nodes[t].origin, path, 0) == |path| && HasPath(nodes, nodes[t].origin, path)
  {
    SoundForest(nodes, roots, placed);
    hide Sound, Forest;
    PathAt(nodes, t);
    ReachAll(nodes, nodes[t].origin, path);
  }

  lemma SettledHere(nodes: seq<Node>, t: nat, row: Row)
    requires t < |nodes| && row.listed && nodes[t].origin == row.origin
    requires nodes[t].segs == Home(row)[..Reach(nodes, row.origin, Home(row), 0)]
    requires RootDocument(row) ==> nodes[t].segs != []
    ensures Settled(nodes, row) == [Place(nodes[t].origin, nodes[t].segs, FlowsOf(row))]
  {
    hide Reach;
  }

  /** A root document without a node of its own is lost. */
  lemma RootLost(nodes: seq<Node>, roots: map<Origin, nat>, placed: seq<Place>, host: nat, row: Row)
    requires Sound(nodes, roots, placed) && host < |nodes| && nodes[host].segs == [] && nodes[host].origin == row.origin
    requires NoKid(nodes, host, "/") && RootDocument(row)
    ensures Settled(nodes, row) == [] && !AtHome(nodes, row)
  {
    hide Sound, HasPath, Reach, NoKid;
    assert ["/"][..0] == [];
    WalkEnds(nodes, roots, placed, host, ["/"], 0);
  }

  /** Counting a row at a node moves no row and no path. */
  lemma CountedPaths(before: seq<Node>, nodes: seq<Node>, t: nat, row: Row)
    requires t < |nodes| && Grown(before, nodes, row.origin, Home(row))
    ensures var ms := Counted(nodes, t, FlowsOf(row));
      && Settled(ms, row) == Settled(nodes, row) && (AtHome(ms, row) <==> AtHome(nodes, row))
      && (HasPath(nodes, row.origin, []) ==> HasPath(ms, row.origin, []))
      && Grown(before, ms, row.origin, Home(row)) && (Frozen(before, nodes) ==> Frozen(before, ms))
  {
    var ms := Counted(nodes, t, FlowsOf(row));
    assert Frozen(nodes, ms);
    hide HasPath, Reach;
    ReachKept(nodes, ms, row.origin, Home(row), 0);
    PathKept(nodes, ms, row.origin, Home(row));
    PathKept(nodes, ms, row.origin, []);
  }

  /** The map being built; `placed` is the history of rows counted so far. */
  class SiteMap {
    var nodes: seq<Node>
    var roots: map<Origin, nat>
    var budget: nat
    var truncated: bool
    ghost var placed: seq<Place>

    ghost predicate Valid()
      reads this
    {
      Sound(nodes, roots, placed) && PathNodes(nodes) + budget == MAX_NODES && (truncated ==> budget == 0)
    }

    constructor ()
      ensures Valid() && nodes == [] && placed == [] && !truncated && budget == MAX_NODES
    {
      nodes, roots, budget, truncated, placed := [], map[], MAX_NODES, false, [];
    }

    /** The child of a node by name, made if the budget allows. */
    method Child(parent: nat, name: string) returns (child: Option<nat>)
      requires Valid() && parent < |nodes|
      modifies this`nodes, this`budget
      ensures Valid()
      ensures child.None? ==> nodes == old(nodes) && budget == old(budget) == 0 && NoKid(nodes, parent, name)
      ensures child.Some? ==> child.value < |nodes| && nodes[child.value].origin == old(nodes[parent].origin)
      ensures child.Some? ==> nodes[child.value].segs == old(nodes[parent].segs) + [name]
      ensures nodes == old(nodes) || (nodes == WithKid(old(nodes), parent, name) && budget == old(budget) - 1)
    {
      hide Sound, PathNodes;
      var found := FindKid(nodes, nodes[parent].kids, nodes[parent].segs + [name]);
      if found.Some? {
        FoundKid(nodes, roots, placed, parent, found.value);
        return found;
      }
      if budget == 0 { return None; }
      KidSound(nodes, roots, placed, parent, name);
      budget := budget - 1;
      child := Some(|nodes|);
      nodes := WithKid(nodes, parent, name);
    }

    method HostNode(origin: Origin) returns (host: nat)
      requires Valid()
      modifies this`nodes, this`roots
      ensures Valid() && host < |nodes| && nodes[host].origin == origin && nodes[host].segs == []
      ensures nodes == old(nodes) || nodes == WithRoot(old(nodes), origin)
    {
      hide Sound, PathNodes, WithRoot;
      if origin in roots {
        FoundRoot(nodes, roots, placed, origin);
        return roots[origin];
      }
      RootSound(nodes, roots, placed, origin);
      RootLast(nodes, origin);
      host := |nodes|;
      roots := roots[origin := host];
      nodes := WithRoot(nodes, origin);
    }

    /** Down from a host, segment by segment, as far as the map goes once the budget has been spent
        on going further; the map is truncated exactly when that is short of the path. */
    method Walk(host: nat, segments: Segments) returns (target: nat)
      requires Valid() && host < |nodes| && nodes[host].segs == []
      modifies this`nodes, this`budget, this`truncated
      ensures Valid() && target < |nodes| && nodes[target].origin == old(nodes[host].origin)
      ensures nodes[target].segs == segments[..Reach(nodes, old(nodes[host].origin), segments, 0)]
      ensures truncated == (old(truncated) || !HasPath(nodes, old(nodes[host].origin), segments))
      ensures Grown(old(nodes), nodes, old(nodes[host].origin), segments)
      ensures old(budget) == 0 ==> nodes == old(nodes)
    {
      hide Sound, PathNodes, WithKid, HasPath, Reach, Grown, NoKid;
      ghost var origin, before := nodes[host].origin, nodes;
      target := host;
      var i := 0;
      GrownItself(nodes, origin, segments);
      while i < |segments|
        invariant i <= |segments| && Valid() && target < |nodes| && nodes[target].origin == origin
        invariant nodes[target].segs == segments[..i] && truncated == old(truncated)
        invariant Grown(before, nodes, origin, segments) && (old(budget) == 0 ==> nodes == before && budget == 0)
      {
        ghost var was := nodes;
        var next := Child(target, segments[i]);
        assert segments[..i] + [segments[i]] == segments[..i + 1];
        if next.None? {
          WalkEnds(nodes, roots, placed, target, segments, i);
          truncated := true;
          return;
        }
        if nodes != was { GrownByKid(before, was, target, segments, i); }
        target := next.value;
        i := i + 1;
      }
      assert segments[..i] == segments;
      WalkArrives(nodes, roots, placed, target, segments);
    }

    /** A row is counted at the deepest node on its path, once the budget has been spent on making
        its own; only host nodes are made when the budget is spent. */
    method AddRow(row: Row)
      requires Valid()
      modifies this
      ensures Valid() && placed == old(placed) + Settled(nodes, row)
      ensures truncated == (old(truncated) || (row.listed && !AtHome(nodes, row)))
      ensures Grown(old(nodes), nodes, row.origin, Home(row)) && (old(budget) == 0 ==> Frozen(old(nodes), nodes))
      ensures if row.listed then HasPath(nodes, row.origin, []) else nodes == old(nodes)
    {
      hide Sound, PathNodes, PathSegments, HasPath, Reach, Forest, Grown, Extends, Frozen, Settled, Counted,
           WithKid, WithRoot, NoKid;
      ghost var before := nodes;
      GrownByHost(before, nodes, row.origin, Home(row));
      assert placed + [] == placed;
      if !row.listed {
        UnlistedSettled(nodes, row);
        return;
      }
      var host := HostNode(row.origin);
      PathAt(nodes, host);
      GrownByHost(before, nodes, row.origin, Home(row));
      ghost var rooted := nodes;
      var target: nat;
      if PathSegments(row) == [] {
        var child := Child(host, "/");
        if child.None? {
          RootLost(nodes, roots, placed, host, row);
          truncated := true;
          return;
        }
        target := child.value;
        if nodes != rooted { GrownByKid(before, rooted, host, Home(row), 0); }
        WalkArrives(nodes, roots, placed, target, Home(row));
      } else {
        target := Walk(host, PathSegments(row));
        GrownThrough(before, rooted, nodes, row.origin, Home(row));
      }
      HostAbove(nodes, roots, placed, target);
      SettledHere(nodes, target, row);
      CountedSound(nodes, roots, placed, target, FlowsOf(row));
      CountedPaths(before, nodes, target, row);
      placed := placed + [Place(nodes[target].origin, nodes[target].segs, FlowsOf(row))];
      nodes := Counted(nodes, target, FlowsOf(row));
    }
  }

  lemma FoundRoot(nodes: seq<Node>, roots: map<Origin, nat>, placed: seq<Place>, origin: Origin)
    requires Sound(nodes, roots, placed) && origin in roots
    ensures roots[origin] < |nodes| && nodes[roots[origin]].origin == origin && nodes[roots[origin]].segs == []
  {
    hide Forest, Tally, Homed;
  }

  lemma RootLast(nodes: seq<Node>, origin: Origin)
    ensures |WithRoot(nodes, origin)| == |nodes| + 1 && WithRoot(nodes, origin)[|nodes|] == Node(origin, [], 0, [])
  {}

  lemma FoundKid(nodes: seq<Node>, roots: map<Origin, nat>, placed: seq<Place>, p: nat, j: nat)
    requires Sound(nodes, roots, placed) && p < |nodes| && j in nodes[p].kids
    ensures j < |nodes| && nodes[j].origin == nodes[p].origin
  {
    hide Tally, Homed, RootsOk, Unique, Rooted;
    var k :| 0 <= k < |nodes[p].kids| && nodes[p].kids[k] == j;
    assert IsKid(nodes[p], nodes[nodes[p].kids[k]]);
  }

  // ----------------------------------------------------------------- finishing

  function Summed(node: Node, children: seq<SiteNode>): SiteNode {
    SiteNode(node.origin, node.segs, node.count, node.count + SubtreeSum(children), children)
  }

  /** A node and its subtree, summed from the leaves up. */
  function Finalise(nodes: seq<Node>, i: nat): SiteNode
    requires KidsOk(nodes) && i < |nodes|
    decreases |nodes| - i, |nodes[i].kids| + 1
  {
    Summed(nodes[i], FinaliseKids(nodes, i, |nodes[i].kids|))
  }

  function FinaliseKids(nodes: seq<Node>, i: nat, m: nat): (r: seq<SiteNode>)
    requires KidsOk(nodes) && i < |nodes| && m <= |nodes[i].kids|
    ensures |r| == m
    decreases |nodes| - i, m
  {
    if m == 0 then [] else FinaliseKids(nodes, i, m - 1) + [Finalise(nodes, nodes[i].kids[m - 1])]
  }

  /** The host nodes, in the order they were made. */
  function Hosts(nodes: seq<Node>, m: nat): seq<SiteNode>
    requires KidsOk(nodes) && m <= |nodes|
  {
    if m == 0 then [] else Hosts(nodes, m - 1) + if nodes[m - 1].segs == [] then [Finalise(nodes, m - 1)] else []
  }

  /** Every node of a tree counts the places at its path, and in its subtree those below. */
  predicate Agrees(t: SiteNode, placed: seq<Place>) {
    && t.count == CountAt(placed, t.origin, t.segs) && t.subtree == CountBelow(placed, t.origin, t.segs)
    && WellCounted(t)
    && forall i :: 0 <= i < |t.children| ==> Agrees(t.children[i], placed)
  }

  lemma SumSnoc(ts: seq<SiteNode>, t: SiteNode)
    ensures SubtreeSum(ts + [t]) == SubtreeSum(ts) + t.subtree
  {
    assert (ts + [t])[..|ts|] == ts;
  }

  lemma KidsNext(nodes: seq<Node>, kids: seq<nat>, m: nat, placed: seq<Place>)
    requires 0 < m <= |kids| && kids[m - 1] < |nodes|
    ensures KidsBelow(nodes, kids[..m], placed)
         == KidsBelow(nodes, kids[..m - 1], placed)
            + CountBelow(placed, nodes[kids[m - 1]].origin, nodes[kids[m - 1]].segs)
  {
    assert kids[..m][..m - 1] == kids[..m - 1];
  }

  /** A node whose children agree agrees itself. */
  lemma {:induction false} NodeAgrees(nodes: seq<Node>, placed: seq<Place>, i: nat, ts: seq<SiteNode>)
    requires Forest(nodes) && Tally(nodes, placed) && Homed(nodes, placed) && i < |nodes|
    requires SubtreeSum(ts) == KidsBelow(nodes, nodes[i].kids, placed)
    requires forall k :: 0 <= k < |ts| ==> Agrees(ts[k], placed)
    ensures Agrees(Summed(nodes[i], ts), placed)
  {
    hide Forest, Homed, CountAt, CountBelow, KidsBelow, SubtreeSum;
    assert nodes[i].count == CountAt(placed, nodes[i].origin, nodes[i].segs);
    hide Tally;
    BelowSplits(nodes, i, placed);
    assert WellCounted(Summed(nodes[i], ts)) by {
      assert forall k :: 0 <= k < |ts| ==> WellCounted(ts[k]) by {
        forall k | 0 <= k < |ts| ensures WellCounted(ts[k]) { assert Agrees(ts[k], placed); hide WellCounted; }
      }
      hide Agrees;
    }
    hide WellCounted;
  }

  lemma NoKids(nodes: seq<Node>, placed: seq<Place>)
    ensures SubtreeSum([]) == KidsBelow(nodes, [], placed)
  {}

  lemma KidsJoined(nodes: seq<Node>, placed: seq<Place>, kids: seq<nat>, m: nat, ts: seq<SiteNode>, t: SiteNode)
    requires 0 < m <= |kids| && kids[m - 1] < |nodes|
    requires SubtreeSum(ts) == KidsBelow(nodes, kids[..m - 1], placed)
    requires forall k :: 0 <= k < |ts| ==> Agrees(ts[k], placed)
    requires Agrees(t, placed) && t.origin == nodes[kids[m - 1]].origin && t.segs == nodes[kids[m - 1]].segs
    ensures SubtreeSum(ts + [t]) == KidsBelow(nodes, kids[..m], placed)
    ensures forall k :: 0 <= k < |ts + [t]| ==> Agrees((ts + [t])[k], placed)
  {
    hide SubtreeSum, KidsBelow, CountBelow, Agrees;
    AgreesTotal(t, placed);
    SumSnoc(ts, t);
    KidsNext(nodes, kids, m, placed);
  }

  lemma AgreesTotal(t: SiteNode, placed: seq<Place>)
    requires Agrees(t, placed)
    ensures t.subtree == CountBelow(placed, t.origin, t.segs)
  {}

  lemma {:induction false} FinaliseAgrees(nodes: seq<Node>, placed: seq<Place>, i: nat)
    requires Forest(nodes) && KidsOk(nodes) && Tally(nodes, placed) && Homed(nodes, placed) && i < |nodes|
    ensures Agrees(Finalise(nodes, i), placed)
    decreases |nodes| - i, |nodes[i].kids| + 1
  {
    hide Forest, Homed, Tally, KidsOk, Agrees, SubtreeSum, KidsBelow;
    FinaliseKidsAgree(nodes, placed, i, |nodes[i].kids|);
    assert nodes[i].kids[..|nodes[i].kids|] == nodes[i].kids;
    NodeAgrees(nodes, placed, i, FinaliseKids(nodes, i, |nodes[i].kids|));
  }

  lemma {:induction false} FinaliseKidsAgree(nodes: seq<Node>, placed: seq<Place>, i: nat, m: nat)
    requires Forest(nodes) && KidsOk(nodes) && Tally(nodes, placed) && Homed(nodes, placed)
    requires i < |nodes| && m <= |nodes[i].kids|
    ensures var ts := FinaliseKids(nodes, i, m);
      && SubtreeSum(ts) == KidsBelow(nodes, nodes[i].kids[..m], placed)
      && forall k :: 0 <= k < |ts| ==> Agrees(ts[k], placed)
    decreases |nodes| - i, m
  {
    hide Forest, Homed, Tally, Finalise, Agrees, SubtreeSum, KidsBelow, CountBelow;
    if m == 0 {
      NoKids(nodes, placed);
      assert nodes[i].kids[..0] == [];
    } else {
      var kid := nodes[i].kids[m - 1];
      assert i < kid < |nodes|;
      hide KidsOk;
      FinaliseKidsAgree(nodes, placed, i, m - 1);
      FinaliseAgrees(nodes, placed, kid);
      FinalisePath(nodes, kid);
      KidsJoined(nodes, placed, nodes[i].kids, m, FinaliseKids(nodes, i, m - 1), Finalise(nodes, kid));
    }
  }

  lemma FinalisePath(nodes: seq<Node>, i: nat)
    requires KidsOk(nodes) && i < |nodes|
    ensures Finalise(nodes, i).origin == nodes[i].origin && Finalise(nodes, i).segs == nodes[i].segs
  {}

  lemma {:induction false} HostAgrees(nodes: seq<Node>, placed: seq<Place>, m: nat, k: nat)
    requires Forest(nodes) && KidsOk(nodes) && Tally(nodes, placed) && Homed(nodes, placed)
    requires m <= |nodes| && k < |Hosts(nodes, m)|
    ensures Agrees(Hosts(nodes, m)[k], placed) && Hosts(nodes, m)[k].segs == []
  {
    hide Forest, KidsOk, Tally, Homed, Agrees;
    var front := Hosts(nodes, m - 1);
    if k < |front| { HostAgrees(nodes, placed, m - 1, k); }
    else { FinaliseAgrees(nodes, placed, m - 1); }
  }

  lemma {:induction false} HostListed(nodes: seq<Node>, i: nat, m: nat)
    requires KidsOk(nodes) && i < m <= |nodes| && nodes[i].segs == []
    ensures Finalise(nodes, i) in Hosts(nodes, m)
  {
    hide KidsOk, Finalise;
    if i < m - 1 { HostListed(nodes, i, m - 1); }
  }

  /** Some node of the tree has the path. */
  predicate HasNode(t: SiteNode, origin: Origin, segs: Segments) {
    (t.origin == origin && t.segs == segs) || exists i :: 0 <= i < |t.children| && HasNode(t.children[i], origin, segs)
  }

  lemma {:induction false} KidAt(nodes: seq<Node>, i: nat, m: nat, k: nat)
    requires KidsOk(nodes) && i < |nodes| && k < m <= |nodes[i].kids| && nodes[i].kids[k] < |nodes|
    ensures FinaliseKids(nodes, i, m)[k] == Finalise(nodes, nodes[i].kids[k])
  {
    if k < m - 1 { KidAt(nodes, i, m - 1, k); }
    hide Finalise, KidsOk;
  }

  /** Every node whose path continues another's is in that one's finished tree. */
  lemma {:induction false} NodeShown(nodes: seq<Node>, i: nat, j: nat)
    requires Forest(nodes) && KidsOk(nodes) && i < |nodes| && j < |nodes|
    requires nodes[i].origin == nodes[j].origin && nodes[i].segs <= nodes[j].segs
    ensures HasNode(Finalise(nodes, i), nodes[j].origin, nodes[j].segs)
    decreases |nodes| - i
  {
    if nodes[i].segs != nodes[j].segs {
      var k := ChildToward(nodes, i, j);
      assert Covers(nodes, nodes[i].kids[k], Place(nodes[j].origin, nodes[j].segs, 0));
      assert i < nodes[i].kids[k] by { hide Forest; }
      hide KidsOk, Forest;
      KidAt(nodes, i, |nodes[i].kids|, k);
      NodeShown(nodes, nodes[i].kids[k], j);
      assert Finalise(nodes, i).children[k] == Finalise(nodes, nodes[i].kids[k]);
    } else { hide KidsOk, Forest; }
  }

  // ------------------------------------------------------------- what is counted

  lemma CountSnoc(placed: seq<Place>, x: Place, origin: Origin, segs: Segments)
    ensures CountAt(placed + [x], origin, segs) == CountAt(placed, origin, segs) + Weight(x, origin, segs)
    ensures CountBelow(placed + [x], origin, segs) == CountBelow(placed, origin, segs) + Share(x, origin, segs)
  {
    assert (placed + [x])[..|placed|] == placed;
  }

  /** Only root documents can be missing from what is counted below a host. */
  lemma {:induction false} OnlyRootsLost(rows: seq<Row>, placed: seq<Place>, origin: Origin)
    requires Accounts(rows, placed)
    ensures CountBelow(placed, origin, []) <= CountBelow(Placed(rows), origin, [])
         <= CountBelow(placed, origin, []) + CountAt(Placed(rows), origin, ["/"])
  {
    if rows != [] {
      var row, front := rows[|rows| - 1], rows[..|rows| - 1];
      if !row.listed {
        OnlyRootsLost(front, placed, origin);
        assert Placed(rows) == Placed(front);
      } else {
        CountSnoc(Placed(front), Place(row.origin, Home(row), FlowsOf(row)), origin, []);
        CountSnoc(Placed(front), Place(row.origin, Home(row), FlowsOf(row)), origin, ["/"]);
        hide CountAt, CountBelow;
        if placed != [] && Fits(row, placed[|placed| - 1]) && Accounts(front, placed[..|placed| - 1]) {
          OnlyRootsLost(front, placed[..|placed| - 1], origin);
          assert placed == placed[..|placed| - 1] + [placed[|placed| - 1]];
          CountSnoc(placed[..|placed| - 1], placed[|placed| - 1], origin, []);
        } else {
          OnlyRootsLost(front, placed, origin);
        }
      }
    }
  }

  // -------------------------------------------------------- where rows settle

  /** A row whose node is there is counted at home. */
  lemma AtHomeSettled(nodes: seq<Node>, row: Row)
    requires Forest(nodes) && row.listed && AtHome(nodes, row)
    ensures Settled(nodes, row) == [Place(row.origin, Home(row), FlowsOf(row))]
  {
    hide Reach, Forest, HasPath, RootDocument, PathSegments;
    ReachAll(nodes, row.origin, Home(row));
    assert Home(row)[..|Home(row)|] == Home(row);
  }

  predicate AllHome(nodes: seq<Node>, rows: seq<Row>) {
    forall r :: 0 <= r < |rows| && rows[r].listed ==> AtHome(nodes, rows[r])
  }

  /** With a node for every row, rows settle where they belong. */
  lemma {:induction false} AllHomePlaced(nodes: seq<Node>, rows: seq<Row>)
    requires Forest(nodes) && AllHome(nodes, rows)
    ensures SettledAll(nodes, rows) == Placed(rows)
  {
    if rows != [] {
      hide Forest, AtHome, Settled;
      var row := rows[|rows| - 1];
      AllHomePlaced(nodes, rows[..|rows| - 1]);
      if row.listed { AtHomeSettled(nodes, row); } else { UnlistedSettled(nodes, row); }
    }
  }

  lemma UnlistedSettled(nodes: seq<Node>, row: Row)
    requires !row.listed
    ensures Settled(nodes, row) == []
  {}

  /** Rows settled stay where they are while the map grows, unless one of them was short of home and
      more than host nodes were added. */
  lemma {:induction false} SettledKept(before: seq<Node>, after: seq<Node>, rows: seq<Row>)
    requires Forest(before) && Forest(after) && Extends(before, after)
    requires AllHome(before, rows) || Frozen(before, after)
    ensures SettledAll(after, rows) == SettledAll(before, rows)
  {
    if rows != [] {
      hide Forest, AtHome, Settled, Frozen, Extends;
      SettledKept(before, after, rows[..|rows| - 1]);
      OneKept(before, after, rows[|rows| - 1]);
    }
  }

  lemma OneKept(before: seq<Node>, after: seq<Node>, row: Row)
    requires Forest(before) && Forest(after) && Extends(before, after)
    requires (row.listed ==> AtHome(before, row)) || Frozen(before, after)
    ensures Settled(after, row) == Settled(before, row)
  {
    hide Forest, HasPath, Reach;
    PathKept(before, after, row.origin, Home(row));
    if Frozen(before, after) { ReachKept(before, after, row.origin, Home(row), 0); }
    else if row.listed {
      AtHomeSettled(before, row);
      AtHomeSettled(after, row);
    }
  }

  lemma HomesKept(before: seq<Node>, after: seq<Node>, rows: seq<Row>)
    requires Extends(before, after)
    ensures AllHome(before, rows) ==> AllHome(after, rows)
    ensures Frozen(before, after) && AllHome(after, rows) ==> AllHome(before, rows)
  {
    hide HasPath, Frozen, Extends;
    forall r | 0 <= r < |rows| { PathKept(before, after, rows[r].origin, Home(rows[r])); }
  }

  /** A row settles where the budget may leave it. */
  lemma {:induction false} SettledAccounts(nodes: seq<Node>, rows: seq<Row>)
    ensures Accounts(rows, SettledAll(nodes, rows))
  {
    if rows != [] {
      hide HasPath, Reach, RootDocument;
      var row, front := rows[|rows| - 1], rows[..|rows| - 1];
      SettledAccounts(nodes, front);
      var before := SettledAll(nodes, front);
      if Settled(nodes, row) == [] { assert before + [] == before; }
      else { assert (before + Settled(nodes, row))[..|before|] == before; }
    }
  }

  /** What the map of some rows is: nodes only on the way to rows, a host for every row, and
      truncated exactly when some row has no node. */
  predicate MapOf(nodes: seq<Node>, rows: seq<Row>, placed: seq<Place>, truncated: bool) {
    && placed == SettledAll(nodes, rows) && (truncated <==> !AllHome(nodes, rows))
    && Needed(nodes, rows) && HostsFor(nodes, rows)
  }

  predicate Needed(nodes: seq<Node>, rows: seq<Row>) { forall i :: 0 <= i < |nodes| ==> IsNeeded(nodes[i], rows) }

  predicate OnTheWay(node: Node, row: Row) { row.listed && node.origin == row.origin && node.segs <= Home(row) }

  predicate IsNeeded(node: Node, rows: seq<Row>) { exists r :: 0 <= r < |rows| && OnTheWay(node, rows[r]) }

  predicate HostsFor(nodes: seq<Node>, rows: seq<Row>) {
    forall r :: 0 <= r < |rows| && rows[r].listed ==> HasPath(nodes, rows[r].origin, [])
  }

  lemma NeededKept(before: seq<Node>, after: seq<Node>, rows: seq<Row>, row: Row)
    requires Needed(before, rows) && Grown(before, after, row.origin, Home(row)) && (row.listed || before == after)
    ensures Needed(after, rows + [row])
  {
    forall i | 0 <= i < |after| ensures IsNeeded(after[i], rows + [row]) {
      if i < |before| {
        assert IsNeeded(before[i], rows);
        var r :| 0 <= r < |rows| && OnTheWay(before[i], rows[r]);
        assert OnTheWay(after[i], (rows + [row])[r]);
      } else { assert OnTheWay(after[i], (rows + [row])[|rows|]); }
    }
  }

  lemma HostsKept(before: seq<Node>, after: seq<Node>, rows: seq<Row>, row: Row)
    requires HostsFor(before, rows) && Extends(before, after) && (row.listed ==> HasPath(after, row.origin, []))
    ensures HostsFor(after, rows + [row])
  {
    hide HasPath, Extends;
    forall r | 0 <= r < |rows| { PathKept(before, after, rows[r].origin, []); }
  }

  lemma HomesSnoc(nodes: seq<Node>, rows: seq<Row>, row: Row)
    ensures AllHome(nodes, rows + [row]) <==> AllHome(nodes, rows) && (row.listed ==> AtHome(nodes, row))
  {
    hide AtHome;
    var all := rows + [row];
    assert all[|rows|] == row && forall r :: 0 <= r < |rows| ==> all[r] == rows[r];
  }

  lemma SettledSnoc(nodes: seq<Node>, rows: seq<Row>, row: Row)
    ensures SettledAll(nodes, rows + [row]) == SettledAll(nodes, rows) + Settled(nodes, row)
  {
    hide Settled;
    assert (rows + [row])[..|rows|] == rows;
  }

  /** Adding a row to the map of some rows gives the map of those rows and it. */
  lemma MapNext(before: seq<Node>, after: seq<Node>, rows: seq<Row>, row: Row, placed: seq<Place>, was: bool, now: bool)
    requires Forest(before) && Forest(after) && MapOf(before, rows, placed, was)
    requires Grown(before, after, row.origin, Home(row)) && (was ==> Frozen(before, after))
    requires now == (was || (row.listed && !AtHome(after, row)))
    requires if row.listed then HasPath(after, row.origin, []) else before == after
    ensures MapOf(after, rows + [row], placed + Settled(after, row), now)
  {
    hide Grown, Forest, Extends, Frozen, AllHome, AtHome, Needed, HostsFor, Settled, SettledAll, HasPath, Home;
    NeededKept(before, after, rows, row);
    GrownExtends(before, after, row.origin, Home(row));
    HostsKept(before, after, rows, row);
    HomesSnoc(after, rows, row);
    HomesKept(before, after, rows);
    SettledKept(before, after, rows);
    SettledSnoc(after, rows, row);
  }

  /** A host's total, against all the rows there are for it. */
  predicate NearlyAll(t: SiteNode, counted: seq<Place>) {
    CountBelow(counted, t.origin, []) - CountAt(counted, t.origin, ["/"])
      <= t.subtree <= CountBelow(counted, t.origin, [])
  }

  lemma HostTotals(nodes: seq<Node>, roots: map<Origin, nat>, placed: seq<Place>, rows: seq<Row>, k: nat)
    requires Sound(nodes, roots, placed) && KidsOk(nodes) && k < |Hosts(nodes, |nodes|)| && Accounts(rows, placed)
    ensures var t := Hosts(nodes, |nodes|)[k];
      WellCounted(t) && t.segs == [] && Agrees(t, placed) && NearlyAll(t, Placed(rows))
  {
    hide Forest, KidsOk, Tally, Homed, RootsOk, Hosts, CountBelow, CountAt, Placed, Accounts, WellCounted;
    HostAgrees(nodes, placed, |nodes|, k);
    OnlyRootsLost(rows, placed, Hosts(nodes, |nodes|)[k].origin);
  }

  lemma SoundKids(nodes: seq<Node>, roots: map<Origin, nat>, placed: seq<Place>)
    requires Sound(nodes, roots, placed)
    ensures KidsOk(nodes)
  {
    hide KidsOk, Unique, Rooted, Tally, Homed, RootsOk;
  }

  /** The hosts list a row's origin. */
  predicate ListsHost(hosts: seq<SiteNode>, origin: Origin) {
    exists k :: 0 <= k < |hosts| && hosts[k].origin == origin
  }

  lemma HostShown(nodes: seq<Node>, origin: Origin)
    requires KidsOk(nodes) && HasPath(nodes, origin, [])
    ensures ListsHost(Hosts(nodes, |nodes|), origin)
  {
    var j: nat :| j < |nodes| && nodes[j].origin == origin && nodes[j].segs == [];
    hide KidsOk, Hosts;
    HostListed(nodes, j, |nodes|);
    FinalisePath(nodes, j);
    hide Finalise;
    var k :| 0 <= k < |Hosts(nodes, |nodes|)| && Hosts(nodes, |nodes|)[k] == Finalise(nodes, j);
  }

  /** Building the map of all rows.  Every row is counted at the deepest node on its path and only a
      root document without its node is lost; nodes stand only on rows' paths; every row's host is
      listed; and every host's tree sums exactly what is counted below each of its nodes.  The map is
      truncated exactly when some row has no node, and then it holds MAX_NODES path nodes; when it is
      not, the counts are those of all rows at their own paths. */
  method BuildSitemap(rows: seq<Row>) returns (m: SiteMap, hosts: seq<SiteNode>)
    ensures m.Valid() && MapOf(m.nodes, rows, m.placed, m.truncated) && Accounts(rows, m.placed)
    ensures PathNodes(m.nodes) <= 40000 && (m.truncated ==> PathNodes(m.nodes) == 40000)
    ensures KidsOk(m.nodes) && hosts == Hosts(m.nodes, |m.nodes|)
    ensures forall r :: 0 <= r < |rows| && rows[r].listed ==> ListsHost(hosts, rows[r].origin)
    ensures forall k :: 0 <= k < |hosts| ==> hosts[k].segs == [] && Agrees(hosts[k], m.placed)
    ensures forall k :: 0 <= k < |hosts| ==> NearlyAll(hosts[k], Placed(rows))
    ensures !m.truncated ==> m.placed == Placed(rows)
  {
    hide MapOf, Accounts, Placed, Sound, PathNodes, KidsOk, Hosts, Agrees, WellCounted, NearlyAll, Forest, Settled;
    hide Grown, Frozen, AtHome, HasPath, ListsHost;
    m := new SiteMap();
    var i := 0;
    NoRows();
    assert rows[..0] == [];
    while i < |rows|
      invariant i <= |rows| && fresh(m) && m.Valid() && MapOf(m.nodes, rows[..i], m.placed, m.truncated)
    {
      ghost var nodes, placed, was, budget := m.nodes, m.placed, m.truncated, m.budget;
      SoundForest(m.nodes, m.roots, m.placed);
      m.AddRow(rows[i]);
      SoundForest(m.nodes, m.roots, m.placed);
      MapNext(nodes, m.nodes, rows[..i], rows[i], placed, was, m.truncated);
      assert rows[..i] + [rows[i]] == rows[..i + 1];
      i := i + 1;
    }
    assert rows[..i] == rows;
    SoundForest(m.nodes, m.roots, m.placed);
    SoundKids(m.nodes, m.roots, m.placed);
    MapFacts(m.nodes, rows, m.placed, m.truncated);
    hosts := Hosts(m.nodes, |m.nodes|);
    forall k | 0 <= k < |hosts|
      ensures hosts[k].segs == [] && Agrees(hosts[k], m.placed) && NearlyAll(hosts[k], Placed(rows))
    {
      HostTotals(m.nodes, m.roots, m.placed, rows, k);
    }
    forall r | 0 <= r < |rows| && rows[r].listed ensures ListsHost(hosts, rows[r].origin) {
      HostShown(m.nodes, rows[r].origin);
    }
  }

  lemma MapFacts(nodes: seq<Node>, rows: seq<Row>, placed: seq<Place>, truncated: bool)
    requires Forest(nodes) && MapOf(nodes, rows, placed, truncated)
    ensures Accounts(rows, placed) && (!truncated ==> placed == Placed(rows))
    ensures forall r :: 0 <= r < |rows| && rows[r].listed ==> HasPath(nodes, rows[r].origin, [])
  {
    hide Forest, AllHome, HasPath;
    SettledAccounts(nodes, rows);
    if !truncated { AllHomePlaced(nodes, rows); }
  }

  lemma NoRows()
    ensures MapOf([], [], [], false)
  {}

  /** A row's node, where the map has it, is in the tree of the row's host. */
  lemma EveryRowShown(nodes: seq<Node>, roots: map<Origin, nat>, placed: seq<Place>, row: Row) returns (host: SiteNode)
    requires Sound(nodes, roots, placed) && KidsOk(nodes) && AtHome(nodes, row)
    ensures host in Hosts(nodes, |nodes|) && HasNode(host, row.origin, Home(row))
  {
    hide Forest, KidsOk, Tally, Homed, Home, Hosts, Finalise, HasNode;
    var j: nat :| j < |nodes| && nodes[j].origin == row.origin && nodes[j].segs == Home(row);
    var h := roots[row.origin];
    HostListed(nodes, h, |nodes|);
    NodeShown(nodes, h, j);
    host := Finalise(nodes, h);
  }

  // --------------------------------------------------------------- order of rows

  function Without(rows: seq<Row>, j: nat): seq<Row>
    requires j < |rows|
  {
    rows[..j] + rows[j + 1..]
  }

  /** What a row adds, wherever it stands. */
  function PlaceOf(row: Row): Place { Place(row.origin, Home(row), if row.listed then FlowsOf(row) else 0) }

  lemma LastRow(rows: seq<Row>, origin: Origin, segs: Segments)
    requires rows != []
    ensures var n := |rows| - 1;
      && CountAt(Placed(rows), origin, segs)
         == CountAt(Placed(rows[..n]), origin, segs) + Weight(PlaceOf(rows[n]), origin, segs)
      && CountBelow(Placed(rows), origin, segs)
         == CountBelow(Placed(rows[..n]), origin, segs) + Share(PlaceOf(rows[n]), origin, segs)
  {
    var n := |rows| - 1;
    CountSnoc(Placed(rows[..n]), PlaceOf(rows[n]), origin, segs);
    assert Placed(rows[..n]) + [] == Placed(rows[..n]);
    hide CountAt, CountBelow, Home;
  }

  lemma WithoutFront(rows: seq<Row>, j: nat)
    requires j < |rows|
    ensures var n := |rows| - 1; var less := Without(rows, j);
      && |less| == n && (j == n ==> less == rows[..n])
      && (j < n ==> less[..n - 1] == Without(rows[..n], j) && less[n - 1] == rows[n] && rows[..n][j] == rows[j])
  {}

  lemma {:induction false} RowRemoved(rows: seq<Row>, j: nat, origin: Origin, segs: Segments)
    requires j < |rows|
    ensures CountAt(Placed(rows), origin, segs)
         == CountAt(Placed(Without(rows, j)), origin, segs) + Weight(PlaceOf(rows[j]), origin, segs)
    ensures CountBelow(Placed(rows), origin, segs)
         == CountBelow(Placed(Without(rows, j)), origin, segs) + Share(PlaceOf(rows[j]), origin, segs)
  {
    hide CountAt, CountBelow, Placed, PlaceOf, Weight, Share, Without;
    var n := |rows| - 1;
    LastRow(rows, origin, segs);
    WithoutFront(rows, j);
    if j < n {
      LastRow(Without(rows, j), origin, segs);
      RowRemoved(rows[..n], j, origin, segs);
    }
  }

  lemma RemovedMultiset(rows: seq<Row>, j: nat)
    requires j < |rows|
    ensures multiset(Without(rows, j)) == multiset(rows) - multiset{rows[j]}
  {
    assert rows == rows[..j] + [rows[j]] + rows[j + 1..];
  }

  /** What is counted does not depend on the order of the rows. */
  lemma {:induction false} AnyOrder(a: seq<Row>, b: seq<Row>, origin: Origin, segs: Segments)
    requires multiset(a) == multiset(b)
    ensures CountAt(Placed(a), origin, segs) == CountAt(Placed(b), origin, segs)
    ensures CountBelow(Placed(a), origin, segs) == CountBelow(Placed(b), origin, segs)
    decreases |a|
  {
    if a == [] { assert |b| == |multiset(b)| == 0; }
    else {
      assert a[0] in multiset(b);
      var j :| 0 <= j < |b| && b[j] == a[0];
      RemovedMultiset(a, 0);
      RemovedMultiset(b, j);
      RowRemoved(a, 0, origin, segs);
      RowRemoved(b, j, origin, segs);
      hide CountAt, CountBelow, Placed, PlaceOf, Weight, Share;
      AnyOrder(Without(a, 0), Without(b, j), origin, segs);
    }
  }
}
