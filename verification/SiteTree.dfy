/** The nodes of a sitemap under construction, numbered in the order they are made: each holds
    the origin it belongs to, the path segments from its host node, the rows counted at it and
    its children. */
module SiteTree {
  type Segments = seq<string>

  datatype Origin = Origin(netloc: string, tls: bool)

  datatype Node = Node(origin: Origin, segs: Segments, count: nat, kids: seq<nat>)

  /** A row of history counted at a node. */
  datatype Place = Place(origin: Origin, segs: Segments, n: nat)

  predicate IsKid(parent: Node, kid: Node) {
    kid.origin == parent.origin && |kid.segs| == |parent.segs| + 1 && kid.segs[..|parent.segs|] == parent.segs
  }

  /** Children come after their parent, extend its path by one segment, and are listed once. */
  predicate KidsOk(nodes: seq<Node>) {
    && (forall i, k :: 0 <= i < |nodes| && 0 <= k < |nodes[i].kids| ==>
          i < nodes[i].kids[k] < |nodes| && IsKid(nodes[i], nodes[nodes[i].kids[k]]))
    && (forall i, k, l :: 0 <= i < |nodes| && 0 <= k < l < |nodes[i].kids| ==> nodes[i].kids[k] < nodes[i].kids[l])
  }

  /** One node for a path. */
  predicate Unique(nodes: seq<Node>) {
    forall i, j :: 0 <= i < j < |nodes| ==> nodes[i].origin != nodes[j].origin || nodes[i].segs != nodes[j].segs
  }

  predicate HasParent(nodes: seq<Node>, j: nat) { exists p :: 0 <= p < |nodes| && p < j && j in nodes[p].kids }

  /** Every path node is some node's child. */
  predicate Rooted(nodes: seq<Node>) {
    forall j :: 0 <= j < |nodes| && nodes[j].segs != [] ==> HasParent(nodes, j)
  }

  predicate Forest(nodes: seq<Node>) { KidsOk(nodes) && Unique(nodes) && Rooted(nodes) }

  // ------------------------------------------------------------- growing the forest

  function WithRoot(nodes: seq<Node>, origin: Origin): seq<Node> { nodes + [Node(origin, [], 0, [])] }

  function WithKid(nodes: seq<Node>, p: nat, name: string): seq<Node>
    requires p < |nodes|
  {
    nodes[p := nodes[p].(kids := nodes[p].kids + [|nodes|])] + [Node(nodes[p].origin, nodes[p].segs + [name], 0, [])]
  }

  function Counted(nodes: seq<Node>, i: nat, n: nat): seq<Node>
    requires i < |nodes|
  {
    nodes[i := nodes[i].(count := nodes[i].count + n)]
  }

  predicate NoRoot(nodes: seq<Node>, origin: Origin) {
    forall i :: 0 <= i < |nodes| && nodes[i].origin == origin ==> nodes[i].segs != []
  }

  predicate NoKid(nodes: seq<Node>, p: nat, name: string)
    requires p < |nodes|
  {
    forall k :: 0 <= k < |nodes[p].kids| && nodes[p].kids[k] < |nodes| ==>
      nodes[nodes[p].kids[k]].segs != nodes[p].segs + [name]
  }

  lemma ParentOf(nodes: seq<Node>, j: nat) returns (p: nat, k: nat)
    requires KidsOk(nodes) && Rooted(nodes) && j < |nodes| && nodes[j].segs != []
    ensures p < j && k < |nodes[p].kids| && nodes[p].kids[k] == j && IsKid(nodes[p], nodes[j])
  {
    assert HasParent(nodes, j);
    var q: nat :| q < |nodes| && q < j && j in nodes[q].kids;
    p := q;
    k :| 0 <= k < |nodes[p].kids| && nodes[p].kids[k] == j;
    hide Rooted, HasParent;
    assert IsKid(nodes[p], nodes[nodes[p].kids[k]]);
  }

  lemma SamePath(nodes: seq<Node>, i: nat, p: nat)
    requires Unique(nodes) && i < |nodes| && p < |nodes|
    requires nodes[i].origin == nodes[p].origin && nodes[i].segs == nodes[p].segs
    ensures i == p
  {}

  /** Where a node's path is its parent's child's path, it is that child. */
  lemma IsListed(nodes: seq<Node>, p: nat, j: nat) returns (k: nat)
    requires Forest(nodes) && p < |nodes| && j < |nodes| && IsKid(nodes[p], nodes[j])
    ensures k < |nodes[p].kids| && nodes[p].kids[k] == j
  {
    hide KidsOk, Rooted, Unique;
    var q, l := ParentOf(nodes, j);
    assert nodes[q].segs == nodes[p].segs;
    SamePath(nodes, q, p);
    k := l;
  }

  lemma WithRootForest(nodes: seq<Node>, origin: Origin)
    requires Forest(nodes) && NoRoot(nodes, origin)
    ensures Forest(WithRoot(nodes, origin))
  {
    WithRootRooted(nodes, origin);
    WithRootKids(nodes, origin);
    assert Unique(WithRoot(nodes, origin)) by { hide KidsOk, Rooted; }
    hide KidsOk, Rooted, Unique;
  }

  lemma WithRootKids(nodes: seq<Node>, origin: Origin)
    requires KidsOk(nodes)
    ensures KidsOk(WithRoot(nodes, origin))
  {
    hide IsKid;
  }

  lemma WithRootRooted(nodes: seq<Node>, origin: Origin)
    requires Rooted(nodes)
    ensures Rooted(WithRoot(nodes, origin))
  {
    var grown := WithRoot(nodes, origin);
    forall j | 0 <= j < |grown| && grown[j].segs != [] ensures HasParent(grown, j) {
      assert HasParent(nodes, j);
      var p :| 0 <= p < |nodes| && p < j && j in nodes[p].kids;
      assert grown[p] == nodes[p];
    }
  }

  lemma WithKidUnique(nodes: seq<Node>, p: nat, name: string)
    requires Forest(nodes) && p < |nodes| && NoKid(nodes, p, name)
    ensures Unique(WithKid(nodes, p, name))
  {
    var grown := WithKid(nodes, p, name);
    var added := grown[|nodes|];
    assert added.segs[..|nodes[p].segs|] == nodes[p].segs;
    forall i | 0 <= i < |nodes| ensures nodes[i].origin != added.origin || nodes[i].segs != added.segs {
      if nodes[i].origin == added.origin && nodes[i].segs == added.segs { var k := IsListed(nodes, p, i); }
    }
  }

  lemma WithKidRooted(nodes: seq<Node>, p: nat, name: string)
    requires Rooted(nodes) && p < |nodes|
    ensures Rooted(WithKid(nodes, p, name))
  {
    var grown := WithKid(nodes, p, name);
    assert |nodes| in grown[p].kids by { assert grown[p].kids[|nodes[p].kids|] == |nodes|; }
    forall j | 0 <= j < |grown| && grown[j].segs != [] ensures HasParent(grown, j) {
      if j < |nodes| {
        assert HasParent(nodes, j);
        var q :| 0 <= q < |nodes| && q < j && j in nodes[q].kids;
        var k :| 0 <= k < |nodes[q].kids| && nodes[q].kids[k] == j;
        assert grown[q].kids[k] == j;
      }
    }
  }

  lemma WithKidKids(nodes: seq<Node>, p: nat, name: string)
    requires KidsOk(nodes) && p < |nodes|
    ensures KidsOk(WithKid(nodes, p, name))
  {
    var grown := WithKid(nodes, p, name);
    assert IsKid(nodes[p], grown[|nodes|]);
    forall i, k | 0 <= i < |grown| && 0 <= k < |grown[i].kids|
      ensures i < grown[i].kids[k] < |grown| && IsKid(grown[i], grown[grown[i].kids[k]])
    {
      if i < |nodes| && k < |nodes[i].kids| { assert IsKid(nodes[i], nodes[nodes[i].kids[k]]); }
    }
  }

  /** A child made where there was none keeps the forest. */
  lemma WithKidForest(nodes: seq<Node>, p: nat, name: string)
    requires Forest(nodes) && p < |nodes| && NoKid(nodes, p, name)
    ensures Forest(WithKid(nodes, p, name))
  {
    WithKidUnique(nodes, p, name);
    WithKidRooted(nodes, p, name);
    WithKidKids(nodes, p, name);
    hide KidsOk, Unique, Rooted;
  }

  lemma CountedRooted(nodes: seq<Node>, i: nat, n: nat)
    requires Rooted(nodes) && i < |nodes|
    ensures Rooted(Counted(nodes, i, n))
  {
    var ms := Counted(nodes, i, n);
    assert forall k :: 0 <= k < |ms| ==> ms[k].kids == nodes[k].kids && ms[k].segs == nodes[k].segs;
    forall j | 0 <= j < |ms| && ms[j].segs != [] ensures HasParent(ms, j) {
      assert HasParent(nodes, j);
      var p :| 0 <= p < |nodes| && p < j && j in nodes[p].kids;
      assert j in ms[p].kids;
    }
  }

  lemma CountedUnique(nodes: seq<Node>, i: nat, n: nat)
    requires Unique(nodes) && i < |nodes|
    ensures Unique(Counted(nodes, i, n))
  {
    var ms := Counted(nodes, i, n);
    assert forall k :: 0 <= k < |ms| ==> ms[k].origin == nodes[k].origin && ms[k].segs == nodes[k].segs;
  }

  lemma CountedKids(nodes: seq<Node>, i: nat, n: nat)
    requires KidsOk(nodes) && i < |nodes|
    ensures KidsOk(Counted(nodes, i, n))
  {
    var ms := Counted(nodes, i, n);
    forall a, k | 0 <= a < |ms| && 0 <= k < |ms[a].kids|
      ensures a < ms[a].kids[k] < |ms| && IsKid(ms[a], ms[ms[a].kids[k]])
    {
      assert IsKid(nodes[a], nodes[nodes[a].kids[k]]);
    }
  }

  /** Counting a row changes no path and no child. */
  lemma CountedForest(nodes: seq<Node>, i: nat, n: nat)
    requires Forest(nodes) && i < |nodes|
    ensures Forest(Counted(nodes, i, n))
  {
    CountedRooted(nodes, i, n);
    CountedKids(nodes, i, n);
    CountedUnique(nodes, i, n);
    hide Rooted, KidsOk, Unique;
  }

  // ------------------------------------------------------------------- paths

  predicate HasPath(nodes: seq<Node>, origin: Origin, segs: Segments) {
    exists j :: 0 <= j < |nodes| && nodes[j].origin == origin && nodes[j].segs == segs
  }

  /** How far down a path the map goes, beginning at depth `k`. */
  function Reach(nodes: seq<Node>, origin: Origin, path: Segments, k: nat): (r: nat)
    ensures k <= |path| ==> k <= r <= |path|
    decreases |path| - k
  {
    if k < |path| && HasPath(nodes, origin, path[..k + 1]) then Reach(nodes, origin, path, k + 1) else k
  }

  /** The map goes exactly as far as the path's prefixes are there. */
  lemma {:induction false} ReachIs(nodes: seq<Node>, origin: Origin, path: Segments, k: nat, d: nat)
    requires k <= d <= |path| && forall i :: k < i <= d ==> HasPath(nodes, origin, path[..i])
    requires d < |path| ==> !HasPath(nodes, origin, path[..d + 1])
    ensures Reach(nodes, origin, path, k) == d
    decreases d - k
  {
    hide HasPath;
    if k < d { ReachIs(nodes, origin, path, k + 1, d); }
  }

  /** Nodes keep their paths as the map grows. */
  predicate Extends(before: seq<Node>, after: seq<Node>) {
    && |before| <= |after|
    && forall i :: 0 <= i < |before| ==> after[i].origin == before[i].origin && after[i].segs == before[i].segs
  }

  /** Nothing but host nodes is added. */
  predicate Frozen(before: seq<Node>, after: seq<Node>) {
    Extends(before, after) && forall i :: |before| <= i < |after| ==> after[i].segs == []
  }

  lemma PathKept(before: seq<Node>, after: seq<Node>, origin: Origin, segs: Segments)
    requires Extends(before, after)
    ensures HasPath(before, origin, segs) ==> HasPath(after, origin, segs)
    ensures Frozen(before, after) && segs != [] && HasPath(after, origin, segs) ==> HasPath(before, origin, segs)
  {
    if HasPath(before, origin, segs) {
      var j :| 0 <= j < |before| && before[j].origin == origin && before[j].segs == segs;
      assert after[j].segs == segs;
    }
    if Frozen(before, after) && segs != [] && HasPath(after, origin, segs) {
      var j :| 0 <= j < |after| && after[j].origin == origin && after[j].segs == segs;
      assert before[j].segs == segs;
    }
  }

  lemma {:induction false} ReachKept(before: seq<Node>, after: seq<Node>, origin: Origin, path: Segments, k: nat)
    requires Frozen(before, after)
    ensures Reach(after, origin, path, k) == Reach(before, origin, path, k)
    decreases |path| - k
  {
    if k < |path| {
      hide HasPath, Frozen;
      assert Extends(before, after) by { FrozenExtends(before, after); }
      PathKept(before, after, origin, path[..k + 1]);
      ReachKept(before, after, origin, path, k + 1);
    }
  }

  lemma FrozenExtends(before: seq<Node>, after: seq<Node>)
    requires Frozen(before, after)
    ensures Extends(before, after)
  {}

  /** A forest with a path has every path above it. */
  lemma ParentPath(nodes: seq<Node>, origin: Origin, segs: Segments)
    requires Forest(nodes) && HasPath(nodes, origin, segs) && segs != []
    ensures HasPath(nodes, origin, segs[..|segs| - 1])
  {
    var j: nat :| j < |nodes| && nodes[j].origin == origin && nodes[j].segs == segs;
    var p, k := ParentOf(nodes, j);
    hide KidsOk, Rooted, Unique;
    assert nodes[p].segs == segs[..|segs| - 1];
  }

  lemma {:induction false} PathsAbove(nodes: seq<Node>, origin: Origin, segs: Segments, i: nat)
    requires Forest(nodes) && HasPath(nodes, origin, segs) && i <= |segs|
    ensures HasPath(nodes, origin, segs[..i])
    decreases |segs|
  {
    hide Forest, HasPath;
    if i == |segs| { assert segs[..i] == segs; }
    else {
      ParentPath(nodes, origin, segs);
      PathsAbove(nodes, origin, segs[..|segs| - 1], i);
      assert segs[..|segs| - 1][..i] == segs[..i];
    }
  }

  /** A path the forest has is reached. */
  lemma ReachAll(nodes: seq<Node>, origin: Origin, path: Segments)
    requires Forest(nodes) && HasPath(nodes, origin, path)
    ensures Reach(nodes, origin, path, 0) == |path|
  {
    hide Forest, HasPath;
    forall i | 0 < i <= |path| ensures HasPath(nodes, origin, path[..i]) { PathsAbove(nodes, origin, path, i); }
    ReachIs(nodes, origin, path, 0, |path|);
  }

  /** Where a path's next prefix is missing the map stops, and the whole path is missing. */
  lemma ReachStops(nodes: seq<Node>, origin: Origin, path: Segments, i: nat)
    requires Forest(nodes) && i < |path|
    requires HasPath(nodes, origin, path[..i]) && !HasPath(nodes, origin, path[..i + 1])
    ensures Reach(nodes, origin, path, 0) == i && !HasPath(nodes, origin, path)
  {
    hide Forest, HasPath, Reach;
    forall k | 0 < k <= i ensures HasPath(nodes, origin, path[..k]) {
      PathsAbove(nodes, origin, path[..i], k);
      assert path[..i][..k] == path[..k];
    }
    ReachIs(nodes, origin, path, 0, i);
    if HasPath(nodes, origin, path) { PathsAbove(nodes, origin, path, i + 1); }
  }

  /** What is no child of a node is nowhere in the forest. */
  lemma NoKidNoPath(nodes: seq<Node>, p: nat, name: string)
    requires Forest(nodes) && p < |nodes| && NoKid(nodes, p, name)
    ensures !HasPath(nodes, nodes[p].origin, nodes[p].segs + [name])
  {
    var path := nodes[p].segs + [name];
    assert path[..|nodes[p].segs|] == nodes[p].segs;
    if HasPath(nodes, nodes[p].origin, path) {
      var j: nat :| j < |nodes| && nodes[j].origin == nodes[p].origin && nodes[j].segs == path;
      var k := IsListed(nodes, p, j);
    }
  }

  // --------------------------------------------------------------------- sums

  /** What is counted at exactly one path. */
  function CountAt(placed: seq<Place>, origin: Origin, segs: Segments): nat {
    if placed == [] then 0 else
      CountAt(placed[..|placed| - 1], origin, segs) + Weight(placed[|placed| - 1], origin, segs)
  }

  function Weight(x: Place, origin: Origin, segs: Segments): nat {
    if x.origin == origin && x.segs == segs then x.n else 0
  }

  /** What is counted at a path or anywhere below it. */
  function CountBelow(placed: seq<Place>, origin: Origin, segs: Segments): nat {
    if placed == [] then 0 else
      CountBelow(placed[..|placed| - 1], origin, segs) + Share(placed[|placed| - 1], origin, segs)
  }

  function Share(x: Place, origin: Origin, segs: Segments): nat {
    if x.origin == origin && segs <= x.segs then x.n else 0
  }

  /** The first `m` children's shares. */
  function KidsBelow(nodes: seq<Node>, kids: seq<nat>, placed: seq<Place>): nat {
    if kids == [] then 0 else
      KidsBelow(nodes, kids[..|kids| - 1], placed)
      + var k := kids[|kids| - 1]; if k < |nodes| then CountBelow(placed, nodes[k].origin, nodes[k].segs) else 0
  }

  function KidsShare(nodes: seq<Node>, kids: seq<nat>, x: Place): nat {
    if kids == [] then 0 else
      KidsShare(nodes, kids[..|kids| - 1], x)
      + var k := kids[|kids| - 1]; if k < |nodes| then Share(x, nodes[k].origin, nodes[k].segs) else 0
  }

  lemma {:induction false} KidsSnoc(nodes: seq<Node>, kids: seq<nat>, placed: seq<Place>)
    requires placed != []
    ensures KidsBelow(nodes, kids, placed)
         == KidsBelow(nodes, kids, placed[..|placed| - 1]) + KidsShare(nodes, kids, placed[|placed| - 1])
  {
    if kids != [] { KidsSnoc(nodes, kids[..|kids| - 1], placed); }
  }

  lemma {:induction false} KidsEmpty(nodes: seq<Node>, kids: seq<nat>)
    ensures KidsBelow(nodes, kids, []) == 0
  {
    if kids != [] { KidsEmpty(nodes, kids[..|kids| - 1]); }
  }

  predicate Covers(nodes: seq<Node>, k: nat, x: Place) {
    k < |nodes| && nodes[k].origin == x.origin && nodes[k].segs <= x.segs
  }

  /** No child covers the place: the children share nothing of it. */
  lemma {:induction false} ShareNone(nodes: seq<Node>, kids: seq<nat>, x: Place)
    requires forall k :: 0 <= k < |kids| ==> !Covers(nodes, kids[k], x)
    ensures KidsShare(nodes, kids, x) == 0
  {
    if kids != [] {
      assert !Covers(nodes, kids[|kids| - 1], x);
      ShareNone(nodes, kids[..|kids| - 1], x);
    }
  }

  /** One child covers the place: the children share it once. */
  lemma {:induction false} ShareOnce(nodes: seq<Node>, kids: seq<nat>, x: Place, c: nat)
    requires c < |kids| && forall k :: 0 <= k < |kids| ==> (Covers(nodes, kids[k], x) <==> k == c)
    ensures KidsShare(nodes, kids, x) == x.n
  {
    var last := |kids| - 1;
    assert Covers(nodes, kids[last], x) <==> last == c;
    if c == last { ShareNone(nodes, kids[..last], x); }
    else { ShareOnce(nodes, kids[..last], x, c); }
  }

  lemma PrefixTrans<T>(a: seq<T>, b: seq<T>, c: seq<T>)
    requires a <= b <= c
    ensures a <= c && (a == c ==> a == b)
  {}

  lemma PrefixShorter<T>(a: seq<T>, b: seq<T>, c: seq<T>)
    requires a < c && b <= c && |b| + 1 == |c|
    ensures a <= b && (|a| == |b| ==> a == b)
  {}

  /** Below a node, some child leads to any node whose path continues it. */
  lemma {:induction false} SomeChild(nodes: seq<Node>, i: nat, j: nat) returns (k: nat)
    requires Forest(nodes) && i < |nodes| && j < |nodes|
    requires nodes[i].origin == nodes[j].origin && nodes[i].segs < nodes[j].segs
    ensures k < |nodes[i].kids| && nodes[i].kids[k] < |nodes|
    ensures nodes[nodes[i].kids[k]].origin == nodes[j].origin && nodes[nodes[i].kids[k]].segs <= nodes[j].segs
    decreases j
  {
    var p, l := ParentOf(nodes, j);
    hide KidsOk, Rooted, Unique;
    PrefixShorter(nodes[i].segs, nodes[p].segs, nodes[j].segs);
    if |nodes[p].segs| == |nodes[i].segs| {
      SamePath(nodes, i, p);
      k := l;
    } else {
      k := SomeChild(nodes, i, p);
      PrefixTrans(nodes[nodes[i].kids[k]].segs, nodes[p].segs, nodes[j].segs);
    }
  }

  /** Two children of a node never cover the same place. */
  lemma OneChild(nodes: seq<Node>, i: nat, k: nat, l: nat, x: Place)
    requires Forest(nodes) && i < |nodes| && k < |nodes[i].kids| && l < |nodes[i].kids|
    requires Covers(nodes, nodes[i].kids[k], x) && Covers(nodes, nodes[i].kids[l], x)
    ensures k == l
  {
    var a, b := nodes[nodes[i].kids[k]], nodes[nodes[i].kids[l]];
    assert IsKid(nodes[i], a) && IsKid(nodes[i], b);
    assert a.segs == x.segs[..|a.segs|] && b.segs == x.segs[..|b.segs|];
  }

  /** Below a node, exactly one child leads to a node whose path continues it. */
  lemma ChildToward(nodes: seq<Node>, i: nat, j: nat) returns (k: nat)
    requires Forest(nodes) && i < |nodes| && j < |nodes|
    requires nodes[i].origin == nodes[j].origin && nodes[i].segs < nodes[j].segs
    ensures k < |nodes[i].kids|
    ensures forall l :: 0 <= l < |nodes[i].kids| ==>
      (Covers(nodes, nodes[i].kids[l], Place(nodes[j].origin, nodes[j].segs, 0)) <==> l == k)
  {
    k := SomeChild(nodes, i, j);
    var x := Place(nodes[j].origin, nodes[j].segs, 0);
    hide Forest;
    forall l | 0 <= l < |nodes[i].kids| ensures Covers(nodes, nodes[i].kids[l], x) <==> l == k {
      if Covers(nodes, nodes[i].kids[l], x) { OneChild(nodes, i, l, k, x); }
    }
  }

  /** A node's share of a place is its own and its children's. */
  lemma OnePlace(nodes: seq<Node>, i: nat, x: Place, j: nat)
    requires Forest(nodes) && i < |nodes| && j < |nodes| && nodes[j].origin == x.origin && nodes[j].segs == x.segs
    ensures Share(x, nodes[i].origin, nodes[i].segs)
         == Weight(x, nodes[i].origin, nodes[i].segs) + KidsShare(nodes, nodes[i].kids, x)
  {
    var kids := nodes[i].kids;
    if Covers(nodes, i, x) && nodes[i].segs != x.segs {
      var c := ChildToward(nodes, i, j);
      forall k | 0 <= k < |kids| ensures Covers(nodes, kids[k], x) <==> k == c {
        assert Covers(nodes, kids[k], Place(nodes[j].origin, nodes[j].segs, 0)) <==> k == c;
      }
      ShareOnce(nodes, kids, x, c);
    } else {
      forall k | 0 <= k < |kids| ensures !Covers(nodes, kids[k], x) {
        assert IsKid(nodes[i], nodes[kids[k]]);
        if Covers(nodes, kids[k], x) { PrefixTrans(nodes[i].segs, nodes[kids[k]].segs, x.segs); }
      }
      ShareNone(nodes, kids, x);
    }
  }

  /** Every counted row sits at the path of some node. */
  predicate Homed(nodes: seq<Node>, placed: seq<Place>) {
    forall r :: 0 <= r < |placed| ==> HasHome(nodes, placed[r])
  }

  predicate HasHome(nodes: seq<Node>, x: Place) { HasPath(nodes, x.origin, x.segs) }

  lemma {:induction false} BelowSplits(nodes: seq<Node>, i: nat, placed: seq<Place>)
    requires Forest(nodes) && i < |nodes| && Homed(nodes, placed)
    ensures CountBelow(placed, nodes[i].origin, nodes[i].segs)
         == CountAt(placed, nodes[i].origin, nodes[i].segs) + KidsBelow(nodes, nodes[i].kids, placed)
  {
    if placed == [] { KidsEmpty(nodes, nodes[i].kids); }
    else {
      var x := placed[|placed| - 1];
      assert HasHome(nodes, x);
      var j :| 0 <= j < |nodes| && nodes[j].origin == x.origin && nodes[j].segs == x.segs;
      BelowSplits(nodes, i, placed[..|placed| - 1]);
      KidsSnoc(nodes, nodes[i].kids, placed);
      OnePlace(nodes, i, x, j);
      hide Forest, Share, Weight, KidsBelow, KidsShare;
    }
  }
}
