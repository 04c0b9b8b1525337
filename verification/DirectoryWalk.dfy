/** Listing a directory to a depth: the library walk with its skip signal, the callback that prunes it, and
    the full preorder it is compared with. */
module DirectoryWalk {
  import opened Text
  import opened Wrappers

  /** What `entryInfo` answers when the walk reaches the node. */
  datatype Stat = Info(size: nat) | NotFound | Failed

  datatype Tree = Node(name: string, stat: Stat, kind: Kind)

  datatype Kind = File | Directory(readable: bool, children: seq<Tree>)

  /** `place` below is `filepath.Join` of the requested path and a relative one. */
  datatype Entry = Entry(path: string, size: nat)

  // ---------------------------------------------------------------- the reference: a filtered preorder

  /** A node met by the full walk, with its path below the root. */
  datatype Visit = Visit(rel: seq<string>, stat: Stat, unreadable: bool)

  function Children(node: Tree): seq<Tree> {
    if node.kind.File? then [] else node.kind.children
  }

  function Preorder(rel: seq<string>, node: Tree): seq<Visit>
    decreases node, |Children(node)| + 1
  {
    [Own(rel, node)] + Below(rel, node, |Children(node)|)
  }

  /** The visits of the first `k` children and everything under them. */
  function Below(rel: seq<string>, node: Tree, k: nat): seq<Visit>
    requires k <= |Children(node)|
    decreases node, k
  {
    if k == 0 then []
    else
      var child := Children(node)[k - 1];
      Below(rel, node, k - 1) + Preorder(rel + [child.name], child)
  }

  predicate Within(rel: seq<string>, depth: int) { rel == [] || |rel| <= depth }

  /** A visit within the depth that makes the listing fail. */
  predicate IsFault(v: Visit, depth: int) {
    Within(v.rel, depth) && (v.unreadable || (v.rel != [] && v.stat.Failed?))
  }

  predicate HasFault(vs: seq<Visit>, depth: int) {
    exists i :: 0 <= i < |vs| && IsFault(vs[i], depth)
  }

  /** The entries of the visits at depth 1 to `depth`, in order; vanished files are left out. */
  function Select(place: string -> string, vs: seq<Visit>, depth: int): seq<Entry> {
    if vs == [] then []
    else
      var v := vs[|vs| - 1];
      Select(place, vs[..|vs| - 1], depth)
      + if v.rel != [] && Within(v.rel, depth) && v.stat.Info? then [Entry(place(Join(v.rel, '/')), v.stat.size)] else []
  }

  lemma {:induction false} SelectAppend(place: string -> string, a: seq<Visit>, b: seq<Visit>, depth: int)
    ensures Select(place, a + b, depth) == Select(place, a, depth) + Select(place, b, depth)
  {
    if b == [] {
      assert a + b == a;
    } else {
      var n := |b| - 1;
      assert (a + b)[..|a| + n] == a + b[..n];
      SelectAppend(place, a, b[..n], depth);
    }
  }

  lemma FaultAppend(a: seq<Visit>, b: seq<Visit>, depth: int)
    ensures HasFault(a + b, depth) <==> HasFault(a, depth) || HasFault(b, depth)
  {
    if HasFault(a, depth) {
      var i :| 0 <= i < |a| && IsFault(a[i], depth);
      assert (a + b)[i] == a[i];
    }
    if HasFault(b, depth) {
      var i :| 0 <= i < |b| && IsFault(b[i], depth);
      assert (a + b)[|a| + i] == b[i];
    }
  }

  /** Nothing below a node is nearer to the root than the node. */
  lemma {:induction false} NothingNearer(rel: seq<string>, node: Tree)
    ensures forall i :: 0 <= i < |Preorder(rel, node)| ==> |rel| <= |Preorder(rel, node)[i].rel|
    decreases node, |Children(node)| + 1
  {
    NothingNearerBelow(rel, node, |Children(node)|);
  }

  lemma {:induction false} NothingNearerBelow(rel: seq<string>, node: Tree, k: nat)
    requires k <= |Children(node)|
    ensures forall i :: 0 <= i < |Below(rel, node, k)| ==> |rel| < |Below(rel, node, k)[i].rel|
    decreases node, k
  {
    if k == 0 {
    } else {
      NothingNearerBelow(rel, node, k - 1);
      NothingNearer(rel + [Children(node)[k - 1].name], Children(node)[k - 1]);
    }
  }

  lemma {:induction false} TooDeep(place: string -> string, vs: seq<Visit>, depth: int)
    requires forall i :: 0 <= i < |vs| ==> !Within(vs[i].rel, depth)
    ensures Select(place, vs, depth) == [] && !HasFault(vs, depth)
  {
    if vs == [] {
    } else {
      TooDeep(place, vs[..|vs| - 1], depth);
    }
  }

  /** What the node itself contributes. */
  function Own(rel: seq<string>, node: Tree): Visit {
    Visit(rel, node.stat, node.kind.Directory? && !node.kind.readable)
  }

  lemma NodeParts(place: string -> string, rel: seq<string>, node: Tree, depth: int)
    ensures var below := Below(rel, node, |Children(node)|);
            && Select(place, Preorder(rel, node), depth) == Select(place, [Own(rel, node)], depth) + Select(place, below, depth)
            && (HasFault(Preorder(rel, node), depth) <==> IsFault(Own(rel, node), depth) || HasFault(below, depth))
  {
    var own, below := [Own(rel, node)], Below(rel, node, |Children(node)|);
    SelectAppend(place, own, below, depth);
    FaultAppend(own, below, depth);
    assert own[0] == Own(rel, node);
  }

  /** What one more child adds; beyond the depth, nothing. */
  lemma ChildStep(place: string -> string, rel: seq<string>, node: Tree, k: nat, depth: int)
    requires k < |Children(node)|
    ensures var visits := Preorder(rel + [Children(node)[k].name], Children(node)[k]);
            && Select(place, Below(rel, node, k + 1), depth)
               == Select(place, Below(rel, node, k), depth) + Select(place, visits, depth)
            && (HasFault(Below(rel, node, k + 1), depth) <==> HasFault(Below(rel, node, k), depth) || HasFault(visits, depth))
            && (depth < |rel| + 1 ==> Select(place, visits, depth) == [] && !HasFault(visits, depth))
  {
    var path, child := rel + [Children(node)[k].name], Children(node)[k];
    SelectAppend(place, Below(rel, node, k), Preorder(path, child), depth);
    FaultAppend(Below(rel, node, k), Preorder(path, child), depth);
    if depth < |path| {
      NothingNearer(path, child);
      TooDeep(place, Preorder(path, child), depth);
    }
  }

  lemma DeepBelow(place: string -> string, rel: seq<string>, node: Tree, k: nat, depth: int)
    requires k <= |Children(node)| && depth < |rel| + 1
    ensures Select(place, Below(rel, node, k), depth) == [] && !HasFault(Below(rel, node, k), depth)
  {
    NothingNearerBelow(rel, node, k);
    TooDeep(place, Below(rel, node, k), depth);
  }

  // ---------------------------------------------------------------- which nodes the preorder visits

  /** A position in a tree: at each directory, which child to go to. */
  type Trail = seq<nat>

  predicate InTree(node: Tree, trail: Trail)
    decreases |trail|
  {
    trail == [] || (trail[0] < |Children(node)| && InTree(Children(node)[trail[0]], trail[1..]))
  }

  function NodeAt(node: Tree, trail: Trail): Tree
    requires InTree(node, trail)
    decreases |trail|
  {
    if trail == [] then node else NodeAt(Children(node)[trail[0]], trail[1..])
  }

  /** The names on the way. */
  function NamesTo(node: Tree, trail: Trail): (names: seq<string>)
    requires InTree(node, trail)
    ensures |names| == |trail|
    decreases |trail|
  {
    if trail == [] then [] else [Children(node)[trail[0]].name] + NamesTo(Children(node)[trail[0]], trail[1..])
  }

  /** A directory comes before what is in it, and earlier children before later ones. */
  predicate Before(a: Trail, b: Trail)
    decreases |a|
  {
    b != [] && (a == [] || a[0] < b[0] || (a[0] == b[0] && Before(a[1..], b[1..])))
  }

  ghost predicate InOrder(trails: seq<Trail>) {
    forall i, j :: 0 <= i < j < |trails| ==> Before(trails[i], trails[j])
  }

  function Under(k: nat, trails: seq<Trail>): (r: seq<Trail>)
    ensures |r| == |trails| && forall i :: 0 <= i < |r| ==> r[i] == [k] + trails[i]
  {
    seq(|trails|, i requires 0 <= i < |trails| => [k] + trails[i])
  }

  function Trails(node: Tree): seq<Trail>
    decreases node, |Children(node)| + 1
  {
    [[]] + TrailsBelow(node, |Children(node)|)
  }

  function TrailsBelow(node: Tree, k: nat): seq<Trail>
    requires k <= |Children(node)|
    decreases node, k
  {
    if k == 0 then [] else TrailsBelow(node, k - 1) + Under(k - 1, Trails(Children(node)[k - 1]))
  }

  /** The visit of the node at a position. */
  function VisitAt(rel: seq<string>, node: Tree, trail: Trail): Visit
    requires InTree(node, trail)
  {
    Own(rel + NamesTo(node, trail), NodeAt(node, trail))
  }

  ghost predicate Matches(rel: seq<string>, node: Tree, trails: seq<Trail>, vs: seq<Visit>) {
    |trails| == |vs| && forall i :: 0 <= i < |vs| ==> InTree(node, trails[i]) && vs[i] == VisitAt(rel, node, trails[i])
  }

  lemma VisitUnder(rel: seq<string>, node: Tree, k: nat, trail: Trail)
    requires k < |Children(node)| && InTree(Children(node)[k], trail)
    ensures InTree(node, [k] + trail)
    ensures VisitAt(rel, node, [k] + trail) == VisitAt(rel + [Children(node)[k].name], Children(node)[k], trail)
  {
    var child := Children(node)[k];
    assert ([k] + trail)[1..] == trail;
    assert rel + ([child.name] + NamesTo(child, trail)) == (rel + [child.name]) + NamesTo(child, trail);
  }

  lemma {:induction false} PreorderVisits(rel: seq<string>, node: Tree)
    ensures Matches(rel, node, Trails(node), Preorder(rel, node))
    decreases node, |Children(node)| + 1
  {
    BelowVisits(rel, node, |Children(node)|);
    assert rel + NamesTo(node, []) == rel;
  }

  lemma {:induction false} BelowVisits(rel: seq<string>, node: Tree, k: nat)
    requires k <= |Children(node)|
    ensures Matches(rel, node, TrailsBelow(node, k), Below(rel, node, k))
    decreases node, k
  {
    if k == 0 {
    } else {
      var child := Children(node)[k - 1];
      BelowVisits(rel, node, k - 1);
      PreorderVisits(rel + [child.name], child);
      var front, trails, visits := TrailsBelow(node, k - 1), Trails(child), Preorder(rel + [child.name], child);
      forall i | 0 <= i < |visits| ensures InTree(node, [k - 1] + trails[i]) && visits[i] == VisitAt(rel, node, [k - 1] + trails[i]) {
        VisitUnder(rel, node, k - 1, trails[i]);
      }
    }
  }

  lemma {:induction false} TrailsInOrder(node: Tree)
    ensures InOrder(Trails(node))
    decreases node, |Children(node)| + 1
  {
    TrailsBelowInOrder(node, |Children(node)|);
  }

  lemma {:induction false} TrailsBelowInOrder(node: Tree, k: nat)
    requires k <= |Children(node)|
    ensures InOrder(TrailsBelow(node, k))
    ensures forall i :: 0 <= i < |TrailsBelow(node, k)| ==> TrailsBelow(node, k)[i] != [] && TrailsBelow(node, k)[i][0] < k
    decreases node, k
  {
    if k == 0 {
    } else {
      TrailsBelowInOrder(node, k - 1);
      TrailsInOrder(Children(node)[k - 1]);
      UnderInOrder(k - 1, Trails(Children(node)[k - 1]));
    }
  }

  lemma UnderInOrder(k: nat, trails: seq<Trail>)
    requires InOrder(trails)
    ensures InOrder(Under(k, trails))
  {
    var r := Under(k, trails);
    forall i, j | 0 <= i < j < |r| ensures Before(r[i], r[j]) {
      assert r[i][1..] == trails[i] && r[j][1..] == trails[j];
    }
  }

  lemma {:induction false} EveryTrail(node: Tree, trail: Trail)
    requires InTree(node, trail)
    ensures trail in Trails(node)
    decreases |trail|
  {
    if trail == [] {
      assert Trails(node)[0] == [];
    } else {
      EveryTrail(Children(node)[trail[0]], trail[1..]);
      InTrailsBelow(node, trail, |Children(node)|);
    }
  }

  lemma {:induction false} InTrailsBelow(node: Tree, trail: Trail, k: nat)
    requires trail != [] && trail[0] < k <= |Children(node)| && trail[1..] in Trails(Children(node)[trail[0]])
    ensures trail in TrailsBelow(node, k)
    decreases k
  {
    if k == trail[0] + 1 {
      var trails := Trails(Children(node)[trail[0]]);
      var i :| 0 <= i < |trails| && trails[i] == trail[1..];
      assert Under(k - 1, trails)[i] == [k - 1] + trails[i] == trail;
      assert trail in Under(k - 1, trails);
    } else {
      InTrailsBelow(node, trail, k - 1);
    }
  }

  // ---------------------------------------------------------------- which entries are listed

  /** The node is listed: not the root, not too deep, and still there. */
  predicate Listed(root: Tree, trail: Trail, depth: int) {
    InTree(root, trail) && 1 <= |trail| <= depth && NodeAt(root, trail).stat.Info?
  }

  function EntryAt(place: string -> string, root: Tree, trail: Trail): Entry
    requires InTree(root, trail) && trail != [] && NodeAt(root, trail).stat.Info?
  {
    Entry(place(Join(NamesTo(root, trail), '/')), NodeAt(root, trail).stat.size)
  }

  /** The entries are those of the listed nodes, each once and a directory before what is in it. */
  ghost predicate IsListing(place: string -> string, root: Tree, depth: int, trails: seq<Trail>, entries: seq<Entry>) {
    && |trails| == |entries| && InOrder(trails)
    && (forall trail :: trail in trails <==> Listed(root, trail, depth))
    && forall i :: 0 <= i < |trails| ==> Listed(root, trails[i], depth) && entries[i] == EntryAt(place, root, trails[i])
  }

  function Kept(root: Tree, trails: seq<Trail>, depth: int): seq<Trail> {
    if trails == [] then []
    else
      var trail := trails[|trails| - 1];
      Kept(root, trails[..|trails| - 1], depth) + if Listed(root, trail, depth) then [trail] else []
  }

  lemma {:induction false} KeptMembers(root: Tree, trails: seq<Trail>, depth: int)
    ensures forall trail :: trail in Kept(root, trails, depth) <==> trail in trails && Listed(root, trail, depth)
  {
    if trails == [] {
    } else {
      var n := |trails| - 1;
      KeptMembers(root, trails[..n], depth);
      assert trails == trails[..n] + [trails[n]];
    }
  }

  lemma {:induction false} KeptInOrder(root: Tree, trails: seq<Trail>, depth: int)
    requires InOrder(trails)
    ensures InOrder(Kept(root, trails, depth))
  {
    if trails == [] {
    } else {
      var n := |trails| - 1;
      KeptInOrder(root, trails[..n], depth);
      KeptMembers(root, trails[..n], depth);
      var front := Kept(root, trails[..n], depth);
      forall i | 0 <= i < |front| ensures Before(front[i], trails[n]) {
        assert front[i] in front;
        var j :| 0 <= j < n && trails[j] == front[i];
      }
    }
  }

  lemma {:induction false} SelectKept(place: string -> string, root: Tree, trails: seq<Trail>, vs: seq<Visit>, depth: int)
    requires Matches([], root, trails, vs)
    ensures var kept := Kept(root, trails, depth);
            && |kept| == |Select(place, vs, depth)|
            && forall i :: 0 <= i < |kept| ==> Listed(root, kept[i], depth) && Select(place, vs, depth)[i] == EntryAt(place, root, kept[i])
  {
    if vs == [] {
    } else {
      var n := |vs| - 1;
      SelectKept(place, root, trails[..n], vs[..n], depth);
      assert [] + NamesTo(root, trails[n]) == NamesTo(root, trails[n]);
    }
  }

  /** The filtered preorder lists exactly the nodes at depth 1 to `depth` that are still there, each once, with its
      path and size. */
  lemma SelectIsListing(place: string -> string, root: Tree, depth: int) returns (trails: seq<Trail>)
    ensures IsListing(place, root, depth, trails, Select(place, Preorder([], root), depth))
  {
    var all := Trails(root);
    trails := Kept(root, all, depth);
    PreorderVisits([], root);
    TrailsInOrder(root);
    KeptInOrder(root, all, depth);
    KeptMembers(root, all, depth);
    SelectKept(place, root, all, Preorder([], root), depth);
    forall trail | Listed(root, trail, depth) ensures trail in all {
      EveryTrail(root, trail);
    }
  }

  /** A node within the depth that cannot be read, or below the root cannot be stated. */
  predicate Faulty(root: Tree, trail: Trail, depth: int) {
    && InTree(root, trail) && (trail == [] || |trail| <= depth)
    && var node := NodeAt(root, trail);
       (node.kind.Directory? && !node.kind.readable) || (trail != [] && node.stat.Failed?)
  }

  /** The preorder has a fault exactly when some node is faulty. */
  lemma FaultIffFaulty(root: Tree, depth: int)
    ensures HasFault(Preorder([], root), depth) <==> exists trail :: Faulty(root, trail, depth)
  {
    var vs, trails := Preorder([], root), Trails(root);
    PreorderVisits([], root);
    if HasFault(vs, depth) {
      var i :| 0 <= i < |vs| && IsFault(vs[i], depth);
      assert [] + NamesTo(root, trails[i]) == NamesTo(root, trails[i]);
      assert Faulty(root, trails[i], depth);
    }
    if trail :| Faulty(root, trail, depth) {
      EveryTrail(root, trail);
      var i :| 0 <= i < |trails| && trails[i] == trail;
      assert [] + NamesTo(root, trail) == NamesTo(root, trail);
      assert IsFault(vs[i], depth);
    }
  }

  // ---------------------------------------------------------------- the walk

  datatype Signal = Nil | SkipDir | Abort

  ghost predicate ValidNames(rel: seq<string>) {
    forall i :: 0 <= i < |rel| ==> '/' !in rel[i]
  }

  ghost predicate ValidTree(node: Tree)
    decreases node
  {
    forall i :: 0 <= i < |Children(node)| ==> '/' !in Children(node)[i].name && ValidTree(Children(node)[i])
  }

  class Walker {
    const place: string -> string
    const depth: int
    var entries: seq<Entry>

    constructor (place: string -> string, depth: int)
      ensures this.place == place && this.depth == depth && entries == []
    {
      this.place, this.depth, this.entries := place, depth, [];
    }

    /** The callback; `readFailed` is the library's second call for a directory it cannot read. */
    method Callback(rel: seq<string>, node: Tree, readFailed: bool) returns (signal: Signal)
      requires ValidNames(rel)
      modifies this
      ensures signal == if readFailed then Abort else if rel == [] then Nil else if |rel| > depth then SkipDir
                        else if node.stat.Failed? then Abort else Nil
      ensures signal == Abort ==> entries == old(entries)
      ensures !readFailed && signal != Abort ==> entries == old(entries) + Select(place, [Own(rel, node)], depth)
    {
      if readFailed {
        return Abort;
      }
      assert [Own(rel, node)][..0] == [];
      if rel == [] {
        return Nil;
      }
      var relPath := Join(rel, '/');
      SplitOfJoin(rel, '/');
      var currentDepth := |Split(relPath, '/')|;
      if currentDepth > depth {
        return SkipDir;
      }
      if node.stat.NotFound? {
        return Nil;
      }
      if node.stat.Failed? {
        return Abort;
      }
      entries := entries + [Entry(place(relPath), node.stat.size)];
      return Nil;
    }

    /** The library's `walkDir`: beyond the depth nothing is listed; within it the walk aborts exactly on a
        fault and otherwise lists the filtered preorder. */
    method WalkNode(rel: seq<string>, node: Tree) returns (signal: Signal)
      requires ValidNames(rel) && ValidTree(node)
      modifies this
      ensures !Within(rel, depth) ==> entries == old(entries) && signal == if node.kind.File? then SkipDir else Nil
      ensures Within(rel, depth) ==> signal == if HasFault(Preorder(rel, node), depth) then Abort else Nil
      ensures Within(rel, depth) && signal.Nil? ==> entries == old(entries) + Select(place, Preorder(rel, node), depth)
      decreases node, 2
    {
      NodeParts(place, rel, node, depth);
      signal := Callback(rel, node, false);
      if !signal.Nil? || node.kind.File? {
        if signal.SkipDir? && node.kind.Directory? {
          signal := Nil;
        }
        return;
      }
      if !node.kind.readable {
        signal := Callback(rel, node, true);
        return;
      }
      signal := WalkChildren(rel, node);
    }

    /** One round of the library's loop over a directory's children. */
    method WalkChild(rel: seq<string>, node: Tree, i: nat, ghost start: seq<Entry>) returns (signal: Signal)
      requires ValidNames(rel) && ValidTree(node) && i < |Children(node)|
      requires entries == start + Select(place, Below(rel, node, i), depth) && !HasFault(Below(rel, node, i), depth)
      modifies this
      ensures signal.Nil? ==> entries == start + Select(place, Below(rel, node, i + 1), depth)
      ensures signal.Nil? ==> !HasFault(Below(rel, node, i + 1), depth)
      ensures signal.SkipDir? ==> depth < |rel| + 1 && entries == old(entries)
      ensures signal.Abort? ==> HasFault(Below(rel, node, i + 1), depth)
      decreases node, 0
    {
      var path, child := rel + [Children(node)[i].name], Children(node)[i];
      ChildStep(place, rel, node, i, depth);
      Regroup(start, Select(place, Below(rel, node, i), depth), Select(place, Preorder(path, child), depth));
      signal := WalkNode(path, child);
    }

    method WalkChildren(rel: seq<string>, node: Tree) returns (signal: Signal)
      requires ValidNames(rel) && ValidTree(node)
      modifies this
      ensures signal == if HasFault(Below(rel, node, |Children(node)|), depth) then Abort else Nil
      ensures signal == Nil ==> entries == old(entries) + Select(place, Below(rel, node, |Children(node)|), depth)
      decreases node, 1
    {
      ghost var start := entries;
      for i := 0 to |Children(node)|
        invariant !HasFault(Below(rel, node, i), depth)
        invariant entries == start + Select(place, Below(rel, node, i), depth)
      {
        var childSignal := WalkChild(rel, node, i, start);
        if childSignal.SkipDir? {
          DeepBelow(place, rel, node, i, depth);
          DeepBelow(place, rel, node, |Children(node)|, depth);
          return Nil;
        }
        if childSignal.Abort? {
          FaultsStay(rel, node, i + 1, |Children(node)|, depth);
          return Abort;
        }
      }
      return Nil;
    }
  }

  lemma {:induction false} FaultsStay(rel: seq<string>, node: Tree, k: nat, n: nat, depth: int)
    requires k <= n <= |Children(node)| && HasFault(Below(rel, node, k), depth)
    ensures HasFault(Below(rel, node, n), depth)
    decreases n
  {
    if k == n {
    } else {
      FaultsStay(rel, node, k, n - 1, depth);
      FaultAppend(Below(rel, node, n - 1), Preorder(rel + [Children(node)[n - 1].name], Children(node)[n - 1]), depth);
    }
  }

  /** `walkDir`, for every tree and depth: the pruned walk returns the full preorder filtered to depths 1 to
      `depth`, which lists each node there once, and fails exactly when some node within that depth cannot be
      read or stated. */
  method WalkDir(place: string -> string, root: Tree, depth: int) returns (r: Fallible<seq<Entry>>)
    requires ValidTree(root)
    ensures r.Err? <==> exists trail :: Faulty(root, trail, depth)
    ensures r.Ok? ==> r.value == Select(place, Preorder([], root), depth)
    ensures r.Ok? ==> exists trails :: IsListing(place, root, depth, trails, r.value)
  {
    FaultIffFaulty(root, depth);
    ghost var trails := SelectIsListing(place, root, depth);
    var walker := new Walker(place, depth);
    var signal := walker.WalkNode([], root);
    assert [] + Select(place, Preorder([], root), depth) == Select(place, Preorder([], root), depth);
    r := if signal.Abort? then Err(()) else Ok(walker.entries);
  }
}
