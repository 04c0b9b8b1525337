/** The overlay file system: directories whose lookups and listings are filtered by the manifest, and a
    root that adds virtual files. */
module Overlay {
  import opened Manifest
  import opened Wrappers

  datatype VirtualFile = VirtualFile(content: Option<seq<bv8>>, size: nat, mode: nat)

  datatype DirEntry = DirEntry(name: string, regular: bool)

  /** What the real file system answers for a name. */
  datatype RealNode = Missing | File | Directory

  datatype Found = VirtualNode(file: VirtualFile) | NoEntry | RealFile | RealDirectory(path: string)

  // ---------------------------------------------------------------- what a directory shows

  function ChildPath(dir: string, name: string): string { dir + "/" + name }

  predicate PassesPolicy(fallback: Matcher, m: Option<Policy>, dir: string, name: string) {
    Traversable(fallback, m, ChildPath(dir, name))
  }

  /** The entries the policy keeps, in their order. */
  function Kept(fallback: Matcher, m: Option<Policy>, dir: string, entries: seq<DirEntry>): seq<DirEntry> {
    if entries == [] then []
    else
      var last := entries[|entries| - 1];
      Kept(fallback, m, dir, entries[..|entries| - 1]) + if PassesPolicy(fallback, m, dir, last.name) then [last] else []
  }

  /** A real child is kept exactly when the policy lets a lookup of it through. */
  lemma {:induction false} KeptIff(fallback: Matcher, m: Option<Policy>, dir: string, entries: seq<DirEntry>, e: DirEntry)
    ensures e in Kept(fallback, m, dir, entries) <==> e in entries && PassesPolicy(fallback, m, dir, e.name)
  {
    if entries == [] {
    } else {
      var n := |entries| - 1;
      KeptIff(fallback, m, dir, entries[..n], e);
      assert entries == entries[..n] + [entries[n]];
    }
  }

  /** Filtering keeps order and repetition: each entry is judged by itself, in its place. */
  lemma {:induction false} KeptInOrder(fallback: Matcher, m: Option<Policy>, dir: string, a: seq<DirEntry>, e: DirEntry, b: seq<DirEntry>)
    ensures Kept(fallback, m, dir, a + [e] + b)
         == Kept(fallback, m, dir, a) + (if PassesPolicy(fallback, m, dir, e.name) then [e] else []) + Kept(fallback, m, dir, b)
    decreases |b|
  {
    var all := a + [e] + b;
    if b == [] {
      assert all == a + [e] && all[..|a|] == a;
    } else {
      var n := |b| - 1;
      assert all[..|all| - 1] == a + [e] + b[..n];
      KeptInOrder(fallback, m, dir, a, e, b[..n]);
    }
  }

  predicate HasName(entries: seq<DirEntry>, name: string) {
    exists i :: 0 <= i < |entries| && entries[i].name == name
  }

  function LookupReal(fallback: Matcher, m: Option<Policy>, dir: string, name: string, disk: RealNode): Found {
    if !PassesPolicy(fallback, m, dir, name) || disk.Missing? then NoEntry
    else if disk.Directory? then RealDirectory(ChildPath(dir, name)) else RealFile
  }

  // ---------------------------------------------------------------- directories below the root

  class OverlayDir {
    const path: string
    const store: Store?

    constructor (path: string, store: Store?)
      ensures this.path == path && this.store == store
    {
      this.path, this.store := path, store;
    }

    ghost predicate Valid()
      reads this, if store == null then {} else {store}
    {
      store != null ==> store.Valid()
    }

    /** The manifest in force, if any. */
    ghost function Active(): Option<Policy>
      reads this, if store == null then {} else {store}
    {
      if store == null then None else store.current
    }

    method Lookup(fallback: Matcher, name: string, disk: RealNode) returns (found: Found)
      requires Valid()
      ensures found == LookupReal(fallback, Active(), path, name, disk)
    {
      var childPath := path + "/" + name;
      if store != null && store.current.Some? {
        var allowed := store.IsPathOrPrefixAllowed(fallback, childPath);
        if !allowed {
          return NoEntry;
        }
      }
      found := if disk.Missing? then NoEntry else if disk.Directory? then RealDirectory(childPath) else RealFile;
    }

    method Readdir(fallback: Matcher, disk: seq<DirEntry>) returns (entries: seq<DirEntry>)
      requires Valid()
      ensures entries == Kept(fallback, Active(), path, disk)
    {
      entries := FilterEntries(fallback, store, path, disk);
    }
  }

  /** The filtering loop of both `Readdir`s. */
  method FilterEntries(fallback: Matcher, store: Store?, dir: string, disk: seq<DirEntry>) returns (entries: seq<DirEntry>)
    requires store != null ==> store.Valid()
    ensures entries == Kept(fallback, if store == null then None else store.current, dir, disk)
  {
    if store == null || store.current.None? {
      NothingFiltered(fallback, dir, disk);
      return disk;
    }
    entries := [];
    for i := 0 to |disk|
      invariant entries == Kept(fallback, store.current, dir, disk[..i])
    {
      assert disk[..i + 1] == disk[..i] + [disk[i]];
      var allowed := store.IsPathOrPrefixAllowed(fallback, dir + "/" + disk[i].name);
      if allowed {
        entries := entries + [disk[i]];
      }
    }
    assert disk[..|disk|] == disk;
  }

  lemma {:induction false} NothingFiltered(fallback: Matcher, dir: string, entries: seq<DirEntry>)
    ensures Kept(fallback, None, dir, entries) == entries
  {
    if entries == [] {
    } else {
      NothingFiltered(fallback, dir, entries[..|entries| - 1]);
    }
  }

  // ---------------------------------------------------------------- the root

  /** A listing of the root: what the policy keeps, then each virtual name not among it, once. */
  ghost predicate IsRootListing(entries: seq<DirEntry>, kept: seq<DirEntry>, virtuals: map<string, VirtualFile>) {
    && kept <= entries
    && (forall i :: |kept| <= i < |entries| ==>
          entries[i].regular && entries[i].name in virtuals && !HasName(kept, entries[i].name))
    && (forall i, j :: |kept| <= i < j < |entries| ==> entries[i].name != entries[j].name)
    && (forall name :: name in virtuals ==> HasName(entries, name))
  }

  class Root {
    var virtuals: map<string, VirtualFile>
    var store: Store?

    constructor ()
      ensures virtuals == map[] && store == null
    {
      virtuals, store := map[], null;
    }

    ghost predicate Valid()
      reads this, if store == null then {} else {store}
    {
      store != null ==> store.Valid()
    }

    ghost function Active(): Option<Policy>
      reads this, if store == null then {} else {store}
    {
      if store == null then None else store.current
    }

    /** What looking a name up finds, given what the disk has under it. */
    ghost function Finds(fallback: Matcher, name: string, disk: RealNode): Found
      reads this, if store == null then {} else {store}
    {
      if name in virtuals then VirtualNode(virtuals[name]) else LookupReal(fallback, Active(), "", name, disk)
    }

    /** The name is found with this content at once, whatever the disk and the policy say, and no other lookup
        changes. */
    method Put(name: string, content: seq<bv8>, mode: nat)
      modifies this`virtuals
      ensures forall fallback, n, disk :: Finds(fallback, n, disk) ==
                if n == name then VirtualNode(VirtualFile(Some(content), |content|, mode)) else old(Finds(fallback, n, disk))
    {
      virtuals := virtuals[name := VirtualFile(Some(content), |content|, mode)];
    }

    /** The name is found with the declared size and no content yet, and no other lookup changes. */
    method PutLazy(name: string, size: nat, mode: nat)
      modifies this`virtuals
      ensures forall fallback, n, disk :: Finds(fallback, n, disk) ==
                if n == name then VirtualNode(VirtualFile(None, size, mode)) else old(Finds(fallback, n, disk))
    {
      virtuals := virtuals[name := VirtualFile(None, size, mode)];
    }

    /** A virtual file is found afterwards as `Put` with its mode would have left it; a lookup that did not find a
        virtual file under the name, and every other lookup, is as before. */
    method Fill(name: string, content: seq<bv8>)
      modifies this`virtuals
      ensures forall fallback, n, disk :: Finds(fallback, n, disk) ==
                var before := old(Finds(fallback, n, disk));
                if n == name && before.VirtualNode?
                then VirtualNode(VirtualFile(Some(content), |content|, before.file.mode)) else before
    {
      if name in virtuals {
        virtuals := virtuals[name := VirtualFile(Some(content), |content|, virtuals[name].mode)];
      }
    }

    /** The name is found again as the disk and the policy have it, and no other lookup changes. */
    method Remove(name: string)
      modifies this`virtuals
      ensures forall fallback, n, disk :: Finds(fallback, n, disk) ==
                if n == name then LookupReal(fallback, Active(), "", n, disk) else old(Finds(fallback, n, disk))
    {
      virtuals := virtuals - {name};
    }

    method Lookup(fallback: Matcher, name: string, disk: RealNode) returns (found: Found)
      requires Valid()
      ensures found == Finds(fallback, name, disk)
    {
      if name in virtuals {
        return VirtualNode(virtuals[name]);
      }
      var childPath := "/" + name;
      assert childPath == ChildPath("", name);
      if store != null && store.current.Some? {
        var allowed := store.IsPathOrPrefixAllowed(fallback, childPath);
        if !allowed {
          return NoEntry;
        }
      }
      found := if disk.Missing? then NoEntry else if disk.Directory? then RealDirectory(childPath) else RealFile;
    }

    method Readdir(fallback: Matcher, disk: seq<DirEntry>) returns (entries: seq<DirEntry>)
      requires Valid()
      ensures IsRootListing(entries, Kept(fallback, Active(), "", disk), virtuals)
    {
      var kept := FilterEntries(fallback, store, "", disk);
      entries := AddVirtuals(kept, virtuals);
    }

    /** A file announced lazily and filled later ends up as if it had been put whole. */
    method LazyThenFilled(name: string, size: nat, content: seq<bv8>, mode: nat)
      modifies this`virtuals
      ensures forall fallback, n, disk :: Finds(fallback, n, disk) ==
                if n == name then VirtualNode(VirtualFile(Some(content), |content|, mode)) else old(Finds(fallback, n, disk))
    {
      PutLazy(name, size, mode);
      Fill(name, content);
    }
  }

  /** The loop over the virtual files, in whatever order the map is ranged over. */
  method AddVirtuals(kept: seq<DirEntry>, virtuals: map<string, VirtualFile>) returns (entries: seq<DirEntry>)
    ensures IsRootListing(entries, kept, virtuals)
  {
    entries := kept;
    var todo := virtuals.Keys;
    while todo != {}
      invariant todo <= virtuals.Keys && kept <= entries
      invariant forall i :: |kept| <= i < |entries| ==>
          entries[i].regular && entries[i].name in virtuals && entries[i].name !in todo && !HasName(kept, entries[i].name)
      invariant forall i, j :: |kept| <= i < j < |entries| ==> entries[i].name != entries[j].name
      invariant forall name :: name in virtuals && name !in todo ==> HasName(entries, name)
      decreases todo
    {
      var name :| name in todo;
      ghost var before := entries;
      if !HasName(kept, name) {
        entries := entries + [DirEntry(name, true)];
        assert entries[|before|].name == name;
      } else {
        NamesStay(kept, entries, name);
      }
      forall n | n in virtuals && n !in todo - {name} ensures HasName(entries, n) {
        if n != name { NamesStay(before, entries, n); }
      }
      todo := todo - {name};
    }
  }

  lemma NamesStay(a: seq<DirEntry>, b: seq<DirEntry>, name: string)
    requires a <= b && HasName(a, name)
    ensures HasName(b, name)
  {
    var i :| 0 <= i < |a| && a[i].name == name;
    assert b[i].name == name;
  }

  /** In the root, a name is listed exactly when looking it up finds something, if the real listing names
      the real nodes. */
  lemma ListedIffFound(fallback: Matcher, m: Option<Policy>, virtuals: map<string, VirtualFile>, disk: seq<DirEntry>,
                       entries: seq<DirEntry>, name: string, node: RealNode)
    requires IsRootListing(entries, Kept(fallback, m, "", disk), virtuals)
    requires HasName(disk, name) <==> !node.Missing?
    ensures HasName(entries, name) <==> name in virtuals || LookupReal(fallback, m, "", name, node) != NoEntry
  {
    var kept := Kept(fallback, m, "", disk);
    NamesKept(fallback, m, "", disk, name);
    if HasName(kept, name) { NamesStay(kept, entries, name); }
    if HasName(entries, name) {
      var i :| 0 <= i < |entries| && entries[i].name == name;
      if i < |kept| { assert kept[i].name == name; }
    }
  }

  /** Below the root, a name is listed exactly when looking it up finds something. */
  lemma NamesKept(fallback: Matcher, m: Option<Policy>, dir: string, disk: seq<DirEntry>, name: string)
    ensures HasName(Kept(fallback, m, dir, disk), name) <==> HasName(disk, name) && PassesPolicy(fallback, m, dir, name)
  {
    var kept := Kept(fallback, m, dir, disk);
    if HasName(kept, name) {
      var i :| 0 <= i < |kept| && kept[i].name == name;
      KeptIff(fallback, m, dir, disk, kept[i]);
      var j :| 0 <= j < |disk| && disk[j] == kept[i];
    }
    if HasName(disk, name) && PassesPolicy(fallback, m, dir, name) {
      var j :| 0 <= j < |disk| && disk[j].name == name;
      KeptIff(fallback, m, dir, disk, disk[j]);
      var i :| 0 <= i < |kept| && kept[i] == disk[j];
    }
  }

  // ---------------------------------------------------------------- a whole walk

  /** Looking up the names of a path one after another, each in the directory found before. */
  function Walk(fallback: Matcher, m: Option<Policy>, names: seq<string>, n: nat, disk: string -> RealNode): Found
    requires n <= |names|
  {
    if n == 0 then RealDirectory("")
    else
      var parent := Walk(fallback, m, names, n - 1, disk);
      if parent.RealDirectory? then
        LookupReal(fallback, m, parent.path, names[n - 1], disk(ChildPath(parent.path, names[n - 1])))
      else NoEntry
  }

  /** The path of the first `n` names exists, as a directory unless it is the last. */
  predicate OnDisk(names: seq<string>, n: nat, disk: string -> RealNode)
    requires n <= |names|
  {
    if n < |names| then disk(PathOf(names, n)).Directory? else !disk(PathOf(names, n)).Missing?
  }

  /** The policy and the disk let a walk reach its first `n` names. */
  predicate Clear(fallback: Matcher, m: Option<Policy>, names: seq<string>, n: nat, disk: string -> RealNode)
    requires n <= |names|
  {
    Traversable(fallback, m, PathOf(names, n)) && OnDisk(names, n, disk)
  }

  lemma WalkStep(fallback: Matcher, m: Option<Policy>, names: seq<string>, n: nat, disk: string -> RealNode)
    requires 0 < n <= |names| && Walk(fallback, m, names, n - 1, disk) == RealDirectory(PathOf(names, n - 1))
    requires Clear(fallback, m, names, n, disk)
    ensures Walk(fallback, m, names, n, disk)
         == if disk(PathOf(names, n)).File? then RealFile else RealDirectory(PathOf(names, n))
  {
    assert ChildPath(PathOf(names, n - 1), names[n - 1]) == PathOf(names, n);
  }

  lemma {:induction false} WalkPassesDirectories(fallback: Matcher, m: Option<Policy>, names: seq<string>, n: nat, disk: string -> RealNode)
    requires n < |names|
    requires forall k: nat :: 0 < k < |names| ==> Clear(fallback, m, names, k, disk)
    ensures Walk(fallback, m, names, n, disk) == RealDirectory(PathOf(names, n))
  {
    if n == 0 {
    } else {
      WalkPassesDirectories(fallback, m, names, n - 1, disk);
      WalkStep(fallback, m, names, n, disk);
    }
  }

  /** An allowed path that exists, with real directories above it, is found by the walk from the root. */
  lemma WalkFindsAllowedPath(fallback: Matcher, m: Policy, names: seq<string>, disk: string -> RealNode)
    requires AllPlain(fallback, m) && Allowed(fallback, m, PathOf(names, |names|)) && names != []
    requires forall k: nat :: 0 < k <= |names| ==> OnDisk(names, k, disk)
    ensures Walk(fallback, Some(m), names, |names|, disk)
         == if disk(PathOf(names, |names|)).File? then RealFile else RealDirectory(PathOf(names, |names|))
  {
    forall k: nat | 0 < k <= |names| ensures Clear(fallback, Some(m), names, k, disk) {
      WalkIsNeverCutOff(fallback, m, names, k);
      assert OnDisk(names, k, disk);
    }
    WalkPassesDirectories(fallback, Some(m), names, |names| - 1, disk);
    WalkStep(fallback, Some(m), names, |names|, disk);
  }
}
