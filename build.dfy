/**
 * The tree builder `BuildTreeSafe` (`buildTreeSafe` in the command's copy).
 *
 * `BuildSpec` is the reference definition of one call: it threads the abort
 * flag through the walk and records the filesystem calls it makes. Children
 * are visited one after another in entry order, which is one valid schedule
 * of the goroutines: they write disjoint slots of `childNodes` before the
 * join, so only the choice of siblings that still run after a trip depends
 * on scheduling.
 *
 * The reference functions carry no contracts of their own; what they
 * guarantee is stated and proved by the lemmas below them.
 */
module Build {
  import opened Options
  import opened Fs
  import opened Tree
  import opened Abort

  /** The outcome of building one path: the node (None for Go's nil), the
      abort flag afterwards, and the filesystem calls made, in order. */
  datatype Built = Built(node: Option<Node>, tripped: bool, calls: seq<FsCall>)

  /** The outcome of the first k child builds of a directory: the `childNodes`
      slots, the abort flag afterwards, and the calls made. */
  datatype Slots = Slots(nodes: seq<Option<Node>>, tripped: bool, calls: seq<FsCall>)

  /** One call on `path` with the flag in state `tripped`. `name` is what a
      successful stat of `path` reports (`BaseName(path)`); it is a parameter
      so that a child is built under its listed entry name, which
      `BaseNameOfJoin` shows to be the same thing. */
  function BuildSpec(disk: Disk, tripped: bool, path: Path, name: string): Built
    decreases Reach(disk, path), 1
  {
    if tripped then Built(None, true, [])
    else if path !in disk then Built(None, true, [StatCall(path)])
    else match disk[path]
      case File => Built(Some(Node(name, [], false, path)), false, [StatCall(path)])
      case UnreadableDir => Built(None, true, [StatCall(path), ReadDirCall(path)])
      case Dir(names) =>
        var s := BuildSlots(disk, false, path, names, |names|);
        Built(Some(Node(name, Compact(s.nodes), true, path)), s.tripped,
              [StatCall(path), ReadDirCall(path)] + s.calls)
  }

  /** The goroutines for entries 0 .. k-1 of directory `dir`, run in index
      order; each one builds `Join(dir, names[i])` into slot i unless the flag
      is already tripped, in which case the slot stays nil. */
  function BuildSlots(disk: Disk, tripped: bool, dir: Path, names: seq<EntryName>, k: nat): Slots
    requires dir in disk && k <= |names|
    decreases Reach(disk, dir), 0, k
  {
    if k == 0 then Slots([], tripped, [])
    else
      var s := BuildSlots(disk, tripped, dir, names, k - 1);
      ChildShrinks(disk, dir, names[k - 1]);
      var c := BuildSpec(disk, s.tripped, Join(dir, names[k - 1]), names[k - 1]);
      Slots(s.nodes + [c.node], c.tripped, s.calls + c.calls)
  }

  /** The non-nil slots, in slot order. */
  function Compact(slots: seq<Option<Node>>): seq<Node> {
    if slots == [] then []
    else
      var rest := Compact(slots[..|slots| - 1]);
      match slots[|slots| - 1]
      case None => rest
      case Some(c) => rest + [c]
  }

  method BuildTreeSafe(sig: Signal, fs: FileSystem, path: Path) returns (node: Option<Node>)
    requires sig.Valid()
    modifies sig, fs
    ensures sig.Valid()
    ensures var b := BuildSpec(fs.disk, old(sig.closed), path, BaseName(path));
            node == b.node && sig.closed == b.tripped && fs.calls == old(fs.calls) + b.calls
    decreases Reach(fs.disk, path), 2
  {
    var aborted := sig.Poll();
    if aborted {
      return None;
    }
    var info := fs.Stat(path);
    if info.None? {
      sig.CloseOnce();
      return None;
    }
    var n := Node(info.value.name, [], info.value.isDir, path);
    if !info.value.isDir {
      return Some(n);
    }
    var entries := fs.ReadDir(path);
    if entries.None? {
      sig.CloseOnce();
      return None;
    }
    var names := entries.value;
    var childNodes := SpawnChildren(sig, fs, path, names);
    var children := CompactSlots(childNodes);
    DirStep(fs.disk, path, n.name);
    return Some(n.(children := children));
  }

  /** The goroutines of one directory and the wait for them: goroutine i
      fills slot i of `childNodes`. */
  method SpawnChildren(sig: Signal, fs: FileSystem, path: Path, names: seq<EntryName>)
    returns (childNodes: array<Option<Node>>)
    requires sig.Valid() && !sig.closed && path in fs.disk
    modifies sig, fs
    ensures fresh(childNodes) && sig.Valid()
    ensures var s := BuildSlots(fs.disk, false, path, names, |names|);
            childNodes[..] == s.nodes && sig.closed == s.tripped && fs.calls == old(fs.calls) + s.calls
    decreases Reach(fs.disk, path), 1
  {
    childNodes := new Option<Node>[|names|](_ => None);
    for i := 0 to |names|
      invariant sig.Valid()
      invariant var s := BuildSlots(fs.disk, false, path, names, i);
                childNodes[..i] == s.nodes && sig.closed == s.tripped && fs.calls == old(fs.calls) + s.calls
    {
      ghost var slots := childNodes[..];
      ghost var before := fs.calls;
      var slot := RunChild(sig, fs, path, names[i]);
      childNodes[i] := slot;
      SlotFilled(fs.disk, path, names, i, slots, slot, old(fs.calls), before, fs.calls, sig.closed);
    }
    assert childNodes[..] == childNodes[..|names|];
  }

  /** The bookkeeping of one iteration of the spawning loop, on values:
      filling slot i with the outcome of goroutine i extends the slots, the
      flag and the call log by one step. */
  lemma SlotFilled(disk: Disk, path: Path, names: seq<EntryName>, i: nat, slots: seq<Option<Node>>,
                   slot: Option<Node>, log0: seq<FsCall>, log1: seq<FsCall>, log2: seq<FsCall>, tripped: bool)
    requires path in disk && i < |names| && i < |slots|
    requires var s := BuildSlots(disk, false, path, names, i);
             slots[..i] == s.nodes && log1 == log0 + s.calls &&
             var c := BuildSpec(disk, s.tripped, Join(path, names[i]), names[i]);
             slot == c.node && log2 == log1 + c.calls && tripped == c.tripped
    ensures var s := BuildSlots(disk, false, path, names, i + 1);
            slots[i := slot][..i + 1] == s.nodes && tripped == s.tripped && log2 == log0 + s.calls
  {
    SlotsStep(disk, false, path, names, i + 1);
    assert slots[i := slot][..i + 1] == slots[..i] + [slot];
  }

  /** The body of one goroutine: nothing once the flag is tripped, otherwise
      the build of the joined path of its entry. */
  method RunChild(sig: Signal, fs: FileSystem, path: Path, name: EntryName) returns (slot: Option<Node>)
    requires sig.Valid() && path in fs.disk
    modifies sig, fs
    ensures sig.Valid()
    ensures var c := BuildSpec(fs.disk, old(sig.closed), Join(path, name), name);
            slot == c.node && sig.closed == c.tripped && fs.calls == old(fs.calls) + c.calls
    decreases Reach(fs.disk, path), 0
  {
    var aborted := sig.Poll();
    if aborted {
      BuildShape(fs.disk, true, Join(path, name), name);
      return None;
    }
    var childPath := Join(path, name);
    ChildShrinks(fs.disk, path, name);
    BaseNameOfJoin(path, name);
    slot := BuildTreeSafe(sig, fs, childPath);
  }

  /** A build of a missing path, a reset, and a second build: the failure
      trips the flag, the reset opens it again, and the second build runs as
      if nothing had failed before it. */
  method RebuildAfterReset(sig: Signal, fs: FileSystem, missing: Path, path: Path)
    returns (first: Option<Node>, second: Option<Node>)
    requires sig.Valid() && missing !in fs.disk
    modifies sig, fs
    ensures first == None
    ensures second == BuildSpec(fs.disk, false, path, BaseName(path)).node
    ensures Healthy(fs.disk, path) ==> second.Some? && Mirrors(fs.disk, second.value)
  {
    first := BuildTreeSafe(sig, fs, missing);
    sig.ResetGlobalState();
    second := BuildTreeSafe(sig, fs, path);
    if Healthy(fs.disk, path) {
      HealthyBuildMirrors(fs.disk, path, BaseName(path));
    }
  }

  /** The compaction loop after the wait: the non-nil slots, in slot order. */
  method CompactSlots(childNodes: array<Option<Node>>) returns (children: seq<Node>)
    ensures children == Compact(childNodes[..])
  {
    children := [];
    for i := 0 to childNodes.Length
      invariant children == Compact(childNodes[..i])
    {
      assert childNodes[..i + 1][..i] == childNodes[..i];
      if childNodes[i].Some? {
        children := children + [childNodes[i].value];
      }
    }
    assert childNodes[..childNodes.Length] == childNodes[..];
  }

  // ---------------------------------------------------------------------
  // What a build produces

  /** `a` can be obtained from `b` by deleting elements. */
  predicate IsSubseq(a: seq<string>, b: seq<string>)
    decreases |b|
  {
    if a == [] then true
    else if b == [] then false
    else (a[|a| - 1] == b[|b| - 1] && IsSubseq(a[..|a| - 1], b[..|b| - 1]))
         || IsSubseq(a, b[..|b| - 1])
  }

  lemma {:induction false} SubseqNotLonger(a: seq<string>, b: seq<string>)
    requires IsSubseq(a, b)
    ensures |a| <= |b|
    decreases |b|
  {
    if a != [] {
      if a[|a| - 1] == b[|b| - 1] && IsSubseq(a[..|a| - 1], b[..|b| - 1]) {
        SubseqNotLonger(a[..|a| - 1], b[..|b| - 1]);
      } else {
        SubseqNotLonger(a, b[..|b| - 1]);
      }
    }
  }

  lemma SubseqExtend(a: seq<string>, b: seq<string>, x: string)
    requires IsSubseq(a, b)
    ensures IsSubseq(a, b + [x])
  {
    assert (b + [x])[..|b|] == b;
  }

  /** A node as a possibly aborted build leaves it: it names an existing path
      and reports what stat said; a directory's children are some of its
      entries, in listing order, each at the joined path of its name. */
  predicate Sound(disk: Disk, n: Node)
    decreases n
  {
    && n.path in disk
    && match disk[n.path]
       case File => !n.isDir && n.children == []
       case UnreadableDir => false
       case Dir(names) =>
         && n.isDir
         && IsSubseq(NamesOf(n.children), names)
         && forall i :: 0 <= i < |n.children| ==>
              && ValidName(n.children[i].name)
              && n.children[i].path == Join(n.path, n.children[i].name)
              && Sound(disk, n.children[i])
  }

  /** A node that reflects the disk exactly: one child per listed entry, in
      listing order, all the way down. */
  predicate Mirrors(disk: Disk, n: Node)
    decreases n
  {
    && n.path in disk
    && match disk[n.path]
       case File => !n.isDir && n.children == []
       case UnreadableDir => false
       case Dir(names) =>
         && n.isDir
         && NamesOf(n.children) == names
         && forall i :: 0 <= i < |n.children| ==>
              && ValidName(n.children[i].name)
              && n.children[i].path == Join(n.path, n.children[i].name)
              && Mirrors(disk, n.children[i])
  }

  /** Every path reachable from `p` stats, and every directory among them lists. */
  predicate Healthy(disk: Disk, p: Path)
    decreases Reach(disk, p), 1
  {
    && p in disk
    && match disk[p]
       case File => true
       case UnreadableDir => false
       case Dir(names) => AllHealthy(disk, p, names, |names|)
  }

  predicate AllHealthy(disk: Disk, dir: Path, names: seq<EntryName>, k: nat)
    requires dir in disk && k <= |names|
    decreases Reach(disk, dir), 0, k
  {
    k == 0 ||
    (AllHealthy(disk, dir, names, k - 1) &&
     (ChildShrinks(disk, dir, names[k - 1]);
      Healthy(disk, Join(dir, names[k - 1]))))
  }

  /** Every listing in `calls` is of a path that stats as a directory. */
  predicate ListsOnlyDirs(disk: Disk, calls: seq<FsCall>) {
    forall c :: c in calls && c.ReadDirCall? ==> c.path in disk && !disk[c.path].File?
  }

  // ---------------------------------------------------------------------
  // Compaction keeps slot order

  /** Every kept node comes from a slot. */
  lemma {:induction false} CompactFromSlots(slots: seq<Option<Node>>)
    ensures forall c :: c in Compact(slots) ==> Some(c) in slots
  {
    if slots != [] {
      var m := |slots| - 1;
      var init := slots[..m];
      CompactFromSlots(init);
      assert forall x :: x in init ==> x in slots;
    }
  }

  /** With no nil slot, nothing is dropped. */
  lemma {:induction false} CompactAllPresent(slots: seq<Option<Node>>)
    requires forall j :: 0 <= j < |slots| ==> slots[j].Some?
    ensures var r := Compact(slots);
            |r| == |slots| && forall j :: 0 <= j < |r| ==> r[j] == slots[j].value
  {
    if slots != [] {
      var m := |slots| - 1;
      CompactAllPresent(slots[..m]);
    }
  }

  /** The number of non-nil slots. */
  function Present(slots: seq<Option<Node>>): nat {
    if slots == [] then 0
    else Present(slots[..|slots| - 1]) + (if slots[|slots| - 1].Some? then 1 else 0)
  }

  /** Every non-nil slot survives compaction. */
  lemma {:induction false} CompactKeeps(slots: seq<Option<Node>>, j: nat)
    requires j < |slots| && slots[j].Some?
    ensures slots[j].value in Compact(slots)
  {
    var m := |slots| - 1;
    if j < m {
      CompactKeeps(slots[..m], j);
    }
  }

  /** Compaction keeps exactly the non-nil slots: one child per non-nil slot. */
  lemma {:induction false} CompactLength(slots: seq<Option<Node>>)
    ensures |Compact(slots)| == Present(slots)
  {
    if slots != [] {
      CompactLength(slots[..|slots| - 1]);
    }
  }

  /** Compaction keeps slot order: the names of the kept nodes are a
      subsequence of the listed names the slots line up with. */
  lemma {:induction false} CompactNames(slots: seq<Option<Node>>, names: seq<string>)
    requires |slots| == |names|
    requires forall j :: 0 <= j < |slots| && slots[j].Some? ==> slots[j].value.name == names[j]
    ensures IsSubseq(NamesOf(Compact(slots)), names)
  {
    if slots != [] {
      var m := |slots| - 1;
      CompactNames(slots[..m], names[..m]);
      var rest := Compact(slots[..m]);
      match slots[m]
      case None =>
        SubseqExtend(NamesOf(rest), names[..m], names[m]);
        assert names[..m] + [names[m]] == names;
      case Some(c) =>
        var a := NamesOf(rest + [c]);
        assert a[..|a| - 1] == NamesOf(rest);
    }
  }

  // ---------------------------------------------------------------------
  // Properties of the walk

  /** One more goroutine: slot k-1 gets the child's node, and the flag and
      the call log move on from the first k-1. */
  lemma SlotsStep(disk: Disk, t: bool, dir: Path, names: seq<EntryName>, k: nat)
    requires dir in disk && 0 < k <= |names|
    ensures var s := BuildSlots(disk, t, dir, names, k - 1);
            var c := BuildSpec(disk, s.tripped, Join(dir, names[k - 1]), names[k - 1]);
            BuildSlots(disk, t, dir, names, k) == Slots(s.nodes + [c.node], c.tripped, s.calls + c.calls)
  {
  }

  /** What one call returns: nothing at all once aborted; a nil node only with
      the flag tripped; a node for the path it was given, under the name stat
      reports, a leaf for a non-directory; and a stat of the path first. */
  lemma BuildShape(disk: Disk, t: bool, p: Path, name: string)
    ensures var r := BuildSpec(disk, t, p, name);
            && (t ==> r == Built(None, true, []))
            && (r.node.None? ==> r.tripped)
            && (r.node.Some? ==>
                  && p in disk
                  && r.node.value.path == p
                  && r.node.value.name == name
                  && r.node.value.isDir == !disk[p].File?
                  && (!r.node.value.isDir ==> r.node.value.children == [] && r.calls == [StatCall(p)]))
            && (!t ==> |r.calls| >= 1 && r.calls[0] == StatCall(p))
  {
  }

  /** A node a build returns is for the path it was given, under the name it
      was given. */
  lemma BuildNamed(disk: Disk, t: bool, p: Path, name: string)
    ensures var r := BuildSpec(disk, t, p, name);
            r.node.Some? ==> r.node.value.path == p && r.node.value.name == name
  {
  }

  /** One slot per goroutine. */
  lemma {:induction false} SlotsLength(disk: Disk, t: bool, dir: Path, names: seq<EntryName>, k: nat)
    requires dir in disk && k <= |names|
    ensures |BuildSlots(disk, t, dir, names, k).nodes| == k
    decreases k
  {
    if k > 0 {
      SlotsLength(disk, t, dir, names, k - 1);
      SlotsStep(disk, t, dir, names, k);
    }
  }

  /** Each non-nil slot j holds the node for entry j of `dir`. */
  predicate Aligned(dir: Path, names: seq<EntryName>, slots: seq<Option<Node>>) {
    && |slots| <= |names|
    && forall j :: 0 <= j < |slots| && slots[j].Some? ==>
         slots[j].value.path == Join(dir, names[j]) && slots[j].value.name == names[j]
  }

  lemma AlignedSnoc(dir: Path, names: seq<EntryName>, slots: seq<Option<Node>>, x: Option<Node>)
    requires Aligned(dir, names, slots) && |slots| < |names|
    requires x.Some? ==> x.value.path == Join(dir, names[|slots|]) && x.value.name == names[|slots|]
    ensures Aligned(dir, names, slots + [x])
  {
    var t := slots + [x];
    forall j | 0 <= j < |t| && t[j].Some?
      ensures t[j].value.path == Join(dir, names[j]) && t[j].value.name == names[j]
    {
      if j < |slots| {
        assert t[j] == slots[j];
      }
    }
  }

  /** The slots line up with the entries: slot j holds the node for entry j. */
  lemma {:induction false} SlotsAligned(disk: Disk, t: bool, dir: Path, names: seq<EntryName>, k: nat)
    requires dir in disk && k <= |names|
    ensures Aligned(dir, names, BuildSlots(disk, t, dir, names, k).nodes)
    decreases k
  {
    SlotsLength(disk, t, dir, names, k);
    if k > 0 {
      SlotsAligned(disk, t, dir, names, k - 1);
      SlotsLength(disk, t, dir, names, k - 1);
      SlotsStep(disk, t, dir, names, k);
      var s := BuildSlots(disk, t, dir, names, k - 1);
      BuildNamed(disk, s.tripped, Join(dir, names[k - 1]), names[k - 1]);
      var c := BuildSpec(disk, s.tripped, Join(dir, names[k - 1]), names[k - 1]);
      AlignedSnoc(dir, names, s.nodes, c.node);
    }
  }

  /** `ReadDir` is only ever called on a path that stat reported as a
      directory. */
  lemma {:induction false} BuildListsOnlyDirs(disk: Disk, t: bool, p: Path, name: string)
    ensures ListsOnlyDirs(disk, BuildSpec(disk, t, p, name).calls)
    decreases Reach(disk, p), 1
  {
    if !t && p in disk && disk[p].Dir? {
      var names := disk[p].names;
      SlotsListsOnlyDirs(disk, false, p, names, |names|);
    }
  }

  lemma {:induction false} SlotsListsOnlyDirs(disk: Disk, t: bool, dir: Path, names: seq<EntryName>, k: nat)
    requires dir in disk && k <= |names|
    ensures ListsOnlyDirs(disk, BuildSlots(disk, t, dir, names, k).calls)
    decreases Reach(disk, dir), 0, k
  {
    if k > 0 {
      SlotsListsOnlyDirs(disk, t, dir, names, k - 1);
      var s := BuildSlots(disk, t, dir, names, k - 1);
      ChildShrinks(disk, dir, names[k - 1]);
      BuildListsOnlyDirs(disk, s.tripped, Join(dir, names[k - 1]), names[k - 1]);
    }
  }

  /** `n` nil slots. */
  function Nils(n: nat): (r: seq<Option<Node>>)
    ensures |r| == n && forall i :: 0 <= i < n ==> r[i] == None
  {
    seq(n, _ => None)
  }

  lemma NilsSnoc(n: nat)
    ensures Nils(n) + [None] == Nils(n + 1)
  {
  }

  /** A build that starts with the flag tripped does nothing. */
  lemma TrippedBuild(disk: Disk, p: Path, name: string)
    ensures BuildSpec(disk, true, p, name) == Built(None, true, [])
  {
  }

  /** Once the flag is tripped after slot j, the remaining goroutines leave
      their slots nil and make no filesystem call. */
  lemma {:induction false} SlotsAfterTrip(disk: Disk, t: bool, dir: Path, names: seq<EntryName>, j: nat, k: nat)
    requires dir in disk && j <= k <= |names|
    requires BuildSlots(disk, t, dir, names, j).tripped
    ensures var sk := BuildSlots(disk, t, dir, names, k);
            var sj := BuildSlots(disk, t, dir, names, j);
            sk == Slots(sj.nodes + Nils(k - j), true, sj.calls)
    decreases k
  {
    var sj := BuildSlots(disk, t, dir, names, j);
    if j < k {
      SlotsAfterTrip(disk, t, dir, names, j, k - 1);
      SlotsStep(disk, t, dir, names, k);
      TrippedBuild(disk, Join(dir, names[k - 1]), names[k - 1]);
      NilsSnoc(k - 1 - j);
      assert sj.nodes + Nils(k - 1 - j) + [None] == sj.nodes + Nils(k - j);
    } else {
      assert sj.nodes + Nils(0) == sj.nodes;
    }
  }

  /** A directory that lists: its node holds the compacted slots of its
      children's builds. */
  lemma DirStep(disk: Disk, p: Path, name: string)
    requires p in disk && disk[p].Dir?
    ensures var names := disk[p].names;
            var s := BuildSlots(disk, false, p, names, |names|);
            BuildSpec(disk, false, p, name) ==
            Built(Some(Node(name, Compact(s.nodes), true, p)), s.tripped,
                  [StatCall(p), ReadDirCall(p)] + s.calls)
  {
  }

  /** Compacting slots that line up with the entries and hold sound nodes
      gives the children of a sound directory node. */
  lemma CompactSound(disk: Disk, dir: Path, names: seq<EntryName>, slots: seq<Option<Node>>)
    requires |slots| == |names|
    requires forall j :: 0 <= j < |slots| && slots[j].Some? ==>
               slots[j].value.path == Join(dir, names[j]) && slots[j].value.name == names[j] &&
               Sound(disk, slots[j].value)
    ensures var cs := Compact(slots);
            && IsSubseq(NamesOf(cs), names)
            && forall i :: 0 <= i < |cs| ==>
                 ValidName(cs[i].name) && cs[i].path == Join(dir, cs[i].name) && Sound(disk, cs[i])
  {
    CompactNames(slots, names);
    CompactFromSlots(slots);
    var cs := Compact(slots);
    forall i | 0 <= i < |cs|
      ensures ValidName(cs[i].name) && cs[i].path == Join(dir, cs[i].name) && Sound(disk, cs[i])
    {
      assert cs[i] in cs;
      var j :| 0 <= j < |slots| && slots[j] == Some(cs[i]);
    }
  }

  /** Whatever the flag does, every node the builder returns is sound. */
  lemma {:induction false} BuildSound(disk: Disk, t: bool, p: Path, name: string)
    ensures var r := BuildSpec(disk, t, p, name); r.node.Some? ==> Sound(disk, r.node.value)
    decreases Reach(disk, p), 1
  {
    if !t && p in disk && disk[p].Dir? {
      var names := disk[p].names;
      var s := BuildSlots(disk, false, p, names, |names|);
      DirStep(disk, p, name);
      SlotsSound(disk, false, p, names, |names|);
      SlotsLength(disk, false, p, names, |names|);
      SlotsAligned(disk, false, p, names, |names|);
      CompactSound(disk, p, names, s.nodes);
    }
  }

  lemma {:induction false} SlotsSound(disk: Disk, t: bool, dir: Path, names: seq<EntryName>, k: nat)
    requires dir in disk && k <= |names|
    ensures var s := BuildSlots(disk, t, dir, names, k);
            forall j :: 0 <= j < |s.nodes| && s.nodes[j].Some? ==> Sound(disk, s.nodes[j].value)
    decreases Reach(disk, dir), 0, k
  {
    if k > 0 {
      SlotsSound(disk, t, dir, names, k - 1);
      SlotsStep(disk, t, dir, names, k);
      var s := BuildSlots(disk, t, dir, names, k - 1);
      var child := Join(dir, names[k - 1]);
      ChildShrinks(disk, dir, names[k - 1]);
      BuildSound(disk, s.tripped, child, names[k - 1]);
      var c := BuildSpec(disk, s.tripped, child, names[k - 1]);
      var nodes := s.nodes + [c.node];
      assert forall j :: 0 <= j < |s.nodes| ==> nodes[j] == s.nodes[j];
      assert nodes[|s.nodes|] == c.node;
    }
  }

  /** A sound node is well formed: only directories have children. */
  lemma {:induction false} SoundWellFormed(disk: Disk, n: Node)
    requires Sound(disk, n)
    ensures WellFormed(n)
    decreases n
  {
    if disk[n.path].Dir? {
      forall i | 0 <= i < |n.children| ensures WellFormed(n.children[i]) {
        SoundWellFormed(disk, n.children[i]);
      }
    }
  }

  /** A directory whose listing succeeded always yields a node, and it has at
      most one child per entry. */
  lemma ListedDirYieldsNode(disk: Disk, p: Path, name: string)
    requires p in disk && disk[p].Dir?
    ensures var r := BuildSpec(disk, false, p, name);
            r.node.Some? && r.node.value.isDir && |r.node.value.children| <= |disk[p].names|
  {
    BuildSound(disk, false, p, name);
    var n := BuildSpec(disk, false, p, name).node.value;
    SubseqNotLonger(NamesOf(n.children), disk[p].names);
  }

  /** A build that finishes without tripping the flag reflects the disk exactly. */
  lemma {:induction false} BuildComplete(disk: Disk, t: bool, p: Path, name: string)
    ensures var r := BuildSpec(disk, t, p, name); !r.tripped ==> r.node.Some? && Mirrors(disk, r.node.value)
    decreases Reach(disk, p), 1
  {
    var r := BuildSpec(disk, t, p, name);
    if !t && p in disk && disk[p].Dir? && !r.tripped {
      var names := disk[p].names;
      var s := BuildSlots(disk, false, p, names, |names|);
      SlotsComplete(disk, false, p, names, |names|);
      SlotsLength(disk, false, p, names, |names|);
      SlotsAligned(disk, false, p, names, |names|);
      CompactAllPresent(s.nodes);
      var cs := Compact(s.nodes);
      assert NamesOf(cs) == names;
    }
  }

  lemma {:induction false} SlotsComplete(disk: Disk, t: bool, dir: Path, names: seq<EntryName>, k: nat)
    requires dir in disk && k <= |names|
    ensures var s := BuildSlots(disk, t, dir, names, k);
            !s.tripped ==> forall j :: 0 <= j < |s.nodes| ==> s.nodes[j].Some? && Mirrors(disk, s.nodes[j].value)
    decreases Reach(disk, dir), 0, k
  {
    if k > 0 {
      SlotsComplete(disk, t, dir, names, k - 1);
      SlotsStep(disk, t, dir, names, k);
      var s := BuildSlots(disk, t, dir, names, k - 1);
      var child := Join(dir, names[k - 1]);
      ChildShrinks(disk, dir, names[k - 1]);
      BuildComplete(disk, s.tripped, child, names[k - 1]);
      BuildShape(disk, s.tripped, child, names[k - 1]);
      var c := BuildSpec(disk, s.tripped, child, names[k - 1]);
      var nodes := s.nodes + [c.node];
      assert forall j :: 0 <= j < |s.nodes| ==> nodes[j] == s.nodes[j];
      assert nodes[|s.nodes|] == c.node;
    }
  }

  /** A build started with the flag open trips it exactly when some path
      below the root fails to stat or to list. */
  lemma {:induction false} BuildTripsIffUnhealthy(disk: Disk, p: Path, name: string)
    ensures BuildSpec(disk, false, p, name).tripped <==> !Healthy(disk, p)
    decreases Reach(disk, p), 1
  {
    if p in disk && disk[p].Dir? {
      var names := disk[p].names;
      SlotsTripIffUnhealthy(disk, p, names, |names|);
    }
  }

  lemma {:induction false} SlotsTripIffUnhealthy(disk: Disk, dir: Path, names: seq<EntryName>, k: nat)
    requires dir in disk && k <= |names|
    ensures BuildSlots(disk, false, dir, names, k).tripped <==> !AllHealthy(disk, dir, names, k)
    decreases Reach(disk, dir), 0, k
  {
    if k > 0 {
      SlotsTripIffUnhealthy(disk, dir, names, k - 1);
      var s := BuildSlots(disk, false, dir, names, k - 1);
      ChildShrinks(disk, dir, names[k - 1]);
      BuildTripsIffUnhealthy(disk, Join(dir, names[k - 1]), names[k - 1]);
      BuildShape(disk, s.tripped, Join(dir, names[k - 1]), names[k - 1]);
    }
  }

  /** On a healthy subtree the builder returns the exact image of the disk. */
  lemma HealthyBuildMirrors(disk: Disk, p: Path, name: string)
    requires Healthy(disk, p)
    ensures var r := BuildSpec(disk, false, p, name); !r.tripped && r.node.Some? && Mirrors(disk, r.node.value)
  {
    BuildTripsIffUnhealthy(disk, p, name);
    BuildComplete(disk, false, p, name);
  }

  /** An empty directory yields a directory node with no children. */
  lemma EmptyDirectory(disk: Disk, p: Path, name: string)
    requires p in disk && disk[p] == Dir([])
    ensures BuildSpec(disk, false, p, name) ==
            Built(Some(Node(name, [], true, p)), false, [StatCall(p), ReadDirCall(p)])
  {
  }

  // A worked example: directory "/r" lists "a" and "b", but "a" has vanished.

  const PartialDisk: Disk := map["/r" := Dir(["a", "b"]), "/r/b" := File]

  lemma RootName()
    ensures BaseName("/r") == "r"
  {
    assert TrimSlashes("/r") == "/r";
    assert Segment("/") == "";
    assert Segment("/r") == "r";
  }

  /** The first goroutine fails to stat "/r/a" and trips the flag. */
  lemma MissingChildTrips()
    ensures BuildSlots(PartialDisk, false, "/r", ["a", "b"], 1) == Slots([None], true, [StatCall("/r/a")])
  {
    var names: seq<EntryName> := ["a", "b"];
    SlotsStep(PartialDisk, false, "/r", names, 1);
    assert Join("/r", "a") == "/r/a";
    assert "/r/a" !in PartialDisk;
  }

  /** The second goroutine sees the flag and leaves its slot nil. */
  lemma LaterSiblingSkipped()
    ensures BuildSlots(PartialDisk, false, "/r", ["a", "b"], 2) == Slots([None, None], true, [StatCall("/r/a")])
  {
    var names: seq<EntryName> := ["a", "b"];
    SlotsStep(PartialDisk, false, "/r", names, 2);
    MissingChildTrips();
    BuildShape(PartialDisk, true, Join("/r", "b"), "b");
  }

  /** A child that does not exist trips the flag, so its later siblings are
      skipped, but the listed parent still comes back as a (now partial) node
      rather than nil. */
  lemma PartialTreeAfterFailure()
    ensures BuildSpec(PartialDisk, false, "/r", BaseName("/r")) ==
            Built(Some(Node("r", [], true, "/r")), true,
                  [StatCall("/r"), ReadDirCall("/r"), StatCall("/r/a")])
  {
    RootName();
    DirStep(PartialDisk, "/r", "r");
    LaterSiblingSkipped();
    assert Compact([None, None]) == [];
  }
}
