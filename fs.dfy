/**
 * The filesystem as the tree builder sees it: paths, the entry names a
 * directory listing returns, path joining, the base name `os.Stat` reports,
 * and an object standing for the operating system that answers `Stat` and
 * `ReadDir` and records every call made to it.
 */
module Fs {
  import opened Options

  type Path = string

  /** What a directory listing can return as an entry name: never empty,
      never containing a separator, never "." or "..". */
  predicate ValidName(s: string) {
    s != "" && '/' !in s && s != "." && s != ".."
  }

  type EntryName = s: string | ValidName(s) witness "a"

  /** The state of one path on disk. A path that is not a key of the map does
      not exist, so stat fails on it. */
  datatype Entry =
    | File
    | Dir(names: seq<EntryName>)
    | UnreadableDir   // stat succeeds and reports a directory, listing fails

  type Disk = map<Path, Entry>

  /** One filesystem operation, as logged by `FileSystem`. */
  datatype FsCall = StatCall(path: Path) | ReadDirCall(path: Path)

  /** The two facts the builder reads from a successful stat. */
  datatype FileInfo = FileInfo(name: string, isDir: bool)

  /** The path is ".". */
  predicate IsDot(p: Path) {
    |p| == 1 && p[0] == '.'
  }

  /** How much of a clean directory path `filepath.Join` keeps before the
      entry name: none of ".", all of any other path. */
  function KeptLength(dir: Path): nat {
    if IsDot(dir) then 0 else |dir|
  }

  /** What `filepath.Join` puts between the kept directory and an entry name:
      nothing after "", ".", or a trailing separator, otherwise one separator. */
  function Separator(dir: Path): string {
    if dir == "" || dir[|dir| - 1] == '/' || IsDot(dir) then "" else "/"
  }

  /** Orders paths for the walk's termination: "." first, then by length. A
      joined path always ranks above its directory. */
  function Rank(p: Path): nat {
    if IsDot(p) then 0 else |p| + 1
  }

  /** `filepath.Join(dir, name)` for a clean `dir` and a listed entry name. */
  function Join(dir: Path, name: EntryName): Path {
    dir[..KeptLength(dir)] + Separator(dir) + name
  }

  /** Joining onto "." gives the bare entry name, as `filepath.Join` cleans
      "./name" to "name"; so a walk from "." reports relative paths. */
  lemma JoinOfDot(name: EntryName)
    ensures Join(".", name) == name
  {
  }

  /** Drops trailing separators, keeping a lone "/". */
  function TrimSlashes(p: Path): Path {
    if |p| > 1 && p[|p| - 1] == '/' then TrimSlashes(p[..|p| - 1]) else p
  }

  /** The longest suffix of `p` without a separator. */
  function Segment(p: Path): Path {
    if p == [] || p[|p| - 1] == '/' then []
    else Segment(p[..|p| - 1]) + [p[|p| - 1]]
  }

  /** The name `os.Stat(p).Name()` reports: the last element of `p` once
      trailing separators are removed; "" for "" and "/" for a root. */
  function BaseName(p: Path): Path {
    var q := TrimSlashes(p);
    if Segment(q) == "" then q else Segment(q)
  }

  /** Trimming keeps a prefix of the path and leaves no trailing separator
      unless the whole path is "/". */
  lemma {:induction false} TrimSlashesShape(p: Path)
    ensures var r := TrimSlashes(p);
            |r| <= |p| && r == p[..|r|] && (|r| > 1 ==> r[|r| - 1] != '/')
    decreases |p|
  {
    if |p| > 1 && p[|p| - 1] == '/' {
      var q := p[..|p| - 1];
      TrimSlashesShape(q);
      var r := TrimSlashes(q);
      assert p[..|r|] == q[..|r|];
    }
  }

  /** The segment is a suffix of the path. */
  lemma {:induction false} SegmentSuffix(p: Path)
    ensures var r := Segment(p); |r| <= |p| && r == p[|p| - |r|..]
    decreases |p|
  {
    if p != [] && p[|p| - 1] != '/' {
      var q := p[..|p| - 1];
      SegmentSuffix(q);
      var r := Segment(q);
      assert p[|p| - |r| - 1..] == q[|q| - |r|..] + [p[|p| - 1]];
    }
  }

  lemma {:induction false} SegmentHasNoSeparator(p: Path)
    ensures '/' !in Segment(p)
    decreases |p|
  {
    if p != [] && p[|p| - 1] != '/' {
      SegmentHasNoSeparator(p[..|p| - 1]);
    }
  }

  /** Whatever precedes the segment ends in a separator. */
  lemma {:induction false} SegmentPreceded(p: Path)
    ensures var r := Segment(p); |r| < |p| ==> p[|p| - |r| - 1] == '/'
    decreases |p|
  {
    if p != [] && p[|p| - 1] != '/' {
      var q := p[..|p| - 1];
      SegmentPreceded(q);
      SegmentSuffix(q);
      var r := Segment(q);
      if |r| < |q| {
        assert p[|q| - |r| - 1] == q[|q| - |r| - 1];
      }
    }
  }

  /** The segment is the suffix after the last separator: it holds no
      separator, and what precedes it, if anything, is a separator. */
  lemma SegmentIsLastElement(p: Path)
    ensures var r := Segment(p);
            |r| <= |p| && r == p[|p| - |r|..] && '/' !in r && (|r| < |p| ==> p[|p| - |r| - 1] == '/')
  {
    SegmentSuffix(p);
    SegmentHasNoSeparator(p);
    SegmentPreceded(p);
  }

  lemma {:induction false} SegmentAfterSeparator(front: Path, name: string)
    requires front == [] || front[|front| - 1] == '/'
    requires '/' !in name
    ensures Segment(front + name) == name
    decreases |name|
  {
    if name == [] {
      assert front + name == front;
    } else {
      var init := name[..|name| - 1];
      assert (front + name)[..|front + name| - 1] == front + init;
      SegmentAfterSeparator(front, init);
      assert init + [name[|name| - 1]] == name;
    }
  }

  /** The node built for a joined child path carries the entry's own name. */
  lemma BaseNameOfJoin(dir: Path, name: EntryName)
    ensures BaseName(Join(dir, name)) == name
  {
    var front := dir[..KeptLength(dir)] + Separator(dir);
    assert (front + name)[|front + name| - 1] == name[|name| - 1];
    SegmentAfterSeparator(front, name);
  }

  /** The paths of `disk` ranked at least as high as `p`; it strictly shrinks along
      every step from a directory to one of its children, which is what makes
      the recursive walk terminate. */
  function Reach(disk: Disk, p: Path): set<Path> {
    set k | k in disk && Rank(k) >= Rank(p)
  }

  lemma ReachShrinks(disk: Disk, p: Path, q: Path)
    requires p in disk && Rank(q) > Rank(p)
    ensures Reach(disk, q) < Reach(disk, p)
  {
    assert p in Reach(disk, p);
    assert p !in Reach(disk, q);
  }

  /** A joined path ranks above its directory. */
  lemma JoinRanksHigher(dir: Path, name: EntryName)
    ensures Rank(Join(dir, name)) > Rank(dir)
  {
    if !IsDot(dir) {
      assert |Join(dir, name)| > |dir|;
    } else {
      assert Join(dir, name) == name;
    }
  }

  /** Each step from a directory to one of its entries shrinks `Reach`. */
  lemma ChildShrinks(disk: Disk, dir: Path, name: EntryName)
    requires dir in disk
    ensures Reach(disk, Join(dir, name)) < Reach(disk, dir)
  {
    JoinRanksHigher(dir, name);
    ReachShrinks(disk, dir, Join(dir, name));
  }


  /** The operating system: a fixed disk and the log of calls made to it. */
  class FileSystem {
    const disk: Disk
    var calls: seq<FsCall>

    constructor (d: Disk)
      ensures disk == d && calls == []
    {
      disk := d;
      calls := [];
    }

    /** `os.Stat`: fails exactly on paths that do not exist. */
    method Stat(p: Path) returns (info: Option<FileInfo>)
      modifies this
      ensures calls == old(calls) + [StatCall(p)]
      ensures info.None? <==> p !in disk
      ensures info.Some? ==> info.value == FileInfo(BaseName(p), !disk[p].File?)
    {
      calls := calls + [StatCall(p)];
      if p in disk {
        info := Some(FileInfo(BaseName(p), !disk[p].File?));
      } else {
        info := None;
      }
    }

    /** `os.ReadDir`: succeeds exactly on readable directories. */
    method ReadDir(p: Path) returns (names: Option<seq<EntryName>>)
      modifies this
      ensures calls == old(calls) + [ReadDirCall(p)]
      ensures names.Some? <==> p in disk && disk[p].Dir?
      ensures names.Some? ==> names.value == disk[p].names
    {
      calls := calls + [ReadDirCall(p)];
      if p in disk && disk[p].Dir? {
        names := Some(disk[p].names);
      } else {
        names := None;
      }
    }
  }
}
