/**
 What a backup does to the file system: it copies the source tree below an empty destination and writes a
 manifest beside the copy. Paths are resolved paths; every call on the file system may fail.
 */
module BackupCopy {
  import opened Outcomes
  import opened PathContainment
  import opened PathOrder

  type Bytes = seq<bv8>

  datatype Entry = Dir | File(bytes: Bytes) | Symlink

  type Entries = map<Path, Entry>

  /** How a call concerning a path goes; a write may stop part of the way. */
  datatype Fault = NoFault | Refused | Partway(written: nat)

  predicate IsDir(entries: Entries, path: Path) {
    path in entries && entries[path].Dir?
  }

  /** Everything hangs below directories, up to the root. */
  ghost predicate TreeShaped(entries: Entries) {
    && IsDir(entries, [])
    && forall path | path in entries && path != [] :: IsDir(entries, path[..|path| - 1])
  }

  /** What lies at `root` and below it. */
  function Subtree(entries: Entries, root: Path): Entries {
    map path | path in entries && root <= path :: entries[path]
  }

  function Moved(path: Path, root: Path, target: Path): Path
    requires root <= path
  {
    target + path[|root|..]
  }

  lemma MovedBack(path: Path, root: Path, target: Path)
    requires root <= path
    ensures target <= Moved(path, root, target) && Moved(Moved(path, root, target), target, root) == path
    ensures path != root ==> Moved(path[..|path| - 1], root, target) == Moved(path, root, target)[..|Moved(path, root, target)| - 1]
  {
    assert Moved(path, root, target)[|target|..] == path[|root|..];
    assert root + path[|root|..] == path;
    if path != root {
      assert |path| > |root| && path[..|path| - 1][|root|..] == path[|root|..][..|path| - |root| - 1];
    }
  }

  /** The tree at `root`, as it looks at `target`. */
  function Relocated(tree: Entries, root: Path, target: Path): Entries
    requires forall path | path in tree :: root <= path
  {
    map moved | moved in (set path | path in tree :: Moved(path, root, target)) && target <= moved && Moved(moved, target, root) in tree
      :: tree[Moved(moved, target, root)]
  }

  lemma RelocatedEntry(tree: Entries, root: Path, target: Path, path: Path)
    requires forall path | path in tree :: root <= path
    ensures var moved := Relocated(tree, root, target);
            && (path in tree ==> Moved(path, root, target) in moved && moved[Moved(path, root, target)] == tree[path])
            && (path in moved ==> target <= path && Moved(path, target, root) in tree)
  {
    if path in tree { MovedBack(path, root, target); }
  }

  /** Moving a tree loses nothing: moved back, it is the same tree. */
  lemma RelocatingBackRestores(tree: Entries, root: Path, target: Path)
    requires forall path | path in tree :: root <= path
    ensures var moved := Relocated(tree, root, target);
            && (forall path | path in moved :: target <= path)
            && Relocated(moved, target, root) == tree
  {
    hide Relocated, Moved;
    var moved := Relocated(tree, root, target);
    forall path | path in moved
      ensures target <= path
    {
      RelocatedEntry(tree, root, target, path);
    }
    var back := Relocated(moved, target, root);
    forall path: Path
      ensures path in tree ==> path in back && back[path] == tree[path]
      ensures path in back ==> path in tree
    {
      RelocatedEntry(tree, root, target, path);
      RelocatedEntry(moved, target, root, path);
      if path in tree {
        MovedBack(path, root, target);
        RelocatedEntry(moved, target, root, Moved(path, root, target));
      }
      if path in back {
        MovedBack(path, root, target);
        RelocatedEntry(tree, root, target, Moved(path, root, target));
      }
    }
  }

  /** The first symbolic link below the root that a walk meets. */
  ghost predicate FirstLink(entries: Entries, root: Path, link: Path) {
    && link in entries && root < link && entries[link].Symlink?
    && forall q | q in entries && root < q && entries[q].Symlink? :: q == link || PathLess(link, q)
  }

  predicate SymlinkFree(entries: Entries, root: Path) {
    forall path | path in entries && root < path :: !entries[path].Symlink?
  }

  function FilesBelow(entries: Entries, root: Path): set<Path> {
    set path | path in entries && root < path && entries[path].File?
  }

  ghost predicate AllFiles(entries: Entries, files: set<Path>) {
    forall path | path in files :: path in entries && entries[path].File?
  }

  ghost function TotalSize(tree: Entries, files: set<Path>): nat
    requires AllFiles(tree, files)
  {
    if files == {} then 0 else
    var path :| path in files;
    |tree[path].bytes| + TotalSize(tree, files - {path})
  }

  /** The total does not depend on the order in which the files are met. */
  lemma {:induction false} TotalSizeOfOneMore(tree: Entries, files: set<Path>, path: Path)
    requires AllFiles(tree, files) && path in files
    ensures TotalSize(tree, files) == |tree[path].bytes| + TotalSize(tree, files - {path})
    decreases |files|
  {
    var first :| first in files && TotalSize(tree, files) == |tree[first].bytes| + TotalSize(tree, files - {first});
    if first != path {
      TotalSizeOfOneMore(tree, files - {first}, path);
      TotalSizeOfOneMore(tree, files - {path}, first);
      assert files - {first} - {path} == files - {path} - {first};
    }
  }

  // ---- Only ever adding, and only around one place ----

  /** Every entry is kept as it is; what is new lies at or below `target`, or is a directory above it. */
  ghost predicate Extends(before: Entries, after: Entries, target: Path) {
    && (forall path | path in before :: path in after && after[path] == before[path])
    && (forall path | path in after && path !in before :: target <= path || (path <= target && after[path].Dir?))
  }

  ghost predicate ExtendsThroughout(states: seq<Entries>, start: nat, before: Entries, target: Path) {
    start <= |states| && forall i | start <= i < |states| :: Extends(before, states[i], target)
  }

  lemma PrefixesCompare(a: Path, b: Path, path: Path)
    requires a <= path && b <= path
    ensures a <= b || b <= a
  {
    if |a| <= |b| {
      assert a == path[..|a|] == path[..|b|][..|a|];
    } else {
      assert b == path[..|b|] == path[..|a|][..|b|];
    }
  }

  lemma PrefixesChain(a: Path, b: Path, c: Path)
    requires a <= b
    ensures b <= c ==> a <= c
  {
    if b <= c {
      assert a == b[..|a|] == c[..|b|][..|a|];
    }
  }

  lemma ExtendingDeeper(before: Entries, after: Entries, path: Path, target: Path)
    requires Extends(before, after, path) && target <= path
    ensures Extends(before, after, target)
  {
    forall p | p in after && p !in before
      ensures target <= p || (p <= target && after[p].Dir?)
    {
      if p <= path { PrefixesCompare(p, target, path); }
    }
  }

  lemma ExtendingTwice(first: Entries, second: Entries, third: Entries, target: Path)
    requires Extends(first, second, target) && Extends(second, third, target)
    ensures Extends(first, third, target)
  {
  }

  /** Extending on at or below the target extends what there was before. */
  lemma ExtendingOn(
    earlier: seq<Entries>, states: seq<Entries>, start: nat, before: Entries, middle: Entries, after: Entries,
    path: Path, target: Path)
    requires ExtendsThroughout(earlier, start, before, target) && Extends(before, middle, target) && earlier <= states
    requires ExtendsThroughout(states, |earlier|, middle, path) && Extends(middle, after, path) && target <= path
    ensures ExtendsThroughout(states, start, before, target) && Extends(before, after, target)
  {
    ExtendingDeeper(middle, after, path, target);
    forall i | start <= i < |states|
      ensures Extends(before, states[i], target)
    {
      if i < |earlier| {
        assert earlier[i] == states[i];
      } else {
        ExtendingDeeper(middle, states[i], path, target);
      }
    }
  }

  /** What is neither above nor below the target keeps its whole subtree. */
  lemma ElsewhereIsUntouched(before: Entries, after: Entries, target: Path, root: Path)
    requires Extends(before, after, target) && !(root <= target) && !(target <= root)
    ensures Subtree(after, root) == Subtree(before, root)
  {
    forall path | path in after && root <= path
      ensures path in before
    {
      if path !in before {
        if target <= path { PrefixesCompare(root, target, path); } else { PrefixesChain(root, path, target); }
      }
    }
  }

  lemma {:induction false} AncestorsAreDirectories(entries: Entries, path: Path, k: nat)
    requires TreeShaped(entries) && path in entries && k < |path|
    ensures IsDir(entries, path[..k])
    decreases |path|
  {
    var parent := path[..|path| - 1];
    if k < |parent| {
      AncestorsAreDirectories(entries, parent, k);
      assert parent[..k] == path[..k];
    }
  }

  /** A new entry below a directory keeps the shape and everything else. */
  lemma AddingAnEntry(entries: Entries, path: Path, entry: Entry)
    requires TreeShaped(entries) && path != [] && path !in entries && IsDir(entries, path[..|path| - 1])
    ensures TreeShaped(entries[path := entry]) && Extends(entries, entries[path := entry], path)
  {
    var after := entries[path := entry];
    forall p | p in after && p != []
      ensures IsDir(after, p[..|p| - 1])
    {
      assert p in entries ==> IsDir(entries, p[..|p| - 1]);
    }
  }

  /** Nothing but directories on the way to `path` is new. */
  ghost predicate DirsAdded(before: Entries, after: Entries, path: Path) {
    && (forall p | p in before :: p in after && after[p] == before[p])
    && (forall p | p in after && p !in before :: p <= path && after[p].Dir?)
  }

  lemma DirsAddedFurther(before: Entries, after: Entries, parent: Path, path: Path)
    requires DirsAdded(before, after, parent) && parent <= path
    ensures DirsAdded(before, after, path) && Extends(before, after, path)
  {
    forall p | p in after && p !in before
      ensures p <= path
    {
      PrefixesChain(p, parent, path);
    }
  }

  ghost predicate Flawless(faults: Path -> Fault) {
    forall path :: faults(path) == NoFault
  }

  /** Nothing but directories stands in the way of a directory at `path`. */
  ghost predicate CanMakeDir(entries: Entries, path: Path) {
    forall k: nat | k <= |path| && path[..k] in entries :: entries[path[..k]].Dir?
  }

  lemma NothingInTheWay(entries: Entries, path: Path)
    requires TreeShaped(entries) && path !in entries && path != [] && IsDir(entries, path[..|path| - 1])
    ensures CanMakeDir(entries, path)
  {
    hide TreeShaped;
    var parent := path[..|path| - 1];
    forall k: nat | k <= |path| && path[..k] in entries
      ensures entries[path[..k]].Dir?
    {
      assert k < |path| by { assert path[..|path|] == path; }
      assert parent[..k] == path[..k];
      if k < |parent| { AncestorsAreDirectories(entries, parent, k); }
    }
  }

  class FileSystem {
    var entries: Entries
    /** Every state the file system went through. */
    ghost var history: seq<Entries>

    /** Creates a directory and the missing ones above it. */
    method MkdirAll(path: Path, faults: Path -> Fault) returns (ok: bool)
      requires TreeShaped(entries)
      modifies this
      ensures TreeShaped(entries) && DirsAdded(old(entries), entries, path)
      ensures ok ==> IsDir(entries, path)
      ensures Flawless(faults) && CanMakeDir(old(entries), path) ==> ok
      ensures path in old(entries) ==>
                entries == old(entries) && history == old(history) && (ok <==> old(entries)[path].Dir?)
      ensures path != [] && IsDir(old(entries), path[..|path| - 1]) ==>
                entries == old(entries) || entries == old(entries)[path := Dir]
      ensures old(history) <= history
      ensures forall i | |old(history)| <= i < |history| :: DirsAdded(old(entries), history[i], path)
      decreases |path|
    {
      assert path[..|path|] == path;
      if path in entries { return entries[path].Dir?; }
      var parent := path[..|path| - 1];
      assert forall k: nat | k <= |parent| :: parent[..k] == path[..k];
      ok := MkdirAll(parent, faults);
      forall i | |old(history)| <= i < |history|
        ensures DirsAdded(old(entries), history[i], path)
      {
        DirsAddedFurther(old(entries), history[i], parent, path);
      }
      DirsAddedFurther(old(entries), entries, parent, path);
      if !ok { return; }
      if faults(path) != NoFault { return false; }
      AddingAnEntry(entries, path, Dir);
      entries := entries[path := Dir];
      history := history + [entries];
    }

    /** Creates a file that must not exist and fills it. */
    method CreateFile(path: Path, bytes: Bytes, faults: Path -> Fault) returns (ok: bool)
      requires TreeShaped(entries) && path != [] && IsDir(entries, path[..|path| - 1])
      modifies this
      ensures TreeShaped(entries) && Extends(old(entries), entries, path)
      ensures ok <==> path !in old(entries) && faults(path) == NoFault
      ensures ok ==> entries == old(entries)[path := File(bytes)]
      // What a failed write leaves is the beginning of what was to be written.
      ensures path in entries && path !in old(entries) ==> entries[path].File? && entries[path].bytes <= bytes
      ensures old(history) <= history && ExtendsThroughout(history, |old(history)|, old(entries), path)
    {
      hide TreeShaped;
      if path in entries || faults(path) == Refused { return false; }
      var before := entries;
      var written := if faults(path).Partway? && faults(path).written <= |bytes| then bytes[..faults(path).written] else bytes;
      AddingAnEntry(before, path, File([]));
      AddingAnEntry(before, path, File(written));
      entries := before[path := File([])];
      history := history + [entries];
      entries := before[path := File(written)];
      history := history + [entries];
      ok := faults(path) == NoFault;
    }
  }

  // ---- Copying a tree ----

  datatype FileInfo = FileInfo(path: Path, size: nat)

  datatype Summary = Summary(fileCount: nat, totalBytes: nat, files: seq<FileInfo>)

  datatype CopyError = NoDestination | WalkFailed(path: Path) | SymbolicLink(path: Path) | CopyFailed(path: Path)

  ghost function PathsOf(files: seq<FileInfo>, source: Path): seq<Path> {
    seq(|files|, i requires 0 <= i < |files| => source + files[i].path)
  }

  /** The figures are those of the files `copied`, and the list, if asked for, names each of them once, in the order of the walk. */
  ghost predicate Tallied(tree: Entries, source: Path, copied: set<Path>, listed: bool, s: Summary) {
    && AllFiles(tree, copied)
    && s.fileCount == |copied| && s.totalBytes == TotalSize(tree, copied)
    && if !listed then s.files == [] else
         && multiset(PathsOf(s.files, source)) == multiset(copied) && InWalkOrder(PathsOf(s.files, source))
         && forall i | 0 <= i < |s.files| ::
              source + s.files[i].path in copied && s.files[i].size == |tree[source + s.files[i].path].bytes|
  }

  lemma TallyOneMore(tree: Entries, source: Path, copied: set<Path>, listed: bool, s: Summary, path: Path)
    requires Tallied(tree, source, copied, listed, s)
    requires path in tree && tree[path].File? && path !in copied && source <= path
    requires forall p | p in copied :: PathLess(p, path)
    ensures var size := |tree[path].bytes|;
            Tallied(tree, source, copied + {path}, listed,
              Summary(s.fileCount + 1, s.totalBytes + size,
                if listed then s.files + [FileInfo(path[|source|..], size)] else s.files))
  {
    hide TotalSize, PathLess, InWalkOrder;
    TotalSizeOfOneMore(tree, copied + {path}, path);
    assert copied + {path} - {path} == copied;
    hide AllFiles;
    if listed { ListOneMore(s.files, source, copied, FileInfo(path[|source|..], |tree[path].bytes|), path); }
  }

  lemma ListOneMore(files: seq<FileInfo>, source: Path, copied: set<Path>, info: FileInfo, path: Path)
    requires multiset(PathsOf(files, source)) == multiset(copied) && path !in copied
    requires InWalkOrder(PathsOf(files, source)) && forall p | p in copied :: PathLess(p, path)
    requires source <= path && info.path == path[|source|..]
    ensures source + info.path == path
    ensures multiset(PathsOf(files + [info], source)) == multiset(copied + {path})
    ensures InWalkOrder(PathsOf(files + [info], source))
  {
    hide PathLess;
    forall p | p in PathsOf(files, source)
      ensures PathLess(p, path)
    {
      assert p in multiset(PathsOf(files, source));
    }
    OneMoreInWalkOrder(PathsOf(files, source), path);
    hide InWalkOrder;
    assert source + info.path == path;
    assert PathsOf(files + [info], source) == PathsOf(files, source) + [path];
    assert multiset(copied + {path}) == multiset(copied) + multiset{path};
  }

  /** How far a copy has come: the paths visited are at the destination, and nothing else is new. */
  ghost predicate Progress(start: Entries, now: Entries, source: Path, dst: Path, visited: set<Path>) {
    && source in visited
    && (forall p | p in visited :: source <= p && p in start)
    && (forall p | p in visited && p != source ::
          !start[p].Symlink? && Moved(p, source, dst) in now && now[Moved(p, source, dst)] == start[p])
    && (forall p | p in start :: p in now && now[p] == start[p])
    && (forall p | p in now && p !in start :: dst <= p && Moved(p, dst, source) in visited && p != dst)
  }

  lemma ProgressOneMore(start: Entries, now: Entries, source: Path, dst: Path, visited: set<Path>, path: Path)
    requires Progress(start, now, source, dst, visited)
    requires path in start && source < path && path !in visited && !start[path].Symlink?
    requires var moved := Moved(path, source, dst); moved in now ==> now[moved] == start[path]
    ensures Progress(start, now[Moved(path, source, dst) := start[path]], source, dst, visited + {path})
    ensures Moved(path, source, dst) != dst
  {
    var moved := Moved(path, source, dst);
    MovedBack(path, source, dst);
    assert moved != dst by {
      assert |moved| > |dst|;
    }
    forall p | p in visited && p != source
      ensures Moved(p, source, dst) != moved
    {
      MovedBack(p, source, dst);
    }
  }

  /** The place a path goes to lies in a directory, and is free if nothing lay below the destination. */
  lemma PlaceIsReady(start: Entries, now: Entries, source: Path, dst: Path, visited: set<Path>, path: Path)
    requires TreeShaped(start) && Progress(start, now, source, dst, visited) && IsDir(now, dst)
    requires path in start && source < path && path !in visited && path[..|path| - 1] in visited
    ensures var moved := Moved(path, source, dst);
            moved != [] && dst <= moved && IsDir(now, moved[..|moved| - 1])
    ensures (forall p | p in start && dst <= p :: p == dst) ==> Moved(path, source, dst) !in now
  {
    MovedBack(path, source, dst);
    var parent := path[..|path| - 1];
    assert IsDir(start, parent);
    if parent == source {
      assert Moved(source, source, dst) == dst;
    }
  }

  /** The entries a walk can visit next. */
  function Pending(entries: Entries, source: Path, visited: set<Path>): set<Path> {
    set path | path in entries && source < path && path !in visited && path[..|path| - 1] in visited
  }

  lemma {:induction false} WalkReachesAll(entries: Entries, source: Path, visited: set<Path>, path: Path)
    requires TreeShaped(entries) && source in visited && Pending(entries, source, visited) == {}
    requires path in entries && source <= path
    ensures path in visited
    decreases |path|
  {
    if path != source {
      var parent := path[..|path| - 1];
      assert IsDir(entries, parent) && source <= parent;
      WalkReachesAll(entries, source, visited, parent);
      assert path in visited || path in Pending(entries, source, visited);
    }
  }

  /** Whatever is visited comes before whatever is not. */
  ghost predicate VisitedInOrder(entries: Entries, source: Path, visited: set<Path>) {
    forall v, q | v in visited && q in entries && source <= q && q !in visited :: PathLess(v, q)
  }

  lemma {:induction false} PendingAbove(entries: Entries, source: Path, visited: set<Path>, path: Path) returns (a: Path)
    requires TreeShaped(entries) && source in visited && path in entries && source <= path && path !in visited
    ensures a in Pending(entries, source, visited) && a <= path
    decreases |path|
  {
    assert path != source;
    var parent := path[..|path| - 1];
    assert IsDir(entries, parent) && source <= parent;
    if parent in visited {
      a := path;
    } else {
      a := PendingAbove(entries, source, visited, parent);
      PrefixesChain(a, parent, path);
    }
  }

  /** Going on with the least entry that can be visited keeps the order. */
  lemma LeastKeepsOrder(entries: Entries, source: Path, visited: set<Path>, path: Path)
    requires TreeShaped(entries) && source in visited && VisitedInOrder(entries, source, visited)
    requires LeastOf(path, Pending(entries, source, visited))
    ensures VisitedInOrder(entries, source, visited + {path})
  {
    hide TreeShaped, PathLess, Pending, LeastOf;
    forall q | q in entries && source <= q && q !in visited && q != path
      ensures PathLess(path, q)
    {
      var a := PendingAbove(entries, source, visited, q);
      LeastComesFirst(Pending(entries, source, visited), path, a, q);
    }
  }

  /** The same on a later state, as long as the source tree is what it was. */
  lemma StepInOrder(start: Entries, now: Entries, source: Path, visited: set<Path>, path: Path)
    requires TreeShaped(start) && source in visited && VisitedInOrder(start, source, visited)
    requires Subtree(now, source) == Subtree(start, source) && LeastOf(path, Pending(now, source, visited))
    ensures VisitedInOrder(start, source, visited + {path})
    ensures forall v | v in visited :: PathLess(v, path)
  {
    hide TreeShaped, PathLess, Subtree;
    PendingOfSubtree(start, source, visited);
    PendingOfSubtree(now, source, visited);
    assert path in Pending(start, source, visited);
    LeastKeepsOrder(start, source, visited, path);
  }

  lemma PendingOfSubtree(entries: Entries, source: Path, visited: set<Path>)
    ensures Pending(entries, source, visited) == Pending(Subtree(entries, source), source, visited)
  {
  }

  lemma LeastComesFirst(pending: set<Path>, path: Path, a: Path, q: Path)
    requires LeastOf(path, pending) && a in pending && a <= q && q != path
    ensures PathLess(path, q)
  {
    hide PathLess;
    if a != q {
      assert a < q;
      DirectoriesComeFirst(a, q);
      if path != a { PathsChain(path, a, q); }
    }
  }

  lemma SourceComesFirst(entries: Entries, source: Path)
    ensures VisitedInOrder(entries, source, {source})
  {
    hide PathLess;
    forall q | q in entries && source <= q && q != source
      ensures PathLess(source, q)
    {
      DirectoriesComeFirst(source, q);
    }
  }

  lemma DirsAddedThroughout(states: seq<Entries>, start: nat, before: Entries, path: Path)
    requires start <= |states| && forall i | start <= i < |states| :: DirsAdded(before, states[i], path)
    ensures ExtendsThroughout(states, start, before, path)
  {
    forall i | start <= i < |states|
      ensures Extends(before, states[i], path)
    {
      DirsAddedFurther(before, states[i], path, path);
    }
  }

  /** One entry below the source: a directory is made, a file is created anew, a link is refused. */
  method CopyEntry(fs: FileSystem, path: Path, place: Path, faults: Path -> Fault) returns (r: Result<(), CopyError>)
    requires TreeShaped(fs.entries) && path in fs.entries
    requires place != [] && IsDir(fs.entries, place[..|place| - 1])
    modifies fs
    ensures TreeShaped(fs.entries) && Extends(old(fs.entries), fs.entries, place)
    ensures old(fs.history) <= fs.history
    ensures ExtendsThroughout(fs.history, |old(fs.history)|, old(fs.entries), place)
    ensures r.Ok? ==>
              && !old(fs.entries)[path].Symlink?
              && (place in old(fs.entries) ==> old(fs.entries)[place] == old(fs.entries)[path] == Dir)
              && fs.entries == old(fs.entries)[place := old(fs.entries)[path]]
    ensures r == Err(SymbolicLink(path)) ==> old(fs.entries)[path].Symlink?
    ensures r.Err? && r.error.SymbolicLink? ==> r.error.path == path
    ensures Flawless(faults) && place !in old(fs.entries) ==>
              if old(fs.entries)[path].Symlink? then r == Err(SymbolicLink(path)) else r.Ok?
  {
    if faults(path) != NoFault { return Err(WalkFailed(path)); }
    ghost var before, began := fs.entries, |fs.history|;
    if fs.entries[path].Dir? {
      var made := fs.MkdirAll(place, faults);
      DirsAddedThroughout(fs.history, began, before, place);
      DirsAddedFurther(before, fs.entries, place, place);
      if !made {
        if place !in before { NothingInTheWay(before, place); }
        return Err(CopyFailed(path));
      }
      return Ok(());
    }
    if fs.entries[path].Symlink? { return Err(SymbolicLink(path)); }
    var bytes := fs.entries[path].bytes;
    var made := fs.MkdirAll(place[..|place| - 1], faults);
    assert made;
    var created := fs.CreateFile(place, bytes, faults);
    return if created then Ok(()) else Err(CopyFailed(path));
  }

  /** Everything below the source is at the destination as well, and nothing else is new there. */
  ghost predicate CopiedTo(before: Entries, after: Entries, source: Path, dst: Path) {
    && source in before && SymlinkFree(before, source) && IsDir(after, dst)
    && (forall p | p in before && source < p ::
          Moved(p, source, dst) in after && after[Moved(p, source, dst)] == before[p])
    && (forall p | p in after && p !in before && dst < p ::
          Moved(p, dst, source) in before && source < Moved(p, dst, source))
  }

  ghost predicate NothingBelow(entries: Entries, path: Path) {
    forall p | p in entries && path <= p :: p == path
  }

  ghost predicate CanCopy(entries: Entries, source: Path, dst: Path) {
    source in entries && SymlinkFree(entries, source) && CanMakeDir(entries, dst) && NothingBelow(entries, dst)
  }

  /** Making the destination leaves nothing below it, and changes nothing about the source. */
  lemma StartOfCopy(before: Entries, start: Entries, source: Path, dst: Path)
    requires DirsAdded(before, start, dst) && !(source <= dst) && !(dst <= source)
    ensures Extends(before, start, dst) && Subtree(start, source) == Subtree(before, source)
    ensures CanCopy(before, source, dst) <==> CanTryToCopy(before, source, dst) && SymlinkFree(before, source)
    ensures CanTryToCopy(before, source, dst) ==>
              source in start && CanMakeDir(before, dst) && NothingBelow(start, dst)
    ensures CanCopy(before, source, dst) ==>
              source in start && SymlinkFree(before, source) && CanMakeDir(before, dst) && NothingBelow(start, dst)
    ensures source in start ==> Progress(start, start, source, dst, {source})
    ensures FilesBelow(Subtree(before, source), source) * {source} == {}
  {
    DirsAddedFurther(before, start, dst, dst);
    ElsewhereIsUntouched(before, start, dst, source);
  }

  lemma ProgressExtends(start: Entries, now: Entries, source: Path, dst: Path, visited: set<Path>)
    requires Progress(start, now, source, dst, visited) && !(source <= dst) && !(dst <= source)
    ensures Extends(start, now, dst) && Subtree(now, source) == Subtree(start, source)
  {
    ElsewhereIsUntouched(start, now, dst, source);
  }

  lemma CopyIsComplete(before: Entries, start: Entries, now: Entries, source: Path, dst: Path, visited: set<Path>)
    requires TreeShaped(start) && Progress(start, now, source, dst, visited)
    requires Pending(now, source, visited) == {} && IsDir(now, dst)
    requires DirsAdded(before, start, dst) && !(source <= dst) && !(dst <= source)
    ensures CopiedTo(before, now, source, dst)
    ensures var files := FilesBelow(Subtree(before, source), source); files * visited == files
  {
    StartOfCopy(before, start, source, dst);
    forall p | p in start && source <= p
      ensures p in visited && p in before && before[p] == start[p]
    {
      WalkReachesAll(start, source, visited, p);
      assert p in Subtree(start, source);
    }
    forall p | p in now && p !in before && dst < p
      ensures Moved(p, dst, source) in before && source < Moved(p, dst, source)
    {
      assert p !in start;
      MovedBack(p, dst, source);
    }
  }

  /** What is known of an entry that the walk is about to visit. */
  lemma BeforeStep(
    before: Entries, start: Entries, now: Entries, source: Path, dst: Path, visited: set<Path>, path: Path)
    requires TreeShaped(start) && Progress(start, now, source, dst, visited) && IsDir(now, dst)
    requires path in Pending(now, source, visited) && !(source <= dst) && !(dst <= source)
    requires Extends(before, start, dst) && Subtree(start, source) == Subtree(before, source)
    ensures path !in visited && source < path && path in now && path in start && path in before
    ensures now[path] == start[path] == before[path]
    ensures var place := Moved(path, source, dst);
            place != [] && dst <= place && IsDir(now, place[..|place| - 1])
    ensures NothingBelow(start, dst) ==> Moved(path, source, dst) !in now
    ensures SymlinkFree(before, source) ==> !now[path].Symlink?
    ensures Extends(before, now, dst) && Subtree(now, source) == Subtree(start, source)
  {
    hide TreeShaped, FilesBelow;
    ProgressExtends(start, now, source, dst, visited);
    assert path in Subtree(now, source) && path in Subtree(before, source);
    PlaceIsReady(start, now, source, dst, visited, path);
    ExtendingTwice(before, start, now, dst);
  }

  function Visit(s: Summary, source: Path, path: Path, entry: Entry, listed: bool): Summary
    requires source <= path
  {
    if !entry.File? then s else
    Summary(s.fileCount + 1, s.totalBytes + |entry.bytes|,
      if listed then s.files + [FileInfo(path[|source|..], |entry.bytes|)] else s.files)
  }

  lemma AfterStep(
    before: Entries, start: Entries, now: Entries, source: Path, dst: Path, visited: set<Path>, path: Path,
    listed: bool, sum: Summary)
    requires Progress(start, now, source, dst, visited) && path !in visited && source < path && path in before
    requires path in start && before[path] == start[path] && !start[path].Symlink? && IsDir(now, dst)
    requires Moved(path, source, dst) in now ==> now[Moved(path, source, dst)] == start[path]
    requires forall v | v in visited :: PathLess(v, path)
    requires var tree := Subtree(before, source);
             Tallied(tree, source, FilesBelow(tree, source) * visited, listed, sum)
    ensures var after := now[Moved(path, source, dst) := start[path]];
            Progress(start, after, source, dst, visited + {path}) && IsDir(after, dst)
    ensures var tree := Subtree(before, source);
            Tallied(tree, source, FilesBelow(tree, source) * (visited + {path}), listed,
              Visit(sum, source, path, start[path], listed))
  {
    hide Progress, Tallied, Moved, PathLess;
    var tree := Subtree(before, source);
    var files := FilesBelow(tree, source);
    ProgressOneMore(start, now, source, dst, visited, path);
    assert path in tree;
    hide Subtree;
    if start[path].File? {
      TallyOneMore(tree, source, files * visited, listed, sum, path);
      assert files * (visited + {path}) == files * visited + {path};
    } else {
      assert files * (visited + {path}) == files * visited;
    }
  }

  ghost predicate CanTryToCopy(entries: Entries, source: Path, dst: Path) {
    source in entries && CanMakeDir(entries, dst) && NothingBelow(entries, dst)
  }

  lemma LinkIsFirst(
    before: Entries, start: Entries, now: Entries, source: Path, dst: Path, visited: set<Path>, path: Path)
    requires Progress(start, now, source, dst, visited) && VisitedInOrder(start, source, visited + {path})
    requires Subtree(start, source) == Subtree(before, source)
    requires path in before && source < path && before[path].Symlink?
    ensures FirstLink(before, source, path)
  {
    hide PathLess;
    forall q | q in before && source < q && before[q].Symlink? && q != path
      ensures PathLess(path, q)
    {
      assert q in Subtree(before, source);
      assert q in start && start[q] == before[q];
      assert q !in visited;
    }
  }

  method CopyDirectory(fs: FileSystem, source: Path, dst: Path, includeMetadata: bool, faults: Path -> Fault)
    returns (r: Result<Summary, CopyError>)
    requires TreeShaped(fs.entries) && !(source <= dst) && !(dst <= source)
    modifies fs
    ensures TreeShaped(fs.entries) && Extends(old(fs.entries), fs.entries, dst)
    ensures old(fs.history) <= fs.history
    ensures ExtendsThroughout(fs.history, |old(fs.history)|, old(fs.entries), dst)
    ensures r.Ok? ==> CopiedTo(old(fs.entries), fs.entries, source, dst)
    ensures r.Ok? ==> var tree := Subtree(old(fs.entries), source);
                      Tallied(tree, source, FilesBelow(tree, source), includeMetadata, r.value)
    ensures r.Err? && r.error.SymbolicLink? ==> FirstLink(old(fs.entries), source, r.error.path)
    ensures Flawless(faults) && CanCopy(old(fs.entries), source, dst) ==> r.Ok?
    // Without faults only a link stops a copy that has a source and a free destination.
    ensures Flawless(faults) && CanTryToCopy(old(fs.entries), source, dst) && r.Err? ==> r.error.SymbolicLink?
  {
    hide TreeShaped, Tallied, Progress, Pending, Subtree, FilesBelow, Extends, ExtendsThroughout, CopiedTo, DirsAdded,
      SymlinkFree, CanCopy, CanMakeDir, NothingBelow, Moved, VisitedInOrder, LeastOf, PathLess, FirstLink, CanTryToCopy;
    ghost var before, began := fs.entries, |fs.history|;
    var made := fs.MkdirAll(dst, faults);
    ghost var start, tree := fs.entries, Subtree(before, source);
    StartOfCopy(before, start, source, dst);
    DirsAddedThroughout(fs.history, began, before, dst);
    if !made { return Err(NoDestination); }
    if source !in fs.entries || faults(source) != NoFault { return Err(WalkFailed(source)); }

    var visited: set<Path> := {source};
    var sum := Summary(0, 0, []);
    NothingTallied(tree, source, includeMetadata);
    SourceComesFirst(start, source);
    var pending := Pending(fs.entries, source, visited);
    while pending != {}
      invariant TreeShaped(fs.entries) && IsDir(fs.entries, dst) && Extends(before, fs.entries, dst)
      invariant Progress(start, fs.entries, source, dst, visited)
      invariant pending == Pending(fs.entries, source, visited)
      invariant TreeShaped(start) && source in visited && VisitedInOrder(start, source, visited)
      invariant Tallied(tree, source, FilesBelow(tree, source) * visited, includeMetadata, sum)
      invariant old(fs.history) <= fs.history && ExtendsThroughout(fs.history, began, before, dst)
      decreases start.Keys - visited
    {
      ghost var least := LeastExists(pending);
      assert least in pending by { LeastIsIn(least, pending); }
      var path :| path in pending && LeastOf(path, pending);
      BeforeStep(before, start, fs.entries, source, dst, visited, path);
      StepInOrder(start, fs.entries, source, visited, path);
      ghost var now, states := fs.entries, fs.history;
      var copied := CopyEntry(fs, path, Moved(path, source, dst), faults);
      ExtendingOn(states, fs.history, began, before, now, fs.entries, Moved(path, source, dst), dst);
      if copied.Err? {
        if copied.error.SymbolicLink? { LinkIsFirst(before, start, now, source, dst, visited, path); }
        return Err(copied.error);
      }
      AfterStep(before, start, now, source, dst, visited, path, includeMetadata, sum);
      sum := Visit(sum, source, path, fs.entries[path], includeMetadata);
      visited := visited + {path};
      pending := Pending(fs.entries, source, visited);
    }
    CopyIsComplete(before, start, fs.entries, source, dst, visited);
    return Ok(sum);
  }

  lemma LeastIsIn(path: Path, paths: set<Path>)
    requires LeastOf(path, paths)
    ensures path in paths
  {
  }

  lemma NothingTallied(tree: Entries, source: Path, listed: bool)
    ensures Tallied(tree, source, {}, listed, Summary(0, 0, []))
  {
    assert multiset(PathsOf([], source)) == multiset{};
  }

  /** With nothing at the destination before, the copy is the source tree itself, moved. */
  lemma CopyIsExact(before: Entries, after: Entries, source: Path, dst: Path)
    requires CopiedTo(before, after, source, dst) && IsDir(before, source)
    requires NothingBelow(before, dst) && dst !in before
    ensures Subtree(after, dst) == Relocated(Subtree(before, source), source, dst)
  {
    var tree, copy := Subtree(before, source), Subtree(after, dst);
    var moved := Relocated(tree, source, dst);
    assert Moved(source, source, dst) == dst && Moved(dst, dst, source) == source;
    forall p | p in copy
      ensures p in moved && moved[p] == copy[p]
    {
      var origin := Moved(p, dst, source);
      MovedBack(p, dst, source);
      assert origin in tree && Moved(origin, source, dst) == p;
    }
    forall p | p in moved
      ensures p in copy
    {
      var origin := Moved(p, dst, source);
      MovedBack(p, dst, source);
      assert origin in tree && Moved(origin, source, dst) == p;
    }
  }

  // ---- The whole backup ----

  const SNAPSHOT := "persist"
  const MANIFEST := "backup_manifest.json"

  datatype Manifest = Manifest(source: Path, destination: Path, includeMetadata: bool, summary: Summary)

  datatype BackupError =
    SourceNotADirectory | InsideSource | DestinationUnusable | NotCopied(error: CopyError) | NoSnapshot | NoManifest

  lemma MadeMeansCouldBeMade(before: Entries, after: Entries, path: Path)
    requires DirsAdded(before, after, path) && TreeShaped(after) && IsDir(after, path)
    ensures CanMakeDir(before, path)
  {
    hide TreeShaped;
    forall k: nat | k <= |path| && path[..k] in before
      ensures before[path[..k]].Dir?
    {
      if k < |path| { AncestorsAreDirectories(after, path, k); } else { assert path[..k] == path; }
    }
  }

  method EnsureEmptyDir(fs: FileSystem, path: Path, faults: Path -> Fault) returns (ok: bool)
    requires TreeShaped(fs.entries)
    modifies fs
    ensures TreeShaped(fs.entries) && DirsAdded(old(fs.entries), fs.entries, path)
    ensures path in old(fs.entries) ==> fs.entries == old(fs.entries) && fs.history == old(fs.history)
    ensures old(fs.history) <= fs.history
    ensures ExtendsThroughout(fs.history, |old(fs.history)|, old(fs.entries), path)
    ensures ok ==> IsDir(fs.entries, path) && NothingBelow(fs.entries, path)
    ensures ok ==> CanMakeDir(old(fs.entries), path) && NothingBelow(old(fs.entries), path)
    ensures Flawless(faults) && CanMakeDir(old(fs.entries), path) && NothingBelow(old(fs.entries), path) ==> ok
  {
    ghost var before := fs.entries;
    if path !in fs.entries {
      NothingBelowTheMissing(before, path);
      ghost var began := |fs.history|;
      ok := fs.MkdirAll(path, faults);
      DirsAddedThroughout(fs.history, began, before, path);
      if ok { MadeMeansCouldBeMade(before, fs.entries, path); }
      return;
    }
    assert path[..|path|] == path;
    if !fs.entries[path].Dir? || faults(path) != NoFault { return false; }
    MadeMeansCouldBeMade(before, fs.entries, path);
    return !exists p | p in fs.entries :: path < p;
  }

  lemma NothingBelowTheMissing(entries: Entries, path: Path)
    requires TreeShaped(entries) && path !in entries
    ensures forall p | p in entries :: !(path <= p)
  {
    hide TreeShaped;
    forall p | p in entries && |path| <= |p|
      ensures !(path <= p)
    {
      if |path| < |p| { AncestorsAreDirectories(entries, p, |path|); } else { assert p[..|path|] == p; }
      assert path <= p <==> path == p[..|path|];
    }
  }

  /** What a finished backup leaves at its destination. */
  ghost predicate BackedUp(
    before: Entries, after: Entries, source: Path, exists': bool, dest: Path, encode: Manifest -> Bytes, m: Manifest)
  {
    var tree, snapshot := Subtree(before, source), dest + [SNAPSHOT];
    && m.source == source && m.destination == dest
    && Subtree(after, snapshot) == (if exists' then Relocated(tree, source, snapshot) else map[snapshot := Dir])
    && (if exists' then Tallied(tree, source, FilesBelow(tree, source), m.includeMetadata, m.summary)
        else m.summary == Summary(0, 0, []))
    && dest + [MANIFEST] in after && after[dest + [MANIFEST]] == File(encode(m))
    && forall p | p in after && dest < p :: snapshot <= p || p == dest + [MANIFEST]
  }

  /** A link is reported only if it is the first one, and without faults nothing else stops a backup that has begun. */
  ghost predicate BackupErrorIsReal(
    entries: Entries, source: Path, exists': bool, faults: Path -> Fault, error: BackupError)
  {
    && (error.NotCopied? || error.NoSnapshot? || error.NoManifest?) && (error.NotCopied? ==> exists')
    && (error.NotCopied? && error.error.SymbolicLink? ==> FirstLink(entries, source, error.error.path))
    && (Flawless(faults) ==> error.NotCopied? && error.error.SymbolicLink?)
  }

  method WriteSnapshot(
    fs: FileSystem, source: Path, exists': bool, dest: Path, includeMetadata: bool, faults: Path -> Fault)
    returns (r: Result<Summary, BackupError>)
    requires TreeShaped(fs.entries) && IsDir(fs.entries, dest) && NothingBelow(fs.entries, dest)
    requires exists' ==> IsDir(fs.entries, source) && !(source <= dest + [SNAPSHOT])
    modifies fs
    ensures TreeShaped(fs.entries) && Extends(old(fs.entries), fs.entries, dest + [SNAPSHOT])
    ensures old(fs.history) <= fs.history
    ensures ExtendsThroughout(fs.history, |old(fs.history)|, old(fs.entries), dest + [SNAPSHOT])
    ensures r.Ok? ==>
              var tree, snapshot := Subtree(old(fs.entries), source), dest + [SNAPSHOT];
              && Subtree(fs.entries, snapshot) == (if exists' then Relocated(tree, source, snapshot) else map[snapshot := Dir])
              && if exists' then Tallied(tree, source, FilesBelow(tree, source), includeMetadata, r.value)
                 else r.value == Summary(0, 0, [])
    ensures r.Ok? && exists' ==> SymlinkFree(old(fs.entries), source)
    ensures Flawless(faults) && (exists' ==> SymlinkFree(old(fs.entries), source)) ==> r.Ok?
    ensures r.Err? ==> BackupErrorIsReal(old(fs.entries), source, exists', faults, r.error)
  {
    hide TreeShaped, Tallied, Extends;
    var snapshot := dest + [SNAPSHOT];
    ghost var before, began := fs.entries, |fs.history|;
    SnapshotIsFree(before, source, dest);
    if exists' {
      var copied := CopyDirectory(fs, source, snapshot, includeMetadata, faults);
      if copied.Err? { return Err(NotCopied(copied.error)); }
      CopyIsExact(before, fs.entries, source, snapshot);
      return Ok(copied.value);
    }
    var made := fs.MkdirAll(snapshot, faults);
    DirsAddedThroughout(fs.history, began, before, snapshot);
    DirsAddedFurther(before, fs.entries, snapshot, snapshot);
    if !made { return Err(NoSnapshot); }
    return Ok(Summary(0, 0, []));
  }

  lemma SnapshotIsFree(entries: Entries, source: Path, dest: Path)
    requires TreeShaped(entries) && IsDir(entries, dest) && NothingBelow(entries, dest)
    ensures var snapshot := dest + [SNAPSHOT];
            && snapshot !in entries && NothingBelow(entries, snapshot) && CanMakeDir(entries, snapshot)
            && snapshot[..|snapshot| - 1] == dest
    ensures source in entries && !(source <= dest + [SNAPSHOT]) ==> !(dest + [SNAPSHOT] <= source) && !(dest <= source)
    ensures !(source <= dest + [SNAPSHOT]) ==> !(source <= dest)
  {
    hide TreeShaped;
    var snapshot := dest + [SNAPSHOT];
    assert snapshot[..|snapshot| - 1] == dest && dest <= snapshot && snapshot != dest;
    assert snapshot !in entries;
    NothingInTheWay(entries, snapshot);
    forall p | p in entries
      ensures !(snapshot <= p)
    {
      PrefixesChain(dest, snapshot, p);
    }
    PrefixesChain(dest, snapshot, source);
    if source <= dest { PrefixesChain(source, dest, snapshot); }
  }

  /** What a backup needs of the file system. */
  ghost predicate BackupPossible(entries: Entries, source: Path, dest: Path) {
    && !(source <= dest + [SNAPSHOT])
    && (source in entries ==> entries[source].Dir? && SymlinkFree(entries, source))
    && CanMakeDir(entries, dest) && NothingBelow(entries, dest)
  }

  /** The source tree is what it was in every state from `start` on. */
  ghost predicate SourceIntact(states: seq<Entries>, start: nat, before: Entries, source: Path) {
    start <= |states| && forall i | start <= i < |states| :: Subtree(states[i], source) == Subtree(before, source)
  }

  lemma ExtendingSparesTheSource(states: seq<Entries>, start: nat, before: Entries, source: Path, dest: Path)
    requires ExtendsThroughout(states, start, before, dest) && !(source <= dest) && !(dest <= source)
    ensures SourceIntact(states, start, before, source)
  {
    forall i | start <= i < |states|
      ensures Subtree(states[i], source) == Subtree(before, source)
    {
      ElsewhereIsUntouched(before, states[i], dest, source);
    }
  }

  lemma LinksAreInTheSubtree(entries: Entries, root: Path)
    ensures SymlinkFree(entries, root) <==> SymlinkFree(Subtree(entries, root), root)
  {
    var tree := Subtree(entries, root);
    assert forall path | path in entries && root < path :: path in tree && tree[path] == entries[path];
  }

  /** A source that exists is neither above nor below a destination that was empty or absent. */
  lemma SourceIsApart(before: Entries, ready: Entries, source: Path, dest: Path)
    requires DirsAdded(before, ready, dest) && NothingBelow(before, dest)
    requires !(source <= dest + [SNAPSHOT])
    ensures !(source <= dest)
    ensures source in before ==> !(dest <= source)
    ensures source in before ==> Subtree(ready, source) == Subtree(before, source)
    ensures source in before ==> (SymlinkFree(ready, source) <==> SymlinkFree(before, source))
  {
    assert dest <= dest + [SNAPSHOT];
    if source <= dest { PrefixesChain(source, dest, dest + [SNAPSHOT]); }
    if source in before {
      DirsAddedFurther(before, ready, dest, dest);
      ElsewhereIsUntouched(before, ready, dest, source);
      LinksAreInTheSubtree(before, source);
      LinksAreInTheSubtree(ready, source);
    }
  }

  /** The copy and the manifest, at a destination that is an empty directory. */
  method ExecuteBackup(
    fs: FileSystem, source: Path, exists': bool, dest: Path, includeMetadata: bool, encode: Manifest -> Bytes,
    faults: Path -> Fault)
    returns (r: Result<Manifest, BackupError>)
    requires TreeShaped(fs.entries) && IsDir(fs.entries, dest) && NothingBelow(fs.entries, dest)
    requires exists' ==> IsDir(fs.entries, source) && !(source <= dest + [SNAPSHOT])
    modifies fs
    ensures TreeShaped(fs.entries) && Extends(old(fs.entries), fs.entries, dest)
    ensures old(fs.history) <= fs.history
    ensures ExtendsThroughout(fs.history, |old(fs.history)|, old(fs.entries), dest)
    ensures r.Ok? ==>
              && r.value.includeMetadata == includeMetadata
              && BackedUp(old(fs.entries), fs.entries, source, exists', dest, encode, r.value)
    ensures r.Ok? && exists' ==> SymlinkFree(old(fs.entries), source)
    ensures Flawless(faults) && (exists' ==> SymlinkFree(old(fs.entries), source)) ==> r.Ok?
    ensures r.Err? ==> BackupErrorIsReal(old(fs.entries), source, exists', faults, r.error)
  {
    hide TreeShaped, Tallied, Extends, ExtendsThroughout, Subtree, FilesBelow, SymlinkFree, Relocated, BackedUp, NothingBelow,
      FirstLink;
    ghost var ready, began, readied := fs.entries, |fs.history|, fs.history;
    NothingHappened(readied, ready, source, dest);
    var copied := WriteSnapshot(fs, source, exists', dest, includeMetadata, faults);
    ghost var snapped, states := fs.entries, fs.history;
    ExtendingOn(readied, states, began, ready, ready, snapped, dest + [SNAPSHOT], dest);
    if copied.Err? { return Err(copied.error); }
    var manifest := Manifest(source, dest, includeMetadata, copied.value);
    ManifestIsFree(ready, snapped, dest);
    var written := fs.CreateFile(dest + [MANIFEST], encode(manifest), faults);
    ExtendingOn(states, fs.history, began, ready, snapped, fs.entries, dest + [MANIFEST], dest);
    if !written { return Err(NoManifest); }
    BackupIsComplete(ready, snapped, source, exists', dest, encode, manifest);
    return Ok(manifest);
  }

  method Backup(
    fs: FileSystem, source: Path, dest: Path, includeMetadata: bool, encode: Manifest -> Bytes, faults: Path -> Fault)
    returns (r: Result<Manifest, BackupError>)
    requires TreeShaped(fs.entries) && Clean(source) && Clean(dest)
    modifies fs
    ensures TreeShaped(fs.entries) && Extends(old(fs.entries), fs.entries, dest)
    ensures old(fs.history) <= fs.history
    ensures ExtendsThroughout(fs.history, |old(fs.history)|, old(fs.entries), dest)
    ensures source in old(fs.entries) ==>
              SourceIntact(fs.history, |old(fs.history)|, old(fs.entries), source)
    ensures r.Ok? ==>
              && BackupPossible(old(fs.entries), source, dest) && r.value.includeMetadata == includeMetadata
              && BackedUp(old(fs.entries), fs.entries, source, source in old(fs.entries), dest, encode, r.value)
    ensures Flawless(faults) && BackupPossible(old(fs.entries), source, dest) ==> r.Ok?
    // Each refusal for its cause, and without faults there is no other error than a refusal or the first link.
    ensures r == Err(SourceNotADirectory) <==> source in old(fs.entries) && !old(fs.entries)[source].Dir?
    ensures r == Err(InsideSource) <==> r != Err(SourceNotADirectory) && source <= dest + [SNAPSHOT]
    ensures Flawless(faults) && r == Err(DestinationUnusable) ==>
              !(CanMakeDir(old(fs.entries), dest) && NothingBelow(old(fs.entries), dest))
    ensures r.Err? && !r.error.SourceNotADirectory? && !r.error.InsideSource? && !r.error.DestinationUnusable? ==>
              BackupErrorIsReal(old(fs.entries), source, source in old(fs.entries), faults, r.error)
  {
    hide TreeShaped, Tallied, Extends, ExtendsThroughout, DirsAdded, Subtree, FilesBelow, SymlinkFree, CanMakeDir,
      Relocated, BackedUp, NothingBelow, SourceIntact, IsWithinPath, Clean, FirstLink, BackupErrorIsReal;
    ghost var before, began := fs.entries, |fs.history|;
    var exists' := source in fs.entries;
    NothingHappened(fs.history, before, source, dest);
    if exists' && !fs.entries[source].Dir? { return Err(SourceNotADirectory); }
    SnapshotIsClean(dest);
    IsWithinPathIsPrefix(dest + [SNAPSHOT], source);
    if IsWithinPath(dest + [SNAPSHOT], source) { return Err(InsideSource); }

    var empty := EnsureEmptyDir(fs, dest, faults);
    ghost var ready, readied := fs.entries, fs.history;
    DirsAddedFurther(before, ready, dest, dest);
    if empty || dest !in before {
      EmptyOrMissing(before, dest);
      SourceIsApart(before, ready, source, dest);
      if exists' { ExtendingSparesTheSource(readied, began, before, source, dest); }
    }
    if !empty { return Err(DestinationUnusable); }

    r := ExecuteBackup(fs, source, exists', dest, includeMetadata, encode, faults);
    ExtendingOn(readied, fs.history, began, before, ready, fs.entries, dest, dest);
    if exists' { ExtendingSparesTheSource(fs.history, began, before, source, dest); }
    if r.Err? { SameLinks(before, ready, source, exists', faults, r.error); }
    if r.Ok? { SameSourceBackedUp(before, ready, fs.entries, source, exists', dest, encode, r.value); }
  }

  lemma SameLinks(before: Entries, ready: Entries, source: Path, exists': bool, faults: Path -> Fault, error: BackupError)
    requires BackupErrorIsReal(ready, source, exists', faults, error)
    requires exists' ==> Subtree(ready, source) == Subtree(before, source)
    ensures BackupErrorIsReal(before, source, exists', faults, error)
    ensures !error.SourceNotADirectory? && !error.InsideSource? && !error.DestinationUnusable?
  {
    hide PathLess;
    if error.NotCopied? && error.error.SymbolicLink? {
      var link := error.error.path;
      assert link in Subtree(ready, source);
      forall q | q in before && source < q && before[q].Symlink?
        ensures q == link || PathLess(link, q)
      {
        assert q in Subtree(before, source);
      }
    }
  }

  lemma SameSourceBackedUp(
    before: Entries, ready: Entries, after: Entries, source: Path, exists': bool, dest: Path,
    encode: Manifest -> Bytes, m: Manifest)
    requires BackedUp(ready, after, source, exists', dest, encode, m)
    requires exists' ==> Subtree(ready, source) == Subtree(before, source)
    ensures BackedUp(before, after, source, exists', dest, encode, m)
  {
    hide Tallied, Relocated, FilesBelow;
  }

  lemma EmptyOrMissing(entries: Entries, path: Path)
    requires TreeShaped(entries)
    ensures path !in entries ==> NothingBelow(entries, path)
  {
    if path !in entries { NothingBelowTheMissing(entries, path); }
  }

  lemma NothingHappened(states: seq<Entries>, entries: Entries, source: Path, dest: Path)
    ensures Extends(entries, entries, dest)
    ensures ExtendsThroughout(states, |states|, entries, dest) && SourceIntact(states, |states|, entries, source)
  {
  }

  lemma SnapshotIsClean(dest: Path)
    requires Clean(dest)
    ensures Clean(dest + [SNAPSHOT])
  {
  }

  lemma ManifestIsFree(ready: Entries, snapped: Entries, dest: Path)
    requires Extends(ready, snapped, dest + [SNAPSHOT]) && NothingBelow(ready, dest) && IsDir(ready, dest)
    ensures dest + [MANIFEST] !in snapped && IsDir(snapped, dest)
    ensures (dest + [MANIFEST])[..|dest + [MANIFEST]| - 1] == dest
  {
    assert dest + [MANIFEST] != dest && dest <= dest + [MANIFEST];
    assert (dest + [MANIFEST])[|dest|] != (dest + [SNAPSHOT])[|dest|];
  }

  lemma BackupIsComplete(
    ready: Entries, snapped: Entries, source: Path, exists': bool, dest: Path,
    encode: Manifest -> Bytes, m: Manifest)
    requires m.source == source && m.destination == dest
    requires NothingBelow(ready, dest) && Extends(ready, snapped, dest + [SNAPSHOT])
    requires var tree, snapshot := Subtree(ready, source), dest + [SNAPSHOT];
             && Subtree(snapped, snapshot) == (if exists' then Relocated(tree, source, snapshot) else map[snapshot := Dir])
             && if exists' then Tallied(tree, source, FilesBelow(tree, source), m.includeMetadata, m.summary)
                else m.summary == Summary(0, 0, [])
    ensures BackedUp(ready, snapped[dest + [MANIFEST] := File(encode(m))], source, exists', dest, encode, m)
  {
    hide Tallied, Relocated;
    var snapshot, manifest := dest + [SNAPSHOT], dest + [MANIFEST];
    var after := snapped[manifest := File(encode(m))];
    assert manifest[|dest|] != snapshot[|dest|];
    assert !(snapshot <= manifest);
    assert Subtree(after, snapshot) == Subtree(snapped, snapshot);
    assert forall p | p in after && dest < p :: p !in ready;
  }
}
