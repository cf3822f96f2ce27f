/** The order in which a directory walk visits paths: a directory before what it holds, siblings by name. */
module PathOrder {
  import opened PathContainment

  predicate NameLess(a: string, b: string) {
    b != "" && (a == "" || a[0] < b[0] || (a[0] == b[0] && NameLess(a[1..], b[1..])))
  }

  predicate PathLess(a: Path, b: Path) {
    b != [] && (a == [] || NameLess(a[0], b[0]) || (a[0] == b[0] && PathLess(a[1..], b[1..])))
  }

  /** The first character that differs decides, the smaller one coming first. */
  lemma {:induction false} FirstCharacterDecides(a: string, b: string, k: nat)
    requires k < |a| && k < |b| && a[..k] == b[..k] && a[k] < b[k]
    ensures NameLess(a, b)
  {
    if k > 0 {
      assert a[0] == a[..k][0] == b[..k][0] == b[0];
      assert a[1..][..k - 1] == a[..k][1..] == b[..k][1..] == b[1..][..k - 1];
      FirstCharacterDecides(a[1..], b[1..], k - 1);
    }
  }

  /** Two paths that part at a directory are ordered by the names in it, whatever lies below them. */
  lemma {:induction false} SiblingsDecide(a: Path, b: Path, k: nat)
    requires k < |a| && k < |b| && a[..k] == b[..k] && NameLess(a[k], b[k])
    ensures PathLess(a, b)
  {
    if k > 0 {
      assert a[0] == a[..k][0] == b[..k][0] == b[0];
      assert a[1..][..k - 1] == a[..k][1..] == b[..k][1..] == b[1..][..k - 1];
      SiblingsDecide(a[1..], b[1..], k - 1);
    }
  }

  lemma {:induction false} NamesAreOrdered(a: string, b: string)
    ensures a != b ==> NameLess(a, b) || NameLess(b, a)
    ensures !(NameLess(a, b) && NameLess(b, a)) && !NameLess(a, a)
  {
    if a != "" {
      NamesAreOrdered(a[1..], if b == "" then "" else b[1..]);
      if b != "" && a[0] == b[0] {
        assert a[1..] == b[1..] ==> a == [a[0]] + a[1..] == b;
      }
    }
  }

  lemma {:induction false} NamesChain(a: string, b: string, c: string)
    requires NameLess(a, b) && NameLess(b, c)
    ensures NameLess(a, c)
  {
    if a != "" && a[0] == b[0] == c[0] {
      NamesChain(a[1..], b[1..], c[1..]);
    }
  }

  lemma {:induction false} PathsAreOrdered(a: Path, b: Path)
    ensures a != b ==> PathLess(a, b) || PathLess(b, a)
    ensures !(PathLess(a, b) && PathLess(b, a)) && !PathLess(a, a)
  {
    if a != [] {
      NamesAreOrdered(a[0], if b == [] then "" else b[0]);
      PathsAreOrdered(a[1..], if b == [] then [] else b[1..]);
      if b != [] && a[0] == b[0] {
        assert a[1..] == b[1..] ==> a == [a[0]] + a[1..] == b;
      }
    }
  }

  lemma {:induction false} PathsChain(a: Path, b: Path, c: Path)
    requires PathLess(a, b) && PathLess(b, c)
    ensures PathLess(a, c)
  {
    if a != [] {
      if NameLess(a[0], b[0]) && NameLess(b[0], c[0]) {
        NamesChain(a[0], b[0], c[0]);
      } else if a[0] == b[0] == c[0] {
        NamesAreOrdered(a[0], a[0]);
        PathsChain(a[1..], b[1..], c[1..]);
      }
    }
  }

  /** A directory comes before everything it holds. */
  lemma {:induction false} DirectoriesComeFirst(a: Path, b: Path)
    requires a < b
    ensures PathLess(a, b)
  {
    if a != [] {
      assert a[1..] < b[1..];
      DirectoriesComeFirst(a[1..], b[1..]);
    }
  }

  predicate LeastOf(path: Path, paths: set<Path>) {
    path in paths && forall q | q in paths :: q == path || PathLess(path, q)
  }

  lemma {:induction false} LeastExists(paths: set<Path>) returns (path: Path)
    requires paths != {}
    ensures LeastOf(path, paths)
  {
    var p :| p in paths;
    if paths == {p} {
      path := p;
    } else {
      path := LeastExists(paths - {p});
      PathsAreOrdered(p, path);
      if PathLess(p, path) {
        forall q | q in paths && q != p
          ensures PathLess(p, q)
        {
          if q != path { PathsChain(p, path, q); }
        }
        path := p;
      }
    }
  }

  /** No path twice, and all in the order of the walk. */
  ghost predicate InWalkOrder(paths: seq<Path>) {
    forall i, j | 0 <= i < j < |paths| :: PathLess(paths[i], paths[j])
  }

  lemma OneMoreInWalkOrder(paths: seq<Path>, path: Path)
    requires InWalkOrder(paths) && forall p | p in paths :: PathLess(p, path)
    ensures InWalkOrder(paths + [path])
  {
  }

  lemma FirstInWalkOrder(paths: seq<Path>, path: Path)
    requires InWalkOrder(paths) && path in paths
    ensures path == paths[0] || PathLess(paths[0], path)
    ensures InWalkOrder(paths[1..])
  {
  }

  lemma RestAsMultiset(paths: seq<Path>)
    requires paths != []
    ensures multiset(paths[1..]) == multiset(paths) - multiset{paths[0]}
  {
    assert paths == [paths[0]] + paths[1..];
  }

  lemma SameSize(a: seq<Path>, b: seq<Path>)
    requires multiset(a) == multiset(b)
    ensures |a| == |b|
  {
    assert |a| == |multiset(a)| == |multiset(b)| == |b|;
  }

  /** A set of paths has one listing in this order. */
  lemma {:induction false} WalkOrderIsUnique(a: seq<Path>, b: seq<Path>)
    requires InWalkOrder(a) && InWalkOrder(b) && multiset(a) == multiset(b)
    ensures a == b
  {
    hide PathLess, InWalkOrder;
    SameSize(a, b);
    if a != [] {
      var first, other := a[0], b[0];
      assert first in multiset(b) && other in multiset(a);
      FirstInWalkOrder(a, other);
      FirstInWalkOrder(b, first);
      PathsAreOrdered(first, other);
      assert first == other;
      RestAsMultiset(a);
      RestAsMultiset(b);
      WalkOrderIsUnique(a[1..], b[1..]);
      assert a == [first] + a[1..] && b == [first] + b[1..];
    }
  }
}
