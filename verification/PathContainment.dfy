/**
 Which paths lie inside which, as the backup decides it. A path is the list of the segments of a cleaned
 absolute path; relative paths are strings, as the code compares them.
 */
module PathContainment {
  import opened Outcomes

  type Path = seq<string>

  /** A segment of a cleaned path. It may well start with two dots. */
  predicate CleanName(name: string) {
    name != "" && name != "." && name != ".." && '/' !in name
  }

  predicate Clean(path: Path) {
    forall i | 0 <= i < |path| :: CleanName(path[i])
  }

  function Join(segments: seq<string>): string {
    if segments == [] then ""
    else if |segments| == 1 then segments[0]
    else segments[0] + "/" + Join(segments[1..])
  }

  function CommonLength(a: Path, b: Path): nat {
    if a == [] || b == [] || a[0] != b[0] then 0 else 1 + CommonLength(a[1..], b[1..])
  }

  function Ups(n: nat): seq<string> {
    if n == 0 then [] else [".."] + Ups(n - 1)
  }

  lemma {:induction false} CommonLengthBounds(a: Path, b: Path)
    ensures CommonLength(a, b) <= |a| && CommonLength(a, b) <= |b|
    ensures a[..CommonLength(a, b)] == b[..CommonLength(a, b)]
    ensures CommonLength(a, b) == |a| <==> a <= b
  {
    if a != [] && b != [] && a[0] == b[0] {
      CommonLengthBounds(a[1..], b[1..]);
      var n := CommonLength(a[1..], b[1..]);
      assert a[..n + 1] == [a[0]] + a[1..][..n] && b[..n + 1] == [b[0]] + b[1..][..n];
      assert a[1..] <= b[1..] <==> a <= b by {
        if a[1..] <= b[1..] {
          assert a == [a[0]] + a[1..] && b[..|a|] == [b[0]] + b[1..][..|a| - 1];
        }
        if a <= b {
          assert a[1..] == b[..|a|][1..] == b[1..][..|a| - 1];
        }
      }
    }
  }

  /** The relative path from `base` to `target`. */
  function Rel(base: Path, target: Path): string {
    CommonLengthBounds(base, target);
    var n := CommonLength(base, target);
    if base == target then "." else Join(Ups(|base| - n) + target[n..])
  }

  predicate IsWithinPath(path: Path, parent: Path) {
    var rel := Rel(parent, path);
    if rel == "." then true else rel != ".." && !("../" <= rel)
  }

  lemma {:induction false} SlashAfterFirst(segments: seq<string>)
    requires segments != []
    ensures segments[0] <= Join(segments)
    ensures |segments| == 1 ==> Join(segments) == segments[0]
    ensures |segments| > 1 ==> |Join(segments)| > |segments[0]| && Join(segments)[|segments[0]|] == '/'
  {
  }

  /** A relative path that starts with a proper name does not look like one that goes up. */
  lemma DownwardStaysDown(segments: seq<string>)
    requires segments != [] && CleanName(segments[0])
    ensures Join(segments) != ".." && !("../" <= Join(segments))
  {
    SlashAfterFirst(segments);
    var name, rel := segments[0], Join(segments);
    assert forall i | 0 <= i < |name| :: rel[i] == name[i] && name[i] != '/';
    if ".." <= rel && |name| >= 2 {
      assert name[..2] == rel[..2] == "..";
      assert name[..|name|] == name;
      assert rel[2] != '/';
    }
    if |name| == 1 {
      assert name == [name[0]];
    }
  }

  /**
   The string test decides containment exactly: a path is within a parent when the parent's segments are the
   first segments of the path. Names that merely start with two dots are no obstacle.
   */
  lemma IsWithinPathIsPrefix(path: Path, parent: Path)
    requires Clean(path) && Clean(parent)
    ensures IsWithinPath(path, parent) <==> parent <= path
  {
    CommonLengthBounds(parent, path);
    var n := CommonLength(parent, path);
    if parent == path {
    } else if parent <= path {
      assert Ups(0) + path[n..] == path[n..];
      DownwardStaysDown(path[n..]);
    } else {
      var segments := Ups(|parent| - n) + path[n..];
      assert segments[0] == "..";
      SlashAfterFirst(segments);
      var rel := Join(segments);
      assert rel[..2] == "..";
      if |segments| > 1 {
        assert rel[2] == '/';
        assert rel[..3] == "../";
      }
    }
  }

  // ---- Resolving paths that do not exist yet ----

  /** The answer of the standard library for a path: fully resolved, missing somewhere, or another error. */
  datatype Evaluation = Resolved(path: Path) | Missing | Failed

  function EvalSymlinksWithMissingSegments(eval: Path -> Evaluation, path: Path): Result<Path, ()>
    decreases |path|
  {
    match eval(path)
    case Resolved(resolved) => Ok(resolved)
    case Failed => Err(())
    case Missing =>
      if path == [] then Ok(path) else
      match EvalSymlinksWithMissingSegments(eval, path[..|path| - 1])
      case Err(_) => Err(())
      case Ok(parent) => Ok(parent + [path[|path| - 1]])
  }

  /** Nothing below the first `k` segments resolves. */
  ghost predicate MissingBelow(eval: Path -> Evaluation, path: Path, k: nat) {
    k <= |path| && forall j | k < j <= |path| :: eval(path[..j]).Missing?
  }

  /**
   Resolution finds the longest ancestor that is not missing: if that resolves, the missing segments are
   appended to it; if it fails to resolve, so does the path; if even the root is missing, the path stays.
   */
  lemma {:induction false} ResolvesLongestAncestor(eval: Path -> Evaluation, path: Path, k: nat)
    requires MissingBelow(eval, path, k)
    ensures eval(path[..k]).Resolved? ==>
              EvalSymlinksWithMissingSegments(eval, path) == Ok(eval(path[..k]).path + path[k..])
    ensures eval(path[..k]).Failed? ==> EvalSymlinksWithMissingSegments(eval, path).Err?
    ensures eval(path[..k]).Missing? && k == 0 ==> EvalSymlinksWithMissingSegments(eval, path) == Ok(path)
    decreases |path|
  {
    if k == |path| {
      assert path[..k] == path;
      if eval(path).Resolved? {
        assert eval(path).path + path[k..] == eval(path).path;
      }
    } else {
      var parent, last := path[..|path| - 1], path[|path| - 1];
      assert path[..|path|] == path;
      forall j | k < j <= |parent|
        ensures eval(parent[..j]).Missing?
      {
        assert parent[..j] == path[..j];
      }
      ResolvesLongestAncestor(eval, parent, k);
      assert parent[..k] == path[..k];
      assert parent[k..] + [last] == path[k..];
      if eval(path[..k]).Resolved? {
        assert eval(path[..k]).path + parent[k..] + [last] == eval(path[..k]).path + path[k..];
      }
      assert parent + [last] == path;
    }
  }

  /** Without dangling links, a path is missing exactly when it does not exist. */
  ghost predicate NoDanglingLinks(eval: Path -> Evaluation, exists': iset<Path>) {
    forall path :: eval(path).Missing? <==> path !in exists'
  }

  /** Nothing exists below a path that does not. */
  ghost predicate AncestorsExist(exists': iset<Path>) {
    forall path: Path, k: nat | k <= |path| && path[..k] !in exists' :: path !in exists'
  }

  /** Below the longest existing ancestor everything is missing. */
  lemma MissingBelowAncestor(eval: Path -> Evaluation, exists': iset<Path>, path: Path, k: nat, j: nat)
    requires NoDanglingLinks(eval, exists') && AncestorsExist(exists')
    requires k < j <= |path| && path[..k + 1] !in exists'
    ensures eval(path[..j]).Missing?
  {
    var longer := path[..j];
    assert longer[..k + 1] == path[..k + 1];
    assert k + 1 <= |longer| && longer[..k + 1] !in exists';
  }

  lemma AncestorIsResolved(eval: Path -> Evaluation, exists': iset<Path>, path: Path, k: nat)
    requires NoDanglingLinks(eval, exists') && AncestorsExist(exists')
    requires k <= |path| && (k < |path| ==> path[..k + 1] !in exists')
    ensures MissingBelow(eval, path, k)
  {
    hide NoDanglingLinks, AncestorsExist;
    forall j | k < j <= |path|
      ensures eval(path[..j]).Missing?
    {
      MissingBelowAncestor(eval, exists', path, k, j);
    }
  }

  /**
   Without dangling links the missing segments are those below the longest existing ancestor, and the
   containment test on two resolved paths compares their segments.
   */
  lemma ContainmentOfResolvedPaths(eval: Path -> Evaluation, exists': iset<Path>, path: Path, k: nat, parent: Path)
    requires NoDanglingLinks(eval, exists') && AncestorsExist(exists')
    requires k <= |path| && path[..k] in exists' && (k < |path| ==> path[..k + 1] !in exists')
    requires eval(path[..k]).Resolved? && Clean(eval(path[..k]).path) && Clean(path) && Clean(parent)
    ensures var resolved := EvalSymlinksWithMissingSegments(eval, path);
            && resolved == Ok(eval(path[..k]).path + path[k..])
            && (IsWithinPath(resolved.value, parent) <==> parent <= eval(path[..k]).path + path[k..])
  {
    AncestorIsResolved(eval, exists', path, k);
    hide NoDanglingLinks, AncestorsExist, MissingBelow, EvalSymlinksWithMissingSegments, IsWithinPath;
    var resolved := eval(path[..k]).path + path[k..];
    ResolvesLongestAncestor(eval, path, k);
    assert Clean(resolved);
    IsWithinPathIsPrefix(resolved, parent);
  }
}
