/**
 * Module-path resolution of the browser loader (`resolvePathArray`, the same
 * code in both versions of meat.js): a '/'-separated path is resolved against
 * the requiring module's directory into an array of path segments.
 */
module Paths {
  import opened Text

  /** Segments as `split('/')` produces them. */
  predicate Unslashed(segs: seq<string>)
  {
    forall i | 0 <= i < |segs| :: '/' !in segs[i]
  }

  /** A resolved path: every segment names something. */
  predicate Normal(p: seq<string>)
  {
    forall i | 0 <= i < |p| :: IsName(p[i])
  }

  /** One turn of the loop: '..' pops (nothing on an empty path), '.' and '' are skipped. */
  function Step(cps: seq<string>, c: string): seq<string>
  {
    if c == ".." then (if |cps| == 0 then [] else cps[..|cps| - 1])
    else if c != "." && c != "" then cps + [c]
    else cps
  }

  /** The segments applied left to right to a starting path. */
  function Walk(cps: seq<string>, segs: seq<string>): seq<string>
    decreases |segs|
  {
    if |segs| == 0 then cps
    else Step(Walk(cps, segs[..|segs| - 1]), segs[|segs| - 1])
  }

  /** The path to start from: the current directory only for a path beginning '.' or '..'. */
  function Base(spl: seq<string>, currentPath: string): seq<string>
    requires |spl| >= 1
  {
    if spl[0] != "." && spl[0] != ".." then []
    else if currentPath == "" then []
    else Split(currentPath, '/')
  }

  /** What `resolvePathArray(path, currentPath)` returns. */
  function Resolve(path: string, currentPath: string): (r: seq<string>)
    ensures currentPath == "" || Normal(Split(currentPath, '/')) ==> Normal(r)
  {
    var spl := Split(path, '/');
    var r := Walk(Base(spl, currentPath), spl);
    assert currentPath == "" || Normal(Split(currentPath, '/')) ==> Normal(r) by {
      if currentPath == "" || Normal(Split(currentPath, '/')) {
        WalkKeepsNormal(Base(spl, currentPath), spl);
      }
    }
    r
  }

  /** `resolvePathArray`: the push/pop loop over the segments of `path`. */
  method ResolvePathArray(path: string, currentPath: string) returns (cps: seq<string>)
    ensures cps == Resolve(path, currentPath)
    ensures currentPath == "" || Normal(Split(currentPath, '/')) ==> Normal(cps)
  {
    var spl := Split(path, '/');
    cps := if currentPath == "" then [] else Split(currentPath, '/');
    var l := |spl|;
    if l > 0 {
      var c := spl[0];
      if c != "." && c != ".." {
        cps := [];
      }
      var i := 0;
      while i < l
        invariant 0 <= i <= l
        invariant cps == Walk(Base(spl, currentPath), spl[..i])
      {
        c := spl[i];
        if c == ".." {
          if |cps| > 0 {
            cps := cps[..|cps| - 1];
          }
        } else if c != "." && c != "" {
          cps := cps + [c];
        }
        assert spl[..i + 1][..i] == spl[..i];
        i := i + 1;
      }
      assert spl[..l] == spl;
    }
  }

  lemma {:induction false} WalkKeepsNormal(cps: seq<string>, segs: seq<string>)
    requires Normal(cps) && Unslashed(segs)
    ensures Normal(Walk(cps, segs))
    decreases |segs|
  {
    if |segs| > 0 {
      WalkKeepsNormal(cps, segs[..|segs| - 1]);
    }
  }

  /** A path whose first segment is neither '.' nor '..' ignores the current directory. */
  lemma AbsoluteOverride(path: string, dir1: string, dir2: string)
    requires var first := Split(path, '/')[0]; first != "." && first != ".."
    ensures Resolve(path, dir1) == Resolve(path, dir2)
    ensures Resolve(path, dir1) == Walk([], Split(path, '/'))
  {
  }

  lemma {:induction false} WalkNames(cps: seq<string>, segs: seq<string>)
    requires Normal(segs)
    ensures Walk(cps, segs) == cps + segs
    decreases |segs|
  {
    if |segs| > 0 {
      WalkNames(cps, segs[..|segs| - 1]);
      assert segs[..|segs| - 1] + [segs[|segs| - 1]] == segs;
    }
  }

  /** A resolved path, written out with '/', resolves to itself from any directory. */
  lemma ResolveJoined(segs: seq<string>, currentPath: string)
    requires Normal(segs)
    ensures Resolve(Join(segs, '/'), currentPath) == segs
  {
    if |segs| == 0 {
      assert Split("", '/') == [""];
      assert Walk([], [""]) == Step(Walk([], []), "");
    } else {
      SplitJoin(segs, '/');
      WalkNames([], segs);
    }
  }

  /** The path of two segments `a/b`, split. */
  lemma SplitPair(a: string, b: string)
    requires '/' !in a && '/' !in b
    ensures Split(a + "/" + b, '/') == [a, b]
  {
    SplitJoin([a, b], '/');
    assert Join([a, b], '/') == a + "/" + b;
  }

  /** `../x` from directory `pkg/sub` climbs out of `sub` into `pkg`. */
  lemma ResolveParent(x: string, pkg: string, sub: string)
    requires IsName(x) && IsName(pkg) && IsName(sub)
    ensures Resolve(".." + "/" + x, pkg + "/" + sub) == [pkg, x]
  {
    var segs := ["..", x];
    var cur := [pkg, sub];
    SplitPair("..", x);
    SplitPair(pkg, sub);
    assert Base(segs, pkg + "/" + sub) == cur;
    assert segs[..1] == [".."];
    assert Walk(cur, segs[..1]) == Step(Walk(cur, []), "..") == [pkg];
    assert Walk(cur, segs) == Step([pkg], x);
  }

  /** `./x` from directory `pkg/sub` stays in `pkg/sub`; from the top it is just `x`. */
  lemma ResolveDot(x: string, pkg: string, sub: string)
    requires IsName(x) && IsName(pkg) && IsName(sub)
    ensures Resolve("." + "/" + x, pkg + "/" + sub) == [pkg, sub, x]
    ensures Resolve("." + "/" + x, "") == [x]
  {
    var segs := [".", x];
    SplitPair(".", x);
    SplitPair(pkg, sub);
    assert Base(segs, pkg + "/" + sub) == [pkg, sub];
    assert segs[..1] == ["."];
    assert Walk([pkg, sub], segs[..1]) == Step(Walk([pkg, sub], []), ".") == [pkg, sub];
    assert Walk([], segs[..1]) == Step(Walk([], []), ".") == [];
  }

  /** `resolve("../x", "pkg/lib")` is `pkg/x`: '..' climbs out of the current directory. */
  lemma ResolveRelativeExample()
    ensures Resolve("../x", "pkg/lib") == ["pkg", "x"]
  {
    ResolveParent("x", "pkg", "lib");
    assert ".." + "/" + "x" == "../x";
    assert "pkg" + "/" + "lib" == "pkg/lib";
  }

  /** `resolve("pkg2/mod", "pkg/lib")` is `pkg2/mod`: the current directory is dropped. */
  lemma ResolveSiblingExample()
    ensures Resolve("pkg2/mod", "pkg/lib") == ["pkg2", "mod"]
  {
    var segs := ["pkg2", "mod"];
    assert Join(segs[1..], '/') == "mod";
    assert Join(segs, '/') == "pkg2" + "/" + "mod" == "pkg2/mod";
    ResolveJoined(segs, "pkg/lib");
  }
}
