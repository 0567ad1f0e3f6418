/**
 * `getPackageDependencies(packageMap, packageName)`, the same code in both
 * versions of the bundler: a depth-first walk from one package through the
 * keys of each manifest's `dependencies`, collecting every package it meets
 * into a fresh object. The walk keeps no visited set: a package reached twice
 * is walked twice (assigning it again keeps its place in key order), and a
 * package reached again while it is still being walked recurses until
 * JavaScript's call stack overflows.
 *
 * The registry holds records of any type `T`; `deps` reads a record's
 * dependency names in manifest order (a manifest without `dependencies`
 * gives none).
 */
module Closure {
  import opened Text
  import opened Objects

  /** The two ways the walk throws. */
  datatype WalkError =
    | MissingPackage
      /** `RangeError`: the walk came back to a package it is still inside. */
    | CallStackExceeded

  /** `gd(res, name)` as a value: `stack` holds the packages whose walk is in progress. */
  function Visit<T>(reg: map<string, T>, deps: T -> seq<string>, stack: set<string>,
                    res: Obj<T>, name: string): (r: Result<Obj<T>, WalkError>)
    ensures r.Ok? ==> name in r.value.entries && res.entries.Keys <= r.value.entries.Keys
    decreases reg.Keys - stack, 0, 0
  {
    if name !in reg then Err(MissingPackage)
    else if name in stack then Err(CallStackExceeded)
    else VisitAll(reg, deps, stack + {name}, Put(res, name, reg[name]), deps(reg[name]))
  }

  /** `Object.keys(dep).forEach(k => gd(res, k))`: stops at the first throw. */
  function VisitAll<T>(reg: map<string, T>, deps: T -> seq<string>, stack: set<string>,
                       res: Obj<T>, names: seq<string>): (r: Result<Obj<T>, WalkError>)
    ensures r.Ok? ==> res.entries.Keys <= r.value.entries.Keys
    ensures r.Ok? ==> forall i | 0 <= i < |names| :: names[i] in r.value.entries
    decreases reg.Keys - stack, 1, |names|
  {
    if |names| == 0 then Ok(res)
    else
      match Visit(reg, deps, stack, res, names[0])
      case Err(e) => Err(e)
      case Ok(r) => VisitAll(reg, deps, stack, r, names[1..])
  }

  /** What `getPackageDependencies` returns or throws. */
  function Dependencies<T>(reg: map<string, T>, deps: T -> seq<string>, name: string): Result<Obj<T>, WalkError>
  {
    Visit(reg, deps, {}, Obj(map[], []), name)
  }

  /**
   * `gd`: the recursive walk, threading the result object through. `stack`
   * stands for the engine's call stack: coming back to a package on it is
   * where JavaScript's recursion would never end.
   */
  method Gd<T>(reg: map<string, T>, deps: T -> seq<string>, stack: set<string>,
               res: Obj<T>, name: string) returns (r: Result<Obj<T>, WalkError>)
    ensures r == Visit(reg, deps, stack, res, name)
    decreases reg.Keys - stack, 0
  {
    if name !in reg {
      return Err(MissingPackage);
    }
    if name in stack {
      return Err(CallStackExceeded);
    }
    var p := reg[name];
    var acc := Put(res, name, p);
    var ds := deps(p);
    var inner := stack + {name};
    var i := 0;
    while i < |ds|
      invariant 0 <= i <= |ds|
      invariant VisitAll(reg, deps, inner, Put(res, name, p), ds) == VisitAll(reg, deps, inner, acc, ds[i..])
      decreases |ds| - i
    {
      var sub := Gd(reg, deps, inner, acc, ds[i]);
      if sub.Err? {
        return Err(sub.error);
      }
      acc := sub.value;
      i := i + 1;
    }
    return Ok(acc);
  }

  /** `getPackageDependencies`. */
  method GetPackageDependencies<T>(reg: map<string, T>, deps: T -> seq<string>, name: string)
    returns (r: Result<Obj<T>, WalkError>)
    ensures r == Dependencies(reg, deps, name)
    ensures r.Ok? ==> |r.value.keys| > 0 && r.value.keys[0] == name && WellFormed(r.value)
    ensures r.Ok? ==> forall n | n in r.value.entries :: n in reg && r.value.entries[n] == reg[n]
    ensures r.Ok? ==> Closed(reg, deps, r.value.entries.Keys)
  {
    r := Gd(reg, deps, {}, Obj(map[], []), name);
    ResultFacts(reg, deps, name);
  }

  /** Every dependency of a registered member of `c` is in `c`. */
  ghost predicate Closed<T>(reg: map<string, T>, deps: T -> seq<string>, c: set<string>)
  {
    forall n, d | n in c && n in reg && d in deps(reg[n]) :: d in c
  }

  /** The entries of `o` are records of the registry, unchanged. */
  ghost predicate FromRegistry<T>(reg: map<string, T>, o: Obj<T>)
  {
    forall n | n in o.entries :: n in reg && o.entries[n] == reg[n]
  }

  /** `a`'s entries are all in `b`, and `a`'s key order begins `b`'s. */
  ghost predicate Grows<T>(a: Obj<T>, b: Obj<T>)
  {
    && a.entries.Keys <= b.entries.Keys
    && |a.keys| <= |b.keys| && b.keys[..|a.keys|] == a.keys
  }

  /** Every package the walk added has its dependencies in the result. */
  ghost predicate ClosedOver<T>(reg: map<string, T>, deps: T -> seq<string>, res: Obj<T>, o: Obj<T>)
  {
    forall n, d | n in o.entries && n !in res.entries && n in reg && d in deps(reg[n]) :: d in o.entries
  }

  lemma GrowsTransitive<T>(a: Obj<T>, b: Obj<T>, c: Obj<T>)
    requires Grows(a, b) && Grows(b, c)
    ensures Grows(a, c)
  {
    assert c.keys[..|a.keys|] == c.keys[..|b.keys|][..|a.keys|];
  }

  /**
   * A successful walk only grows the result, keeps it well formed, adds only
   * registry records, and adds `name` together with everything it depends on.
   */
  lemma {:induction false} VisitOk<T>(reg: map<string, T>, deps: T -> seq<string>, stack: set<string>,
                                      res: Obj<T>, name: string)
    requires Visit(reg, deps, stack, res, name).Ok?
    ensures var o := Visit(reg, deps, stack, res, name).value;
      && Grows(res, o) && name in o.entries
      && (WellFormed(res) ==> WellFormed(o))
      && (FromRegistry(reg, res) ==> FromRegistry(reg, o))
      && ClosedOver(reg, deps, res, o)
    decreases reg.Keys - stack, 0, 0
  {
    var p := reg[name];
    var first := Put(res, name, p);
    VisitAllOk(reg, deps, stack + {name}, first, deps(p));
    if WellFormed(res) {
      PutWellFormed(res, name, p);
    }
    var o := Visit(reg, deps, stack, res, name).value;
    assert Grows(res, first);
    GrowsTransitive(res, first, o);
  }

  lemma {:induction false} VisitAllOk<T>(reg: map<string, T>, deps: T -> seq<string>, stack: set<string>,
                                         res: Obj<T>, names: seq<string>)
    requires VisitAll(reg, deps, stack, res, names).Ok?
    ensures var o := VisitAll(reg, deps, stack, res, names).value;
      && Grows(res, o) && (forall i | 0 <= i < |names| :: names[i] in o.entries)
      && (WellFormed(res) ==> WellFormed(o))
      && (FromRegistry(reg, res) ==> FromRegistry(reg, o))
      && ClosedOver(reg, deps, res, o)
    decreases reg.Keys - stack, 1, |names|
  {
    if |names| > 0 {
      VisitOk(reg, deps, stack, res, names[0]);
      var r := Visit(reg, deps, stack, res, names[0]).value;
      VisitAllOk(reg, deps, stack, r, names[1..]);
      var o := VisitAll(reg, deps, stack, r, names[1..]).value;
      GrowsTransitive(res, r, o);
      forall i | 0 <= i < |names|
        ensures names[i] in o.entries
      {
        if i > 0 {
          assert names[1..][i - 1] == names[i];
        }
      }
    }
  }

  /** What a successful `getPackageDependencies` returns. */
  lemma ResultFacts<T>(reg: map<string, T>, deps: T -> seq<string>, name: string)
    ensures var r := Dependencies(reg, deps, name);
      r.Ok? ==>
        && WellFormed(r.value) && |r.value.keys| > 0 && r.value.keys[0] == name
        && FromRegistry(reg, r.value)
        && Closed(reg, deps, r.value.entries.Keys)
  {
    var r := Dependencies(reg, deps, name);
    if r.Ok? {
      var empty: Obj<T> := Obj(map[], []);
      var first := Put(empty, name, reg[name]);
      assert {} + {name} == {name};
      assert r == VisitAll(reg, deps, {name}, first, deps(reg[name]));
      VisitAllOk(reg, deps, {name}, first, deps(reg[name]));
      assert r.value.keys[..1] == [name];
    }
  }

  /** The walk adds nothing outside a dependency-closed set that holds where it starts. */
  lemma {:induction false} VisitWithin<T>(reg: map<string, T>, deps: T -> seq<string>, stack: set<string>,
                                          res: Obj<T>, name: string, c: set<string>)
    requires Closed(reg, deps, c) && name in c
    requires Visit(reg, deps, stack, res, name).Ok?
    ensures Visit(reg, deps, stack, res, name).value.entries.Keys <= res.entries.Keys + c
    decreases reg.Keys - stack, 0, 0
  {
    var first := Put(res, name, reg[name]);
    VisitAllWithin(reg, deps, stack + {name}, first, deps(reg[name]), c);
  }

  lemma {:induction false} VisitAllWithin<T>(reg: map<string, T>, deps: T -> seq<string>, stack: set<string>,
                                             res: Obj<T>, names: seq<string>, c: set<string>)
    requires Closed(reg, deps, c) && forall i | 0 <= i < |names| :: names[i] in c
    requires VisitAll(reg, deps, stack, res, names).Ok?
    ensures VisitAll(reg, deps, stack, res, names).value.entries.Keys <= res.entries.Keys + c
    decreases reg.Keys - stack, 1, |names|
  {
    if |names| > 0 {
      VisitWithin(reg, deps, stack, res, names[0], c);
      var r := Visit(reg, deps, stack, res, names[0]).value;
      VisitAllWithin(reg, deps, stack, r, names[1..], c);
    }
  }

  /**
   * The result is the least dependency-closed set holding `name`: with
   * `ResultFacts`, its keys are exactly the packages `name` reaches.
   */
  lemma DependenciesLeast<T>(reg: map<string, T>, deps: T -> seq<string>, name: string, c: set<string>)
    requires Closed(reg, deps, c) && name in c
    requires Dependencies(reg, deps, name).Ok?
    ensures Dependencies(reg, deps, name).value.entries.Keys <= c
  {
    VisitWithin(reg, deps, {}, Obj(map[], []), name, c);
  }

  /** A walk inside a registered, dependency-closed set never meets a missing package. */
  lemma {:induction false} VisitNotMissing<T>(reg: map<string, T>, deps: T -> seq<string>, stack: set<string>,
                                              res: Obj<T>, name: string, c: set<string>)
    requires Closed(reg, deps, c) && c <= reg.Keys && name in c
    ensures Visit(reg, deps, stack, res, name) != Err(MissingPackage)
    decreases reg.Keys - stack, 0, 0
  {
    if name !in stack {
      VisitAllNotMissing(reg, deps, stack + {name}, Put(res, name, reg[name]), deps(reg[name]), c);
    }
  }

  lemma {:induction false} VisitAllNotMissing<T>(reg: map<string, T>, deps: T -> seq<string>, stack: set<string>,
                                                 res: Obj<T>, names: seq<string>, c: set<string>)
    requires Closed(reg, deps, c) && c <= reg.Keys && forall i | 0 <= i < |names| :: names[i] in c
    ensures VisitAll(reg, deps, stack, res, names) != Err(MissingPackage)
    decreases reg.Keys - stack, 1, |names|
  {
    if |names| > 0 {
      VisitNotMissing(reg, deps, stack, res, names[0], c);
      var v := Visit(reg, deps, stack, res, names[0]);
      if v.Ok? {
        VisitAllNotMissing(reg, deps, stack, v.value, names[1..], c);
      }
    }
  }

  /** "Missing Package" is thrown only when some package reached from `name` is not registered. */
  lemma DependenciesMissing<T>(reg: map<string, T>, deps: T -> seq<string>, name: string, c: set<string>)
    requires Closed(reg, deps, c) && c <= reg.Keys && name in c
    ensures Dependencies(reg, deps, name) != Err(MissingPackage)
  {
    VisitNotMissing(reg, deps, {}, Obj(map[], []), name, c);
  }

  /**
   * A registered, dependency-closed set whose dependencies always have a
   * smaller rank: the packages in it form no cycle.
   */
  ghost predicate Ranked<T>(reg: map<string, T>, deps: T -> seq<string>, c: set<string>, rank: map<string, nat>)
  {
    && c <= reg.Keys && c <= rank.Keys
    && forall n, d | n in c && d in deps(reg[n]) :: d in c && rank[d] < rank[n]
  }

  lemma {:induction false} VisitRanked<T>(reg: map<string, T>, deps: T -> seq<string>, stack: set<string>,
                                          res: Obj<T>, name: string, c: set<string>, rank: map<string, nat>)
    requires Ranked(reg, deps, c, rank) && name in c
    requires forall s | s in stack && s in c :: rank[s] > rank[name]
    ensures Visit(reg, deps, stack, res, name).Ok?
    decreases reg.Keys - stack, 0, 0
  {
    VisitAllRanked(reg, deps, stack + {name}, Put(res, name, reg[name]), deps(reg[name]), c, rank, rank[name]);
  }

  lemma {:induction false} VisitAllRanked<T>(reg: map<string, T>, deps: T -> seq<string>, stack: set<string>,
                                             res: Obj<T>, names: seq<string>, c: set<string>,
                                             rank: map<string, nat>, bound: nat)
    requires Ranked(reg, deps, c, rank)
    requires forall i | 0 <= i < |names| :: names[i] in c && rank[names[i]] < bound
    requires forall s | s in stack && s in c :: rank[s] >= bound
    ensures VisitAll(reg, deps, stack, res, names).Ok?
    decreases reg.Keys - stack, 1, |names|
  {
    if |names| > 0 {
      VisitRanked(reg, deps, stack, res, names[0], c, rank);
      var r := Visit(reg, deps, stack, res, names[0]).value;
      VisitAllRanked(reg, deps, stack, r, names[1..], c, rank, bound);
    }
  }

  /** Over a registered, acyclic, dependency-closed set, `getPackageDependencies` returns. */
  lemma DependenciesFound<T>(reg: map<string, T>, deps: T -> seq<string>, name: string,
                             c: set<string>, rank: map<string, nat>)
    requires Ranked(reg, deps, c, rank) && name in c
    ensures Dependencies(reg, deps, name).Ok?
  {
    VisitRanked(reg, deps, {}, Obj(map[], []), name, c, rank);
  }

  /**
   * A dependency-closed set, possibly holding unregistered names, whose
   * registered members' dependencies always have a smaller rank: no walk
   * inside it can come back to a package still on the stack.
   */
  ghost predicate Acyclic<T>(reg: map<string, T>, deps: T -> seq<string>, c: set<string>, rank: map<string, nat>)
  {
    && c <= rank.Keys
    && forall n, d | n in c && n in reg && d in deps(reg[n]) :: d in c && rank[d] < rank[n]
  }

  /** `p` is a chain of registered packages, each depending on the next (the last may be unregistered). */
  ghost predicate Reaches<T>(reg: map<string, T>, deps: T -> seq<string>, p: seq<string>)
  {
    forall i | 0 <= i < |p| - 1 :: p[i] in reg && p[i + 1] in deps(reg[p[i]])
  }

  /** Inside an acyclic set the walk never overflows the stack. */
  lemma {:induction false} VisitNoOverflow<T>(reg: map<string, T>, deps: T -> seq<string>, stack: set<string>,
                                              res: Obj<T>, name: string, c: set<string>, rank: map<string, nat>)
    requires Acyclic(reg, deps, c, rank) && name in c
    requires forall s | s in stack && s in c :: rank[s] > rank[name]
    ensures Visit(reg, deps, stack, res, name) != Err(CallStackExceeded)
    decreases reg.Keys - stack, 0, 0
  {
    if name in reg && name !in stack {
      VisitAllNoOverflow(reg, deps, stack + {name}, Put(res, name, reg[name]), deps(reg[name]), c, rank, rank[name]);
    }
  }

  lemma {:induction false} VisitAllNoOverflow<T>(reg: map<string, T>, deps: T -> seq<string>, stack: set<string>,
                                                 res: Obj<T>, names: seq<string>, c: set<string>,
                                                 rank: map<string, nat>, bound: nat)
    requires Acyclic(reg, deps, c, rank)
    requires forall i | 0 <= i < |names| :: names[i] in c && rank[names[i]] < bound
    requires forall s | s in stack && s in c :: rank[s] >= bound
    ensures VisitAll(reg, deps, stack, res, names) != Err(CallStackExceeded)
    decreases reg.Keys - stack, 1, |names|
  {
    if |names| > 0 {
      VisitNoOverflow(reg, deps, stack, res, names[0], c, rank);
      var v := Visit(reg, deps, stack, res, names[0]);
      if v.Ok? {
        VisitAllNoOverflow(reg, deps, stack, v.value, names[1..], c, rank, bound);
      }
    }
  }

  /** A dependency-closed set that holds the head of a chain holds all of it. */
  lemma {:induction false} ChainWithin<T>(reg: map<string, T>, deps: T -> seq<string>, p: seq<string>,
                                          c: set<string>, k: nat)
    requires Closed(reg, deps, c) && Reaches(reg, deps, p)
    requires 0 < |p| && p[0] in c && k < |p|
    ensures p[k] in c
  {
    if k > 0 {
      ChainWithin(reg, deps, p, c, k - 1);
    }
  }

  /**
   * The converse of `DependenciesMissing` where no cycle can win: if the
   * package reaches an unregistered one, "Missing Package" is thrown.
   */
  lemma DependenciesMissingReached<T>(reg: map<string, T>, deps: T -> seq<string>, name: string,
                                      c: set<string>, rank: map<string, nat>, p: seq<string>)
    requires Acyclic(reg, deps, c, rank) && name in c
    requires 0 < |p| && p[0] == name && Reaches(reg, deps, p) && p[|p| - 1] !in reg
    ensures Dependencies(reg, deps, name) == Err(MissingPackage)
  {
    VisitNoOverflow(reg, deps, {}, Obj(map[], []), name, c, rank);
    var r := Dependencies(reg, deps, name);
    if r.Ok? {
      ResultFacts(reg, deps, name);
      ChainWithin(reg, deps, p, r.value.entries.Keys, |p| - 1);
      assert false;
    } else {
      assert r.error != CallStackExceeded;
    }
  }

  /** A registry whose records are their own dependency lists. */
  function Own(ds: seq<string>): seq<string>
  {
    ds
  }

  /** The diamond `a -> b, c; b -> d; c -> d`. */
  function Diamond(): map<string, seq<string>>
  {
    map["a" := ["b", "c"], "b" := ["d"], "c" := ["d"], "d" := []]
  }

  /** Walking `d`, which depends on nothing, only records it. */
  lemma DiamondLeaf(stack: set<string>, res: Obj<seq<string>>)
    requires "d" !in stack
    ensures Visit(Diamond(), Own, stack, res, "d") == Ok(Put(res, "d", []))
    ensures VisitAll(Diamond(), Own, stack, res, ["d"]) == Ok(Put(res, "d", []))
  {
    assert Diamond()["d"] == [];
    assert VisitAll(Diamond(), Own, stack + {"d"}, Put(res, "d", []), []) == Ok(Put(res, "d", []));
  }

  /** Walking `b` or `c` from inside `a` walks `d` under it. */
  lemma DiamondMiddle(m: string, res: Obj<seq<string>>)
    requires m == "b" || m == "c"
    ensures Visit(Diamond(), Own, {"a"}, res, m) == Ok(Put(Put(res, m, ["d"]), "d", []))
  {
    var s: set<string> := {"a"} + {m};
    assert "d" !in s;
    DiamondLeaf(s, Put(res, m, ["d"]));
    assert Diamond()[m] == ["d"];
  }

  /** Diamond: `d` is walked twice and keeps the place of its first visit. */
  lemma DiamondExample()
    ensures Dependencies(Diamond(), Own, "a").Ok?
    ensures Dependencies(Diamond(), Own, "a").value.keys == ["a", "b", "d", "c"]
  {
    var reg := Diamond();
    var o1 := Put(Obj(map[], []), "a", ["b", "c"]);
    var o3 := Put(Put(o1, "b", ["d"]), "d", []);
    var o5 := Put(Put(o3, "c", ["d"]), "d", []);
    assert o5.keys == ["a", "b", "d", "c"];
    DiamondMiddle("b", o1);
    DiamondMiddle("c", o3);
    assert VisitAll(reg, Own, {"a"}, o3, ["c"]) == Ok(o5);
    assert ["b", "c"][1..] == ["c"];
    assert VisitAll(reg, Own, {"a"}, o1, ["b", "c"]) == Ok(o5);
    assert reg["a"] == ["b", "c"];
    assert {} + {"a"} == {"a"};
  }

  /** `a -> b -> a`: the walk never ends, and the engine throws. */
  lemma CycleExample()
    ensures Dependencies(map["a" := ["b"], "b" := ["a"]], Own, "a") == Err(CallStackExceeded)
  {
    var reg := map["a" := ["b"], "b" := ["a"]];
    var o0: Obj<seq<string>> := Obj(map[], []);
    var o1 := Put(o0, "a", reg["a"]);
    var o2 := Put(o1, "b", reg["b"]);
    var sa: set<string> := {} + {"a"};
    var sab := sa + {"b"};
    assert "a" in sab;
    assert Visit(reg, Own, sab, o2, "a") == Err(CallStackExceeded);
    assert VisitAll(reg, Own, sab, o2, ["a"]) == Err(CallStackExceeded);
    assert "b" !in sa;
    assert Visit(reg, Own, sa, o1, "b") == Err(CallStackExceeded);
    assert VisitAll(reg, Own, sa, o1, ["b"]) == Err(CallStackExceeded);
  }
}
