/**
 * The browser loader of lib/meat.js (`define.meat`): the table of loaded
 * packages, `require` with its per-domain exports cache, and `loadPackage`,
 * which fetches a package bundle once and loads its dependencies before
 * reporting completion.
 *
 * The asynchronous parts are explicit events: `ScriptLoaded` and
 * `ScriptFailed` are the `onload` and `onerror` handlers of the script
 * element `loadPackage` inserts. Callbacks are data: a caller's callback is
 * `User(id)`, and the counting callback `loadDependencies` hands to each
 * dependency is `OnLoaded(join)`.
 */
module Meat {
  import opened Text
  import opened Paths
  import opened Runtime

  datatype Callback = User(id: nat) | OnLoaded(join: nat)

  datatype LoadError = CouldNotLoad(name: string) | UnknownPackage(name: string)

  /**
   * A package record: its module factories by path inside the package, its
   * main module path, the dependency list of its last registered module,
   * and, while its bundle is being fetched, the callbacks waiting for it.
   */
  datatype Package = Package(
    files: map<string, Factory>,
    mainFile: Option<string>,
    dependencies: seq<string>,
    loading: Option<seq<Callback>>)

  /** The state of one `loadDependencies` call: how many dependencies it waits for, how many reported, the last error. */
  datatype Pending = Pending(pkg: string, expected: nat, loaded: nat, error: Option<LoadError>)

  /** A caller's callback invoked with an error or null. */
  datatype Delivery = Delivery(callback: nat, error: Option<LoadError>)

  const EmptyPackage := Package(map[], None, [], None)

  /** `!pack.mainFile`: null and the empty string are both unset. */
  predicate MainFileUnset(mainFile: Option<string>)
  {
    mainFile.None? || mainFile.value == ""
  }

  /** The script source `loadPackage` requests for a package. */
  function BundleSource(name: string): string
  {
    name + "/" + name + ".js"
  }

  /** The table after `addModuleFile(id, dependencies, fcn)`. */
  function WithModule(packages: map<string, Package>, id: string, deps: seq<string>, fcn: Factory): (r: map<string, Package>)
    ensures var split := Split(id, '/');
            var name := split[0];
            var before := if name in packages then packages[name].mainFile else None;
      && r.Keys == packages.Keys + {name}
      && (forall n | n in packages && n != name :: r[n] == packages[n])
      && r[name].dependencies == deps
      && Join(Split(id, '/')[1..], '/') in r[name].files
      && r[name].files[Join(Split(id, '/')[1..], '/')] == fcn
      && (name in packages ==> r[name].loading == packages[name].loading)
      && r[name].mainFile == (if MainFileUnset(before) && |split| > 1 && name == split[|split| - 1] then Some(id) else before)
  {
    var splitId := Split(id, '/');
    var name := splitId[0];
    var pack := if name in packages then packages[name] else EmptyPackage;
    var main :=
      if MainFileUnset(pack.mainFile) && |splitId| > 1 && splitId[0] == splitId[|splitId| - 1]
      then Some(id) else pack.mainFile;
    packages[name := pack.(dependencies := deps, mainFile := main,
                           files := pack.files[Join(splitId[1..], '/') := fcn])]
  }

  /**
   * Without `defineMain`, the first file named like its package, as in
   * `name/.../name`, becomes the main file, and a later one does not replace it.
   */
  lemma FirstMainFileKept(packages: map<string, Package>, id: string, other: string,
                          deps: seq<string>, fcn: Factory, deps': seq<string>, fcn': Factory)
    requires Split(id, '/')[0] == Split(other, '/')[0]
    requires Split(id, '/')[0] !in packages || MainFileUnset(packages[Split(id, '/')[0]].mainFile)
    requires |Split(id, '/')| > 1 && Split(id, '/')[0] == Split(id, '/')[|Split(id, '/')| - 1]
    ensures WithModule(packages, id, deps, fcn)[Split(id, '/')[0]].mainFile == Some(id)
    ensures WithModule(WithModule(packages, id, deps, fcn), other, deps', fcn')[Split(id, '/')[0]].mainFile == Some(id)
  {
  }

  /** Every cache key under which `require` can create a module. */
  function ModuleKeys(packages: map<string, Package>): set<string>
  {
    {""}
    + (set n, f | n in packages && f in packages[n].files :: n + "/" + f)
    + (set n | n in packages && "" in packages[n].files :: n)
  }

  /** The path array `require(moduleName)` resolves, or the error raised before resolution. */
  function Target(packages: map<string, Package>, moduleName: string, currentPath: string): Result<seq<string>, RequireError>
  {
    if moduleName in packages then
      match packages[moduleName].mainFile
      case None => Err(NoMainFile(moduleName))
      case Some(main) => Ok(Resolve(main, currentPath))
    else Ok(Resolve(moduleName, currentPath))
  }

  /** The factory registered for a resolved path array. */
  function Locate(packages: map<string, Package>, pa: seq<string>): Result<Factory, RequireError>
  {
    var name := PackageOf(pa);
    if name !in packages then Err(UnavailablePackage(name))
    else if InnerPath(pa) !in packages[name].files then Err(UnavailableModule(InnerPath(pa)))
    else Ok(packages[name].files[InnerPath(pa)])
  }

  function Classify(packages: map<string, Package>, cache: map<string, Value>, moduleName: string, currentPath: string): (p: Plan)
    ensures p.Cached? ==> Truthy(p.value)
    ensures p.Instantiate? ==> p.key in ModuleKeys(packages) && !(p.key in cache && Truthy(cache[p.key]))
    ensures p.Instantiate? ==>
              && Target(packages, moduleName, currentPath).Ok?
              && p.key == Join(Target(packages, moduleName, currentPath).value, '/')
              && p.dir == DirOf(Target(packages, moduleName, currentPath).value)
  {
    match Target(packages, moduleName, currentPath)
    case Err(e) => Fails(e)
    case Ok(pa) =>
      var key := Join(pa, '/');
      if key in cache && Truthy(cache[key]) then Cached(cache[key])
      else match Locate(packages, pa)
        case Err(e) => Fails(e)
        case Ok(f) =>
          KeyIsModuleKey(packages, pa);
          Instantiate(key, f, DirOf(pa))
  }

  /** `require(moduleName)` from `currentPath` resolves, and its module is in the cache `exports`. */
  predicate ImportedOne(packages: map<string, Package>, moduleName: string, currentPath: string, exports: map<string, Value>)
  {
    Target(packages, moduleName, currentPath).Ok? && Join(Target(packages, moduleName, currentPath).value, '/') in exports
  }

  /** Every one of `names`, required from `currentPath`, resolves and is cached. */
  predicate Imported(packages: map<string, Package>, names: seq<string>, currentPath: string, exports: map<string, Value>)
  {
    forall i | 0 <= i < |names| :: ImportedOne(packages, names[i], currentPath, exports)
  }

  /** A cache that only gains keys keeps every import it held. */
  lemma ImportedGrows(packages: map<string, Package>, names: seq<string>, currentPath: string,
                      before: map<string, Value>, after: map<string, Value>)
    requires Imported(packages, names, currentPath, before)
    requires forall k | k in before :: k in after
    ensures Imported(packages, names, currentPath, after)
  {
  }

  /** The imports before `names[i]` stay cached while `names[i]` is required, so one more is imported. */
  lemma ImportedNext(packages: map<string, Package>, names: seq<string>, i: nat, currentPath: string,
                     before: map<string, Value>, after: map<string, Value>)
    requires i < |names|
    requires Imported(packages, names[..i], currentPath, before)
    requires forall k | k in before :: k in after
    requires ImportedOne(packages, names[i], currentPath, after)
    ensures Imported(packages, names[..i + 1], currentPath, after)
  {
    ImportedGrows(packages, names[..i], currentPath, before, after);
    assert names[..i + 1] == names[..i] + [names[i]];
  }

  lemma KeyIsModuleKey(packages: map<string, Package>, pa: seq<string>)
    requires Locate(packages, pa).Ok?
    ensures Join(pa, '/') in ModuleKeys(packages)
  {
    if |pa| >= 2 {
      FullPathSplits(pa);
    }
  }

  /**
   * A module registered with a plain id (segments that name something) is
   * what `require` finds for that id, from any directory.
   */
  lemma RegisteredModuleIsLocated(packages: map<string, Package>, id: string, deps: seq<string>, fcn: Factory, currentPath: string)
    requires Normal(Split(id, '/'))
    ensures Locate(WithModule(packages, id, deps, fcn), Resolve(id, currentPath)) == Ok(fcn)
  {
    var segs := Split(id, '/');
    JoinSplit(id, '/');
    ResolveJoined(segs, currentPath);
  }

  class Meat {
    var packages: map<string, Package>
    /** The script sources requested, in order. */
    var fetches: seq<string>
    /** The packages whose script has neither loaded nor failed yet. */
    var inFlight: set<string>
    var joins: seq<Pending>
    /** The caller callbacks invoked so far, in order. */
    var delivered: seq<Delivery>

    constructor ()
      ensures packages == map[] && fetches == [] && inFlight == {} && joins == [] && delivered == []
    {
      packages := map[];
      fetches := [];
      inFlight := {};
      joins := [];
      delivered := [];
    }

    /** Every counting callback waiting in a loading list refers to an existing join. */
    ghost predicate Valid()
      reads this
    {
      forall n | n in packages && packages[n].loading.Some? :: CallbacksValid(packages[n].loading.value, |joins|)
    }

    /** The packages whose bundle is being fetched or whose dependencies are loading. */
    ghost function Loading(): set<string>
      reads this
    {
      LoadingOf(packages)
    }

    /** `ensurePackage`: creates an empty record only when the name is absent. */
    method EnsurePackage(name: string) returns (pack: Package)
      requires Valid()
      modifies this`packages
      ensures Valid()
      ensures name in old(packages) ==> packages == old(packages)
      ensures name !in old(packages) ==> packages == old(packages)[name := EmptyPackage]
      ensures name in packages && pack == packages[name]
    {
      if name !in packages {
        packages := packages[name := EmptyPackage];
      }
      pack := packages[name];
    }

    /** `addModuleFile(id, dependencies, fcn)`. */
    method AddModuleFile(id: string, deps: seq<string>, fcn: Factory)
      requires Valid()
      modifies this`packages
      ensures Valid()
      ensures packages == WithModule(old(packages), id, deps, fcn)
    {
      var splitId := Split(id, '/');
      var name := splitId[0];
      var pack := EnsurePackage(name);
      pack := pack.(dependencies := deps);
      if MainFileUnset(pack.mainFile) && |splitId| > 1 && splitId[0] == splitId[|splitId| - 1] {
        pack := pack.(mainFile := Some(id));
      }
      pack := pack.(files := pack.files[Join(splitId[1..], '/') := fcn]);
      packages := packages[name := pack];
    }

    /** `defineMain(packageName, modulepath)`: sets the main path whatever it was. */
    method DefineMain(name: string, path: string)
      requires Valid()
      modifies this`packages
      ensures Valid()
      ensures name in packages && packages[name].mainFile == Some(path)
      ensures var before := if name in old(packages) then old(packages)[name] else EmptyPackage;
              packages == old(packages)[name := before.(mainFile := Some(path))]
    {
      var pack := EnsurePackage(name);
      packages := packages[name := pack.(mainFile := Some(path))];
    }

    /**
     * `require(moduleName)` of a function made by `makeRequire(domain,
     * fn.currentPath, fn.main)`. Returns the exports and the function's
     * `mainModule` afterwards. `stack` holds the cache keys of the modules
     * whose factories are running; each of them is cached as a truthy
     * object, so requiring one again returns it without running its factory.
     */
    method Require(domain: Domain, fn: RequireFn, moduleName: string, ghost stack: set<string>)
      returns (r: Result<Value, RequireError>, main: Option<nat>)
      requires stack <= ModuleKeys(packages)
      requires forall k | k in stack :: k in domain.exports && Truthy(domain.exports[k])
      modifies domain
      decreases ModuleKeys(packages) - stack, 1
      ensures forall k | k in stack :: k in domain.exports && domain.exports[k] == old(domain.exports[k])
      ensures forall k | k in old(domain.exports) :: k in domain.exports
      ensures |old(domain.instances)| <= |domain.instances|
      ensures domain.instances[..|old(domain.instances)|] == old(domain.instances)
      ensures fn.main.Some? ==> main == fn.main
      ensures fn.main.None? ==>
                main == if |domain.instances| == |old(domain.instances)| then None else Some(|old(domain.instances)|)
      ensures forall i | |old(domain.instances)| <= i < |domain.instances| ::
                main.Some? && domain.instances[i].main == main.value
      ensures match Classify(packages, old(domain.exports), moduleName, fn.currentPath)
              case Cached(v) =>
                r == Ok(v) && domain.exports == old(domain.exports) && domain.instances == old(domain.instances)
              case Fails(e) =>
                r == Err(e) && domain.exports == old(domain.exports) && domain.instances == old(domain.instances)
              case Instantiate(key, f, dir) =>
                && |domain.instances| > |old(domain.instances)|
                && domain.instances[|old(domain.instances)|].id == key
                && key in domain.exports
                && (r.Ok? ==> r.value == domain.exports[key]
                              && r.value == (if f.replacement.Some? then f.replacement.value
                                             else Object(old(domain.nextObject))))
                && (r.Err? ==> domain.exports[key] == Object(old(domain.nextObject)))
                && (r.Ok? ==> Imported(packages, f.imports, dir, domain.exports))
    {
      ghost var plan := Classify(packages, domain.exports, moduleName, fn.currentPath);
      main := fn.main;
      var path: string;
      if moduleName in packages {
        var mainFile := packages[moduleName].mainFile;
        if mainFile.None? {
          assert plan == Fails(NoMainFile(moduleName));
          return Err(NoMainFile(moduleName)), main;
        }
        path := mainFile.value;
      } else {
        path := moduleName;
      }
      var pathArray := ResolvePathArray(path, fn.currentPath);
      assert Target(packages, moduleName, fn.currentPath) == Ok(pathArray);
      var fullPath := Join(pathArray, '/');
      var packageName := PackageOf(pathArray);
      var inner := InnerPath(pathArray);
      var directory := DirOf(pathArray);
      if fullPath in domain.exports && Truthy(domain.exports[fullPath]) {
        assert plan == Cached(domain.exports[fullPath]);
        return Ok(domain.exports[fullPath]), main;
      }
      if packageName !in packages {
        assert plan == Fails(UnavailablePackage(packageName));
        return Err(UnavailablePackage(packageName)), main;
      }
      if inner !in packages[packageName].files {
        assert plan == Fails(UnavailableModule(inner));
        return Err(UnavailableModule(inner)), main;
      }
      var m := packages[packageName].files[inner];
      assert plan == Instantiate(fullPath, m, directory);
      r, main := MakeModule(domain, fn, fullPath, m, directory, stack);
    }

    /**
     * The module is not cached yet: `require` caches a fresh exports object
     * under `key`, makes the module object (the first one made through this
     * `require` becomes its main module) and runs factory `m` with a
     * `require` bound to the module's directory `dir`.
     */
    method MakeModule(domain: Domain, fn: RequireFn, key: string, m: Factory, dir: string, ghost stack: set<string>)
      returns (r: Result<Value, RequireError>, main: Option<nat>)
      requires key in ModuleKeys(packages) && key !in stack && stack <= ModuleKeys(packages)
      requires forall k | k in stack :: k in domain.exports && Truthy(domain.exports[k])
      modifies domain
      decreases ModuleKeys(packages) - stack, 0
      ensures forall k | k in stack :: k in domain.exports && domain.exports[k] == old(domain.exports[k])
      ensures forall k | k in old(domain.exports) :: k in domain.exports
      ensures r.Ok? ==> Imported(packages, m.imports, dir, domain.exports)
      ensures |old(domain.instances)| < |domain.instances|
      ensures domain.instances[..|old(domain.instances)|] == old(domain.instances)
      ensures domain.instances[|old(domain.instances)|].id == key
      ensures main == if fn.main.Some? then fn.main else Some(|old(domain.instances)|)
      ensures forall i | |old(domain.instances)| <= i < |domain.instances| :: domain.instances[i].main == main.value
      ensures key in domain.exports
      ensures r.Ok? ==> r.value == domain.exports[key]
                        && r.value == (if m.replacement.Some? then m.replacement.value else Object(old(domain.nextObject)))
      ensures r.Err? ==> domain.exports[key] == Object(old(domain.nextObject))
    {
      main := fn.main;
      var exports := Object(domain.nextObject);
      domain.nextObject := domain.nextObject + 1;
      domain.exports := domain.exports[key := exports];
      if main.None? {
        main := Some(|domain.instances|);
      }
      domain.instances := domain.instances + [Instance(key, main.value)];
      ghost var before := domain.instances;
      ghost var innerStack := stack + {key};
      assert ModuleKeys(packages) - innerStack < ModuleKeys(packages) - stack;
      r := RunFactory(domain, key, m, exports, RequireFn(dir, main), innerStack);
      assert domain.instances[..|before|] == before;
    }

    /**
     * Runs factory `m` of the module cached under `key` (whose exports object
     * is `exports`): its requires go through `fn`, bound to the module's
     * directory; then, like node, the cache takes `module.exports`, which the
     * factory may have replaced. A failing require leaves the in-progress
     * object in the cache.
     */
    method RunFactory(domain: Domain, key: string, m: Factory, exports: Value, fn: RequireFn, ghost stack: set<string>)
      returns (r: Result<Value, RequireError>)
      requires fn.main.Some?
      requires key in stack && stack <= ModuleKeys(packages)
      requires forall k | k in stack :: k in domain.exports && Truthy(domain.exports[k])
      requires domain.exports[key] == exports
      modifies domain
      decreases ModuleKeys(packages) - stack, 3
      ensures forall k | k in stack && k != key :: k in domain.exports && domain.exports[k] == old(domain.exports[k])
      ensures forall k | k in old(domain.exports) :: k in domain.exports
      ensures r.Ok? ==> Imported(packages, m.imports, fn.currentPath, domain.exports)
      ensures key in domain.exports
      ensures r.Ok? ==> r.value == domain.exports[key]
                        && r.value == (if m.replacement.Some? then m.replacement.value else exports)
      ensures r.Err? ==> domain.exports[key] == exports
      ensures |old(domain.instances)| <= |domain.instances|
      ensures domain.instances[..|old(domain.instances)|] == old(domain.instances)
      ensures forall j | |old(domain.instances)| <= j < |domain.instances| :: domain.instances[j].main == fn.main.value
    {
      var i := 0;
      while i < |m.imports|
        invariant 0 <= i <= |m.imports|
        invariant forall k | k in stack :: k in domain.exports && domain.exports[k] == old(domain.exports[k])
        invariant |old(domain.instances)| <= |domain.instances|
        invariant domain.instances[..|old(domain.instances)|] == old(domain.instances)
        invariant forall j | |old(domain.instances)| <= j < |domain.instances| :: domain.instances[j].main == fn.main.value
        invariant forall k | k in old(domain.exports) :: k in domain.exports
        invariant Imported(packages, m.imports[..i], fn.currentPath, domain.exports)
      {
        ghost var before := domain.instances;
        ghost var cache := domain.exports;
        var res := RequireImport(domain, fn, m.imports[i], stack);
        assert domain.instances[..|before|] == before;
        if res.Err? {
          return Err(res.error);
        }
        ImportedNext(packages, m.imports, i, fn.currentPath, cache, domain.exports);
        i := i + 1;
      }
      assert m.imports[..i] == m.imports;
      var moduleExports := if m.replacement.Some? then m.replacement.value else exports;
      ghost var cache := domain.exports;
      domain.exports := domain.exports[key := moduleExports];
      ImportedGrows(packages, m.imports, fn.currentPath, cache, domain.exports);
      r := Ok(moduleExports);
    }

    /**
     * One `require` of a running factory: what its caller needs of it. The
     * modules on the stack keep their cached objects, and module objects are
     * only appended, all with the main module of `fn`.
     */
    method RequireImport(domain: Domain, fn: RequireFn, moduleName: string, ghost stack: set<string>)
      returns (r: Result<Value, RequireError>)
      requires fn.main.Some?
      requires stack <= ModuleKeys(packages)
      requires forall k | k in stack :: k in domain.exports && Truthy(domain.exports[k])
      modifies domain
      decreases ModuleKeys(packages) - stack, 2
      ensures forall k | k in stack :: k in domain.exports && domain.exports[k] == old(domain.exports[k])
      ensures forall k | k in old(domain.exports) :: k in domain.exports
      ensures r.Ok? ==> ImportedOne(packages, moduleName, fn.currentPath, domain.exports)
      ensures |old(domain.instances)| <= |domain.instances|
      ensures domain.instances[..|old(domain.instances)|] == old(domain.instances)
      ensures forall j | |old(domain.instances)| <= j < |domain.instances| :: domain.instances[j].main == fn.main.value
    {
      var main;
      r, main := Require(domain, fn, moduleName, stack);
    }

    /** The part of the loader that completions change. */
    ghost function Now(): Snapshot
      reads this
    {
      Snapshot(packages, joins, delivered)
    }

    /** `Completion` from table `p0`, joins `j0` and deliveries `d0` to the current state. */
    ghost predicate CompletedFrom(name: string, err: Option<LoadError>,
                                  p0: map<string, Package>, j0: seq<Pending>, d0: seq<Delivery>)
      reads this
    {
      Completion(name, err, Snapshot(p0, j0, d0), Now())
    }

    /**
     * `CompletedFrom`, and when the queue holds a single callback, the state
     * is what calling that one callback makes of the table whose record of
     * `name` was finished.
     */
    ghost predicate CompletedWith(name: string, err: Option<LoadError>,
                                  p0: map<string, Package>, j0: seq<Pending>, d0: seq<Delivery>)
      reads this
    {
      && CompletedFrom(name, err, p0, j0, d0)
      && (name in LoadingOf(p0) && |p0[name].loading.value| == 1 ==>
            Called(p0[name].loading.value[0], err, Finished(p0, name, err), j0, d0))
    }

    /** `CallStep` from table `p0`, joins `j0` and deliveries `d0` to the current state. */
    ghost predicate Called(cb: Callback, err: Option<LoadError>,
                           p0: map<string, Package>, j0: seq<Pending>, d0: seq<Delivery>)
      reads this
    {
      CallStep(cb, err, Snapshot(p0, j0, d0), Now())
    }

    /**
     * The state `loadDependencies(name, onComplete)` leaves, from table `p0`,
     * requests `f0`, scripts in flight `i0`, joins `j0` and deliveries `d0`:
     * an unknown package completes with an error, which changes nothing
     * since it is not loading; with no dependency past the first three the
     * package completes at once; otherwise the loop has run over them all.
     */
    ghost predicate DependenciesLoaded(name: string, p0: map<string, Package>, f0: seq<string>, i0: set<string>,
                                       j0: seq<Pending>, d0: seq<Delivery>)
      reads this
    {
      if name !in p0 then
        packages == p0 && joins == j0 && delivered == d0 && fetches == f0 && inFlight == i0
      else if |p0[name].dependencies| <= 3 then
        CompletedWith(name, None, p0, j0, d0) && fetches == f0 && inFlight == i0
      else
        Dispatched(name, p0[name].dependencies, |p0[name].dependencies|, Dispatch(p0, f0, i0, 0), j0, d0)
    }

    /**
     * The state after the loop of `loadDependencies` has called `loadPackage`
     * with dependencies 3 to `i - 1`, from `s0`, joins `j0` (to which the new
     * join is appended) and deliveries `d0`: requests and scripts in flight
     * are those of the fold `DispatchAll`; until every dependency has
     * reported, the table is the fold's and the new join holds the fold's
     * count; once they all have, the package has completed without error.
     */
    ghost predicate Dispatched(name: string, deps: seq<string>, i: nat, s0: Dispatch,
                               j0: seq<Pending>, d0: seq<Delivery>)
      requires 3 <= i <= |deps|
      reads this
    {
      var s := DispatchAll(s0, deps[3..i], OnLoaded(|j0|));
      var join := Pending(name, |deps| - 3, s.counted, None);
      && fetches == s.fetches && inFlight == s.inFlight
      && if s.counted < |deps| - 3 then packages == s.packages && joins == j0 + [join] && delivered == d0
         else CompletedFrom(name, None, s0.packages, j0 + [join], d0)
    }

    /**
     * Calls one callback with `err`. A caller's callback is recorded; a
     * counting callback of `loadDependencies` counts one more dependency
     * done, keeps the error, and when the count reaches the number of
     * dependencies completes the package that waited for them.
     */
    method Deliver(cb: Callback, err: Option<LoadError>)
      requires Valid()
      requires cb.OnLoaded? ==> cb.join < |joins|
      modifies this`packages, this`joins, this`delivered
      decreases Loading(), 1
      ensures Valid() && Counting(old(joins), joins)
      ensures Settled(old(packages), packages)
      ensures Extends(old(delivered), delivered)
      ensures Called(cb, err, old(packages), old(joins), old(delivered))
    {
      match cb
      case User(id) =>
        delivered := delivered + [Delivery(id, err)];
      case OnLoaded(j) =>
        var p := Counted(joins[j], err);
        joins := joins[j := p];
        if p.loaded == p.expected {
          ghost var joins1 := joins;
          Complete(p.pkg, p.error);
          CountingTransitive(old(joins), joins1, joins);
        }
    }

    /**
     * `onComplete(err)` of the package `name`: deletes its `loading` list,
     * evicts the record on error, then calls every queued callback with
     * `err`, in queue order.
     */
    method Complete(name: string, err: Option<LoadError>)
      requires Valid()
      modifies this`packages, this`joins, this`delivered
      decreases Loading(), 0
      ensures Valid()
      ensures CompletedWith(name, err, old(packages), old(joins), old(delivered))
    {
      if name in packages && packages[name].loading.Some? {
        var q := packages[name].loading.value;
        var rest := packages[name].(loading := None);
        ghost var before := packages;
        if err.Some? {
          packages := packages - {name};
        } else {
          packages := packages[name := rest];
        }
        ghost var after := packages;
        assert after == Finished(before, name, err);
        SettledShrinksLoading(before, after);
        assert name in LoadingOf(before) && name !in LoadingOf(after);
        ghost var chain := DeliverAll(q, err, LoadingOf(before));
        SettledTransitive(before, after, packages);
        SettledShrinksLoading(after, packages);
        assert chain[0] == Snapshot(before, old(joins), old(delivered)).(packages := Finished(before, name, err));
      }
    }

    /**
     * `loadPackage(name, cb)`: an unknown package gets a record whose
     * `loading` list is `[cb]` and its bundle is requested; a package still
     * loading queues `cb`; a loaded package calls `cb` with no error at once.
     */
    method LoadPackage(name: string, cb: Callback)
      requires Valid()
      requires cb.OnLoaded? ==> cb.join < |joins|
      modifies this`packages, this`joins, this`delivered, this`fetches, this`inFlight
      ensures Valid() && Counting(old(joins), joins)
      ensures name !in old(packages) ==>
                && packages == old(packages)[name := EmptyPackage.(loading := Some([cb]))]
                && fetches == old(fetches) + [BundleSource(name)]
                && inFlight == old(inFlight) + {name}
                && joins == old(joins) && delivered == old(delivered)
      ensures name in old(Loading()) ==>
                && packages == old(packages)[name := old(packages[name]).(loading := Some(old(packages[name].loading.value) + [cb]))]
                && fetches == old(fetches) && inFlight == old(inFlight)
                && joins == old(joins) && delivered == old(delivered)
      ensures name in old(packages) && name !in old(Loading()) ==>
                && fetches == old(fetches) && inFlight == old(inFlight)
                && Settled(old(packages), packages) && Extends(old(delivered), delivered)
                && Called(cb, None, old(packages), old(joins), old(delivered))
    {
      if name !in packages {
        var pack := EnsurePackage(name);
        packages := packages[name := pack.(loading := Some([cb]))];
        fetches := fetches + [BundleSource(name)];
        inFlight := inFlight + {name};
      } else if packages[name].loading.Some? {
        var pack := packages[name];
        packages := packages[name := pack.(loading := Some(pack.loading.value + [cb]))];
      } else {
        Deliver(cb, None);
      }
    }

    /**
     * `loadDependencies(name, onComplete)`, run when the bundle of `name` has
     * loaded: the first three entries of the package's dependency list (the
     * `require`, `exports`, `module` parameters) are skipped; the package
     * completes at once when there is nothing else, and otherwise when the
     * last of the remaining dependencies has reported, with the last error
     * any of them reported.
     */
    method LoadDependencies(name: string)
      requires Valid()
      modifies this`packages, this`joins, this`delivered, this`fetches, this`inFlight
      ensures Valid()
      ensures Extends(old(fetches), fetches) && Extends(old(delivered), delivered)
      ensures DependenciesLoaded(name, old(packages), old(fetches), old(inFlight), old(joins), old(delivered))
    {
      if name !in packages {
        Complete(name, Some(UnknownPackage(name)));
        return;
      }
      var deps := packages[name].dependencies;
      var l := |deps|;
      if l <= 3 {
        Complete(name, None);
        return;
      }
      ghost var s0 := Dispatch(packages, fetches, inFlight, 0);
      var j := |joins|;
      joins := joins + [Pending(name, l - 3, 0, None)];
      assert deps[3..3] == [];
      var i := 3;
      while i < l
        invariant 3 <= i <= l
        invariant Valid() && |joins| == j + 1
        invariant Dispatched(name, deps, i, s0, old(joins), old(delivered))
      {
        DispatchNext(name, deps, i, s0, old(joins), old(delivered));
        i := i + 1;
      }
      DispatchExtends(s0, deps[3..l], OnLoaded(j));
    }

    /** One turn of the loop of `loadDependencies`: `loadPackage(deps[i], onLoaded)`. */
    method DispatchNext(name: string, deps: seq<string>, i: nat, ghost s0: Dispatch,
                        ghost j0: seq<Pending>, ghost d0: seq<Delivery>)
      requires 3 <= i < |deps| && s0.counted == 0
      requires Valid() && |joins| == |j0| + 1
      requires Dispatched(name, deps, i, s0, j0, d0)
      modifies this`packages, this`joins, this`delivered, this`fetches, this`inFlight
      ensures Valid() && |joins| == |j0| + 1
      ensures Dispatched(name, deps, i + 1, s0, j0, d0)
    {
      var cb := OnLoaded(|joins| - 1);
      ghost var s := DispatchAll(s0, deps[3..i], cb);
      ghost var join := Pending(name, |deps| - 3, s.counted, None);
      DispatchCountBound(s0, deps[3..i], cb);
      DispatchSnoc(s0, deps, i, cb);
      LoadPackage(deps[i], cb);
      if deps[i] !in s.packages || s.packages[deps[i]].loading.Some? {
        ghost var s1 := DispatchOne(s, deps[i], cb);
        assert packages == s1.packages && fetches == s1.fetches && inFlight == s1.inFlight;
        QueuedStep(name, deps, i, s0, j0, d0);
      } else {
        assert Called(cb, None, s.packages, j0 + [join], d0);
        if s.counted + 1 < |deps| - 3 {
          CountedStep(name, deps, i, s0, j0, d0);
        } else {
          LastCountedStep(name, deps, i, s0, j0, d0);
        }
      }
    }

    /** A turn of that loop on a dependency not loaded yet: it is requested, or its queue takes the counting callback. */
    lemma QueuedStep(name: string, deps: seq<string>, i: nat, s0: Dispatch, j0: seq<Pending>, d0: seq<Delivery>)
      requires 3 <= i < |deps|
      requires var s := DispatchAll(s0, deps[3..i], OnLoaded(|j0|));
               var s1 := DispatchOne(s, deps[i], OnLoaded(|j0|));
               && s.counted < |deps| - 3 && !Loaded(s.packages, deps[i])
               && DispatchAll(s0, deps[3..i + 1], OnLoaded(|j0|)) == s1
               && fetches == s1.fetches && inFlight == s1.inFlight && packages == s1.packages
               && delivered == d0 && joins == j0 + [Pending(name, |deps| - 3, s.counted, None)]
      ensures Dispatched(name, deps, i + 1, s0, j0, d0)
    {
    }

    /** A turn of that loop on a loaded dependency that is not the last to report: the join counts it. */
    lemma CountedStep(name: string, deps: seq<string>, i: nat, s0: Dispatch, j0: seq<Pending>, d0: seq<Delivery>)
      requires 3 <= i < |deps|
      requires var s := DispatchAll(s0, deps[3..i], OnLoaded(|j0|));
               && s.counted + 1 < |deps| - 3 && Loaded(s.packages, deps[i])
               && DispatchAll(s0, deps[3..i + 1], OnLoaded(|j0|)) == DispatchOne(s, deps[i], OnLoaded(|j0|))
               && fetches == s.fetches && inFlight == s.inFlight
               && Called(OnLoaded(|j0|), None, s.packages, j0 + [Pending(name, |deps| - 3, s.counted, None)], d0)
      ensures Dispatched(name, deps, i + 1, s0, j0, d0)
    {
      var s := DispatchAll(s0, deps[3..i], OnLoaded(|j0|));
      var join := Pending(name, |deps| - 3, s.counted, None);
      assert (j0 + [join])[|j0| := Counted(join, None)] == j0 + [join.(loaded := s.counted + 1)];
    }

    /** A turn of that loop on a loaded dependency that is the last to report: the package completes. */
    lemma LastCountedStep(name: string, deps: seq<string>, i: nat, s0: Dispatch, j0: seq<Pending>, d0: seq<Delivery>)
      requires 3 <= i < |deps| && s0.counted == 0
      requires var s := DispatchAll(s0, deps[3..i], OnLoaded(|j0|));
               && s.counted + 1 == |deps| - 3 && s.counted <= i - 3 && Loaded(s.packages, deps[i])
               && DispatchAll(s0, deps[3..i + 1], OnLoaded(|j0|)) == DispatchOne(s, deps[i], OnLoaded(|j0|))
               && fetches == s.fetches && inFlight == s.inFlight
               && Called(OnLoaded(|j0|), None, s.packages, j0 + [Pending(name, |deps| - 3, s.counted, None)], d0)
      ensures Dispatched(name, deps, i + 1, s0, j0, d0)
    {
      var s := DispatchAll(s0, deps[3..i], OnLoaded(|j0|));
      var join := Pending(name, |deps| - 3, s.counted, None);
      var next := join.(loaded := s.counted + 1);
      assert Counted(join, None) == next;
      assert (j0 + [join])[|j0| := next] == j0 + [next];
      assert CompletedFrom(name, None, s.packages, j0 + [next], d0);
      assert DispatchOne(s, deps[i], OnLoaded(|j0|)) == s.(counted := s.counted + 1);
      DispatchAllLoaded(s0, deps[3..i + 1], OnLoaded(|j0|));
      assert s.packages == s0.packages;
    }

    /** The `onload` handler of the script requested for `name`. */
    method ScriptLoaded(name: string)
      requires Valid() && name in inFlight
      modifies this`packages, this`joins, this`delivered, this`fetches, this`inFlight
      ensures Valid()
      ensures Extends(old(fetches), fetches) && Extends(old(delivered), delivered)
      ensures DependenciesLoaded(name, old(packages), old(fetches), old(inFlight) - {name}, old(joins), old(delivered))
    {
      inFlight := inFlight - {name};
      LoadDependencies(name);
    }

    /** The `onerror` handler of the script requested for `name`: the package completes with an error and is evicted. */
    method ScriptFailed(name: string)
      requires Valid() && name in inFlight
      modifies this`packages, this`joins, this`delivered, this`inFlight
      ensures Valid()
      ensures inFlight == old(inFlight) - {name}
      ensures Extends(old(delivered), delivered)
      ensures name !in Loading()
      ensures CompletedFrom(name, Some(CouldNotLoad(name)), old(packages), old(joins), old(delivered))
      ensures name in old(Loading()) ==>
                var q := old(packages[name].loading.value);
                var err := Some(CouldNotLoad(name));
                && name !in packages
                && Reached(q, err, delivered[|old(delivered)|..])
                && (AllUser(q) ==> delivered == old(delivered) + Notified(q, err) && packages == old(packages) - {name})
    {
      inFlight := inFlight - {name};
      Complete(name, Some(CouldNotLoad(name)));
    }

    /**
     * The loop of `onComplete`: calls every callback of the queue `q` with
     * `err`, in order; `chain` holds the state before the first call and
     * after each one.
     */
    method DeliverAll(q: seq<Callback>, err: Option<LoadError>, ghost top: set<string>) returns (ghost chain: seq<Snapshot>)
      requires Valid() && CallbacksValid(q, |joins|)
      requires Loading() < top
      modifies this`packages, this`joins, this`delivered
      decreases Loading(), 3
      ensures Calls(q, err, chain, top) && chain[0] == old(Now()) && chain[|q|] == Now()
      ensures Valid() && Counting(old(joins), joins)
      ensures Settled(old(packages), packages)
      ensures Extends(old(delivered), delivered)
      ensures Reached(q, err, delivered[|old(delivered)|..])
      ensures AllUser(q) ==>
                joins == old(joins) && packages == old(packages) && delivered == old(delivered) + Notified(q, err)
      ensures |q| == 1 ==> Called(q[0], err, old(packages), old(joins), old(delivered))
    {
      chain := [Now()];
      var i := 0;
      while i < |q|
        invariant 0 <= i <= |q|
        invariant Valid() && CallbacksValid(q, |joins|)
        invariant Delivering(q, i, err, old(Now()), Now(), top, chain)
      {
        chain := DeliverNext(q, i, err, old(Now()), top, chain);
        i := i + 1;
      }
      assert q[..|q|] == q;
      assert |q| == 1 ==> CallStep(q[0], err, chain[0], chain[1]);
    }

    /**
     * One turn of the loop of `onComplete`: calls `q[i]`, keeping what the
     * earlier turns established, and appends the state it leaves to `chain`.
     */
    method DeliverNext(q: seq<Callback>, i: nat, err: Option<LoadError>, ghost s0: Snapshot,
                       ghost top: set<string>, ghost chain: seq<Snapshot>)
      returns (ghost chain': seq<Snapshot>)
      requires i < |q|
      requires Valid() && CallbacksValid(q, |joins|)
      requires Delivering(q, i, err, s0, Now(), top, chain)
      modifies this`packages, this`joins, this`delivered
      decreases Loading(), 2
      ensures Valid() && CallbacksValid(q, |joins|)
      ensures Delivering(q, i + 1, err, s0, Now(), top, chain')
      ensures Called(q[i], err, old(packages), old(joins), old(delivered))
    {
      ghost var s1 := Now();
      Deliver(q[i], err);
      DeliveredOne(q, i, err, s0, s1, Now(), top, chain);
      chain' := chain + [Now()];
    }
  }

  /** What completions change: the table of packages, the joins and the deliveries made so far. */
  datatype Snapshot = Snapshot(packages: map<string, Package>, joins: seq<Pending>, delivered: seq<Delivery>)

  /**
   * `s1` is the state after callback `cb` is called with `err` in state
   * `s0`: a caller's callback is recorded; a counting callback counts one
   * more dependency and keeps the error, and when the count reaches the
   * number of dependencies the package that waited for them completes with
   * the kept error.
   */
  ghost predicate CallStep(cb: Callback, err: Option<LoadError>, s0: Snapshot, s1: Snapshot)
    decreases LoadingOf(s0.packages), 2
  {
    match cb
    case User(id) => s1 == s0.(delivered := s0.delivered + [Delivery(id, err)])
    case OnLoaded(k) =>
      && k < |s0.joins|
      && var next := Counted(s0.joins[k], err);
         if next.loaded == next.expected then Completion(next.pkg, next.error, s0.(joins := s0.joins[k := next]), s1)
         else s1 == s0.(joins := s0.joins[k := next])
  }

  /**
   * `s1` is the state after `onComplete(err)` of `name` in state `s0`: the
   * package no longer loads; nothing changes if it was not loading;
   * otherwise its record loses the `loading` list (or, on error, is
   * evicted), and then every callback of its queue is called with `err`, in
   * queue order, each from the state the one before it left, the last one
   * leaving `s1`. When the queue holds only caller callbacks, those are
   * recorded in order and nothing else happens.
   */
  ghost predicate Completion(name: string, err: Option<LoadError>, s0: Snapshot, s1: Snapshot)
    decreases LoadingOf(s0.packages), 1
  {
    && name !in LoadingOf(s1.packages) && Counting(s0.joins, s1.joins)
    && Settled(s0.packages, s1.packages) && Extends(s0.delivered, s1.delivered)
    && (name !in LoadingOf(s0.packages) ==> s1 == s0)
    && (name in LoadingOf(s0.packages) ==>
          var q := s0.packages[name].loading.value;
          && (err.Some? ==> name !in s1.packages)
          && (err.None? ==> name in s1.packages && s1.packages[name] == s0.packages[name].(loading := None))
          && Reached(q, err, s1.delivered[|s0.delivered|..])
          && (AllUser(q) ==>
                s1 == Snapshot(Finished(s0.packages, name, err), s0.joins, s0.delivered + Notified(q, err)))
          && exists chain :: Calls(q, err, chain, LoadingOf(s0.packages))
                             && chain[0] == s0.(packages := Finished(s0.packages, name, err))
                             && chain[|q|] == s1)
  }

  /**
   * `chain[k + 1]` is the state after `q[k]` is called with `err` in state
   * `chain[k]`, for every callback of `q`; fewer packages load in each of
   * those states than in `top`.
   */
  ghost predicate Calls(q: seq<Callback>, err: Option<LoadError>, chain: seq<Snapshot>, top: set<string>)
    decreases top, 0
  {
    && |chain| == |q| + 1
    && forall k | 0 <= k < |q| :: LoadingOf(chain[k].packages) < top && CallStep(q[k], err, chain[k], chain[k + 1])
  }

  /**
   * The loop of `onComplete` has called `q[..i]`, from state `s0` to state
   * `s`: completions only count joins, settle packages and append
   * deliveries; every caller among them was told; with only callers'
   * callbacks, exactly their deliveries were appended; and `chain` runs
   * through the calls, from `s0` to `s`.
   */
  ghost predicate Delivering(q: seq<Callback>, i: nat, err: Option<LoadError>, s0: Snapshot, s: Snapshot,
                             top: set<string>, chain: seq<Snapshot>)
  {
    && i <= |q| && LoadingOf(s.packages) < top
    && Counting(s0.joins, s.joins) && Settled(s0.packages, s.packages) && Extends(s0.delivered, s.delivered)
    && Reached(q[..i], err, s.delivered[|s0.delivered|..])
    && (AllUser(q) ==> s == s0.(delivered := s0.delivered + Notified(q[..i], err)))
    && |chain| == i + 1 && chain[0] == s0 && chain[i] == s && Calls(q[..i], err, chain, top)
  }

  /** The turn of the loop of `onComplete` that calls `q[i]` in state `s1`, leaving `s2`. */
  lemma DeliveredOne(q: seq<Callback>, i: nat, err: Option<LoadError>, s0: Snapshot, s1: Snapshot, s2: Snapshot,
                     top: set<string>, chain: seq<Snapshot>)
    requires i < |q| && Delivering(q, i, err, s0, s1, top, chain)
    requires Counting(s1.joins, s2.joins) && Settled(s1.packages, s2.packages) && Extends(s1.delivered, s2.delivered)
    requires CallStep(q[i], err, s1, s2)
    ensures Delivering(q, i + 1, err, s0, s2, top, chain + [s2])
  {
    SettledTransitive(s0.packages, s1.packages, s2.packages);
    SettledShrinksLoading(s1.packages, s2.packages);
    CountingTransitive(s0.joins, s1.joins, s2.joins);
    ReachedOneMore(q, i, err, s0.delivered, s1.delivered, s2.delivered);
    if AllUser(q) {
      NotifiedSnoc(q, i, err);
    }
    CallsSnoc(q, i, err, chain, top, s2);
  }

  /** One more call appended to a chain of calls. */
  lemma CallsSnoc(q: seq<Callback>, i: nat, err: Option<LoadError>, chain: seq<Snapshot>, top: set<string>, s: Snapshot)
    requires i < |q|
    requires Calls(q[..i], err, chain, top)
    requires LoadingOf(chain[i].packages) < top && CallStep(q[i], err, chain[i], s)
    ensures Calls(q[..i + 1], err, chain + [s], top)
  {
    var c := chain + [s];
    forall k | 0 <= k < i + 1
      ensures LoadingOf(c[k].packages) < top && CallStep(q[..i + 1][k], err, c[k], c[k + 1])
    {
      if k < i {
        assert q[..i][k] == q[..i + 1][k] && c[k] == chain[k] && c[k + 1] == chain[k + 1];
      }
    }
  }

  /** Every counting callback in `cbs` refers to one of the first `joinCount` joins. */
  predicate CallbacksValid(cbs: seq<Callback>, joinCount: nat)
  {
    forall i | 0 <= i < |cbs| :: cbs[i].OnLoaded? ==> cbs[i].join < joinCount
  }

  /** The packages with a `loading` list. */
  ghost function LoadingOf(packages: map<string, Package>): set<string>
  {
    set n | n in packages && packages[n].loading.Some?
  }

  predicate AllUser(cbs: seq<Callback>)
  {
    forall i | 0 <= i < |cbs| :: cbs[i].User?
  }

  /** The caller callbacks of a queue, each called with `err`, in queue order. */
  function Notified(cbs: seq<Callback>, err: Option<LoadError>): (ds: seq<Delivery>)
    ensures AllUser(cbs) ==> |ds| == |cbs|
    ensures AllUser(cbs) ==> forall i | 0 <= i < |cbs| :: ds[i] == Delivery(cbs[i].id, err)
    decreases |cbs|
  {
    if |cbs| == 0 then []
    else
      var last := cbs[|cbs| - 1];
      Notified(cbs[..|cbs| - 1], err) + (if last.User? then [Delivery(last.id, err)] else [])
  }

  /** The same joins, waiting for the same package and number of dependencies; only their counts and errors may differ. */
  predicate Counting(a: seq<Pending>, b: seq<Pending>)
  {
    |a| == |b| && forall k | 0 <= k < |a| :: a[k].pkg == b[k].pkg && a[k].expected == b[k].expected
  }

  lemma CountingTransitive(a: seq<Pending>, b: seq<Pending>, c: seq<Pending>)
    requires Counting(a, b) && Counting(b, c)
    ensures Counting(a, c)
  {
  }

  /** A join after one more dependency reported `err`: the count grows and an error replaces the kept one. */
  function Counted(p: Pending, err: Option<LoadError>): (r: Pending)
    ensures r.pkg == p.pkg && r.expected == p.expected && r.loaded == p.loaded + 1
    ensures r.error == if err.Some? then err else p.error
  {
    p.(loaded := p.loaded + 1, error := if err.Some? then err else p.error)
  }

  /** The table once `onComplete(err)` of `name` has deleted the `loading` list, or on error the record. */
  function Finished(packages: map<string, Package>, name: string, err: Option<LoadError>): (r: map<string, Package>)
    requires name in packages
    ensures err.Some? ==> name !in r && r.Keys == packages.Keys - {name}
    ensures err.None? ==> name in r && r[name].loading.None? && r.Keys == packages.Keys
    ensures forall n | n in r && n != name :: r[n] == packages[n]
  {
    if err.Some? then packages - {name} else packages[name := packages[name].(loading := None)]
  }

  /** A package whose bundle and dependencies have loaded: its record is there, with no `loading` list. */
  predicate Loaded(packages: map<string, Package>, name: string)
  {
    name in packages && packages[name].loading.None?
  }

  /**
   * What the loop of `loadDependencies` changes while its join is not
   * complete: the table, the requests, the scripts in flight, and how many
   * dependencies have reported.
   */
  datatype Dispatch = Dispatch(packages: map<string, Package>, fetches: seq<string>, inFlight: set<string>, counted: nat)

  /** `loadPackage(d, cb)` for a counting callback whose join does not complete. */
  function DispatchOne(s: Dispatch, d: string, cb: Callback): Dispatch
  {
    if d !in s.packages then
      s.(packages := s.packages[d := EmptyPackage.(loading := Some([cb]))],
         fetches := s.fetches + [BundleSource(d)],
         inFlight := s.inFlight + {d})
    else if s.packages[d].loading.Some? then
      s.(packages := s.packages[d := s.packages[d].(loading := Some(s.packages[d].loading.value + [cb]))])
    else
      s.(counted := s.counted + 1)
  }

  /** `loadPackage(names[k], cb)` for each `k` in turn. */
  function DispatchAll(s: Dispatch, names: seq<string>, cb: Callback): Dispatch
    decreases |names|
  {
    if |names| == 0 then s
    else DispatchOne(DispatchAll(s, names[..|names| - 1], cb), names[|names| - 1], cb)
  }

  /** How many of `names` are loaded in `packages`. */
  function LoadedCount(packages: map<string, Package>, names: seq<string>): (c: nat)
    ensures c <= |names|
    ensures c == |names| <==> forall k | 0 <= k < |names| :: Loaded(packages, names[k])
    decreases |names|
  {
    if |names| == 0 then 0
    else LoadedCount(packages, names[..|names| - 1]) + (if Loaded(packages, names[|names| - 1]) then 1 else 0)
  }

  /** The names of `names` not in `known`, each once, in the order of their first occurrence. */
  function Fresh(known: set<string>, names: seq<string>): (f: seq<string>)
    ensures forall x :: x in f <==> x in names && x !in known
    ensures forall a, b | 0 <= a < b < |f| :: f[a] != f[b]
    decreases |names|
  {
    if |names| == 0 then []
    else
      var f := Fresh(known, names[..|names| - 1]);
      var last := names[|names| - 1];
      if last in known || last in f then f else f + [last]
  }

  /** The bundle requests for the packages `xs`, in order. */
  function Bundles(xs: seq<string>): (r: seq<string>)
    ensures |r| == |xs| && forall k | 0 <= k < |xs| :: r[k] == BundleSource(xs[k])
  {
    seq(|xs|, k requires 0 <= k < |xs| => BundleSource(xs[k]))
  }

  /** The loop of `loadDependencies` extends the fold by one dependency per turn. */
  lemma DispatchSnoc(s: Dispatch, deps: seq<string>, i: nat, cb: Callback)
    requires 3 <= i < |deps|
    ensures DispatchAll(s, deps[3..i + 1], cb) == DispatchOne(DispatchAll(s, deps[3..i], cb), deps[i], cb)
  {
    assert deps[3..i + 1][..i - 3] == deps[3..i];
  }

  lemma {:induction false} DispatchCountBound(s: Dispatch, names: seq<string>, cb: Callback)
    ensures DispatchAll(s, names, cb).counted <= s.counted + |names|
    decreases |names|
  {
    if |names| > 0 {
      DispatchCountBound(s, names[..|names| - 1], cb);
    }
  }

  /** When every dependency was counted, the fold changed nothing but the count: all were loaded already. */
  lemma {:induction false} DispatchAllLoaded(s: Dispatch, names: seq<string>, cb: Callback)
    requires DispatchAll(s, names, cb).counted == s.counted + |names|
    ensures DispatchAll(s, names, cb) == s.(counted := s.counted + |names|)
    decreases |names|
  {
    if |names| > 0 {
      var init := names[..|names| - 1];
      DispatchCountBound(s, init, cb);
      DispatchAllLoaded(s, init, cb);
    }
  }

  lemma {:induction false} DispatchExtends(s: Dispatch, names: seq<string>, cb: Callback)
    ensures Extends(s.fetches, DispatchAll(s, names, cb).fetches)
    decreases |names|
  {
    if |names| > 0 {
      DispatchExtends(s, names[..|names| - 1], cb);
    }
  }

  /**
   * The fold never completes or changes a loaded package, and never makes
   * one of the others loaded.
   */
  lemma {:induction false} DispatchKeepsLoaded(s: Dispatch, names: seq<string>, cb: Callback, n: string)
    ensures Loaded(DispatchAll(s, names, cb).packages, n) <==> Loaded(s.packages, n)
    ensures Loaded(s.packages, n) ==> DispatchAll(s, names, cb).packages[n] == s.packages[n]
    decreases |names|
  {
    if |names| > 0 {
      DispatchKeepsLoaded(s, names[..|names| - 1], cb, n);
    }
  }

  /**
   * The accounting of `loadDependencies`: every dependency is either counted
   * at once, being loaded already, or holds the counting callback in its
   * `loading` list, where it waits for that package to complete.
   */
  lemma {:induction false} DispatchAccounting(s: Dispatch, names: seq<string>, cb: Callback)
    ensures DispatchAll(s, names, cb).counted == s.counted + LoadedCount(s.packages, names)
    ensures forall k | 0 <= k < |names| && !Loaded(s.packages, names[k]) ::
              && names[k] in DispatchAll(s, names, cb).packages
              && DispatchAll(s, names, cb).packages[names[k]].loading.Some?
              && cb in DispatchAll(s, names, cb).packages[names[k]].loading.value
    decreases |names|
  {
    if |names| > 0 {
      var init := names[..|names| - 1];
      var last := names[|names| - 1];
      var r := DispatchAll(s, init, cb);
      DispatchAccounting(s, init, cb);
      DispatchKeepsLoaded(s, init, cb, last);
      var r2 := DispatchOne(r, last, cb);
      forall k | 0 <= k < |names| && !Loaded(s.packages, names[k])
        ensures names[k] in r2.packages && r2.packages[names[k]].loading.Some?
        ensures cb in r2.packages[names[k]].loading.value
      {
        if k < |names| - 1 {
          assert init[k] == names[k];
          if names[k] == last {
            assert cb in r.packages[last].loading.value + [cb];
          }
        } else if last in r.packages {
          assert r2.packages[last].loading.value == r.packages[last].loading.value + [cb];
        } else {
          assert r2.packages[last].loading.value == [cb];
        }
      }
    }
  }

  /** The fold gives a record to every name it is handed and to no other. */
  lemma {:induction false} DispatchKeys(s: Dispatch, names: seq<string>, cb: Callback)
    ensures DispatchAll(s, names, cb).packages.Keys == s.packages.Keys + (set x | x in names)
    decreases |names|
  {
    if |names| > 0 {
      var init := names[..|names| - 1];
      var last := names[|names| - 1];
      var r := DispatchAll(s, init, cb);
      DispatchKeys(s, init, cb);
      assert DispatchAll(s, names, cb).packages.Keys == r.packages.Keys + {last};
      assert (set x | x in names) == (set x | x in init) + {last} by {
        assert names == init + [last];
      }
    }
  }

  /**
   * The requests of `loadDependencies`: each dependency not in the table
   * gets its bundle requested exactly once, in the order of the dependency
   * list; no other bundle is requested.
   */
  lemma {:induction false} DispatchRequests(s: Dispatch, names: seq<string>, cb: Callback)
    ensures DispatchAll(s, names, cb).fetches == s.fetches + Bundles(Fresh(s.packages.Keys, names))
    decreases |names|
  {
    if |names| > 0 {
      var init := names[..|names| - 1];
      var last := names[|names| - 1];
      var known := s.packages.Keys;
      var f := Fresh(known, init);
      var r := DispatchAll(s, init, cb);
      DispatchRequests(s, init, cb);
      DispatchKeys(s, init, cb);
      if last in known || last in f {
        assert last in r.packages;
      } else {
        assert last !in r.packages;
        assert Bundles(f + [last]) == Bundles(f) + [BundleSource(last)];
      }
    }
  }

  /** The scripts in flight afterwards: those before, and one for each dependency that had no record. */
  lemma {:induction false} DispatchInFlight(s: Dispatch, names: seq<string>, cb: Callback)
    ensures DispatchAll(s, names, cb).inFlight == s.inFlight + (set x | x in names && x !in s.packages)
    decreases |names|
  {
    if |names| > 0 {
      var init := names[..|names| - 1];
      var last := names[|names| - 1];
      DispatchInFlight(s, init, cb);
      DispatchKeys(s, init, cb);
      assert (set x | x in names && x !in s.packages)
             == (set x | x in init && x !in s.packages) + (if last in s.packages then {} else {last}) by {
        assert names == init + [last];
      }
    }
  }

  /** `b` is `a` followed by more entries. */
  predicate Extends<T(==)>(a: seq<T>, b: seq<T>)
  {
    |a| <= |b| && b[..|a|] == a
  }

  /**
   * `after` is `before` with some packages that were loading completed: their
   * `loading` list deleted, or the record evicted. Nothing is added, and a
   * package that was not loading is untouched.
   */
  ghost predicate Settled(before: map<string, Package>, after: map<string, Package>)
  {
    && (forall n | n in after :: n in before && (after[n] == before[n] || after[n] == before[n].(loading := None)))
    && (forall n | n in before && before[n].loading.None? :: n in after && after[n] == before[n])
  }

  lemma SettledTransitive(a: map<string, Package>, b: map<string, Package>, c: map<string, Package>)
    requires Settled(a, b) && Settled(b, c)
    ensures Settled(a, c)
  {
  }

  /** Completion never starts a load. */
  lemma SettledShrinksLoading(before: map<string, Package>, after: map<string, Package>)
    requires Settled(before, after)
    ensures LoadingOf(after) <= LoadingOf(before)
  {
  }

  lemma NotifiedSnoc(q: seq<Callback>, i: nat, err: Option<LoadError>)
    requires i < |q| && q[i].User?
    ensures Notified(q[..i + 1], err) == Notified(q[..i], err) + [Delivery(q[i].id, err)]
  {
    assert q[..i + 1][..i] == q[..i];
  }

  /** Every caller callback of `q` appears, called with `err`, among the deliveries `ds`. */
  predicate Reached(q: seq<Callback>, err: Option<LoadError>, ds: seq<Delivery>)
  {
    forall k | 0 <= k < |q| && q[k].User? :: Delivery(q[k].id, err) in ds
  }

  /** One more turn of the delivery loop: what was reached stays reached, and `q[i]` is reached too. */
  lemma ReachedOneMore(q: seq<Callback>, i: nat, err: Option<LoadError>, d0: seq<Delivery>, d1: seq<Delivery>, d2: seq<Delivery>)
    requires i < |q|
    requires Extends(d0, d1) && Extends(d1, d2)
    requires Reached(q[..i], err, d1[|d0|..])
    requires q[i].User? ==> d2 == d1 + [Delivery(q[i].id, err)]
    ensures Extends(d0, d2)
    ensures Reached(q[..i + 1], err, d2[|d0|..])
  {
    assert d2[..|d1|] == d1;
    var q1 := q[..i + 1];
    forall k | 0 <= k < |q1| && q1[k].User?
      ensures Delivery(q1[k].id, err) in d2[|d0|..]
    {
      if k < i {
        assert q[..i][k] == q[k];
        var t :| 0 <= t < |d1[|d0|..]| && d1[|d0|..][t] == Delivery(q[k].id, err);
        assert d2[|d0|..][t] == d1[|d0|..][t];
      } else {
        assert d2[|d0|..][|d2| - 1 - |d0|] == Delivery(q[i].id, err);
      }
    }
  }

  /** A fresh loader once callers 1 and 2 have loaded package "foo", whose bundle is in flight. */
  method TwoWaiting() returns (meat: Meat)
    ensures fresh(meat) && meat.Valid()
    ensures meat.packages == map["foo" := EmptyPackage.(loading := Some([User(1), User(2)]))]
    ensures meat.fetches == [BundleSource("foo")] && meat.inFlight == {"foo"}
    ensures meat.joins == [] && meat.delivered == []
  {
    meat := new Meat();
    meat.LoadPackage("foo", User(1));
    assert "foo" in meat.Loading();
    meat.LoadPackage("foo", User(2));
    assert meat.packages["foo"].loading == Some([User(1)] + [User(2)]);
    assert [User(1)] + [User(2)] == [User(1), User(2)];
  }

  /**
   * Two callers load package "foo" while its bundle is in flight: one
   * request. The script fails: both are told, with the same error, and the
   * record is evicted, so the next load requests the bundle again.
   */
  method FailedLoadScenario() returns (fetches: seq<string>, delivered: seq<Delivery>, retrying: bool)
    ensures fetches == [BundleSource("foo"), BundleSource("foo")]
    ensures delivered == [Delivery(1, Some(CouldNotLoad("foo"))), Delivery(2, Some(CouldNotLoad("foo")))]
    ensures retrying
  {
    var meat := TwoWaiting();
    meat.ScriptFailed("foo");
    meat.LoadPackage("foo", User(3));
    fetches := meat.fetches;
    delivered := meat.delivered;
    retrying := "foo" in meat.inFlight && meat.packages["foo"].loading == Some([User(3)]);
  }

  /** A fresh loader once caller 1 has loaded package "foo", whose bundle registered `foo/foo` and loaded. */
  method FooLoaded() returns (meat: Meat)
    ensures fresh(meat) && meat.Valid()
    ensures meat.packages == map["foo" := MainRecord("foo", BareDeps, [User(1)]).(loading := None)]
    ensures meat.fetches == [BundleSource("foo")] && meat.delivered == [Delivery(1, None)]
  {
    meat := Registered("foo", BareDeps);
    ghost var p0 := meat.packages;
    meat.ScriptLoaded("foo");
    assert meat.Called(User(1), None, Finished(p0, "foo", None), [], []);
  }

  /**
   * A caller loads package "foo"; the bundle registers its main module,
   * whose dependency list holds only the `require`, `exports`, `module`
   * parameters, and loads: the caller is told there was no error, and a
   * later caller is told at once, without a second request.
   */
  method LoadedScenario() returns (fetches: seq<string>, delivered: seq<Delivery>, main: Option<string>)
    ensures fetches == [BundleSource("foo")]
    ensures delivered == [Delivery(1, None), Delivery(2, None)]
    ensures main == Some("foo/foo")
  {
    var meat := FooLoaded();
    meat.LoadPackage("foo", User(2));
    fetches := meat.fetches;
    delivered := meat.delivered;
    main := meat.packages["foo"].mainFile;
    assert "foo" + "/" + "foo" == "foo/foo";
  }

  /** The factory of a module that requires nothing and keeps its exports object. */
  const PlainFactory := Factory([], None)

  /** The module path `p/l/x`: its split, its cache key, its directory and its package and file. */
  lemma ModulePath(p: string, l: string, x: string)
    requires IsName(p) && IsName(l) && IsName(x)
    ensures Split(p + "/" + l + "/" + x, '/') == [p, l, x]
    ensures Join([p, l, x], '/') == p + "/" + l + "/" + x
    ensures DirOf([p, l, x]) == p + "/" + l
    ensures PackageOf([p, l, x]) == p && InnerPath([p, l, x]) == l + "/" + x
  {
    JoinThree(p, l, x);
    SplitJoin([p, l, x], '/');
    assert [p, l, x][..2] == [p, l] && [p, l, x][1..] == [l, x];
  }

  /** The segments `p`, `l`, `x` joined with '/', and the first two and the last two of them. */
  lemma JoinThree(p: string, l: string, x: string)
    ensures Join([p, l, x], '/') == p + "/" + l + "/" + x
    ensures Join([p, l], '/') == p + "/" + l && Join([l, x], '/') == l + "/" + x
  {
    JoinCons([p, l, x], '/');
    assert [p, l, x][1..] == [l, x];
    JoinCons([l, x], '/');
    assert [l, x][1..] == [x];
    JoinCons([p, l], '/');
    assert [p, l][1..] == [l];
  }

  /**
   * Two modules `p/l/a` and `p/l/b` registered into an empty table make
   * package `p` with files `l/a` and `l/b` and no main file.
   */
  lemma SiblingsRegister(p: string, l: string, a: string, b: string, fa: Factory, fb: Factory)
    requires IsName(p) && IsName(l) && IsName(a) && IsName(b) && a != p && b != p
    ensures WithModule(WithModule(map[], p + "/" + l + "/" + a, [], fa), p + "/" + l + "/" + b, [], fb)
            == map[p := Package(map[l + "/" + a := fa, l + "/" + b := fb], None, [], None)]
  {
    ModulePath(p, l, a);
    ModulePath(p, l, b);
    assert [p, l, a][1..] == [l, a] && [p, l, b][1..] == [l, b];
    assert Join([l, a], '/') == l + "/" + a && Join([l, b], '/') == l + "/" + b;
  }

  /**
   * Required from the top, `p/l/a` is made in the directory `p/l`, where
   * "./b" is `p/l/b`; resolved from the top instead, "./b" would name a
   * package `b`, which is not there.
   */
  lemma SiblingResolvesIn(p: string, l: string, a: string, b: string, fa: Factory, fb: Factory)
    requires IsName(p) && IsName(l) && IsName(a) && IsName(b) && a != b && b != p
    ensures var packages := map[p := Package(map[l + "/" + a := fa, l + "/" + b := fb], None, [], None)];
      && Classify(packages, map[], p + "/" + l + "/" + a, "") == Instantiate(p + "/" + l + "/" + a, fa, p + "/" + l)
      && Classify(packages, map[], "." + "/" + b, p + "/" + l) == Instantiate(p + "/" + l + "/" + b, fb, p + "/" + l)
      && Classify(packages, map[], "." + "/" + b, "") == Fails(UnavailablePackage(b))
  {
    var packages := map[p := Package(map[l + "/" + a := fa, l + "/" + b := fb], None, [], None)];
    ModulePath(p, l, a);
    ModulePath(p, l, b);
    ResolveJoined([p, l, a], "");
    ResolveDot(b, p, l);
    assert p + "/" + l + "/" + a !in packages by {
      assert '/' in p + "/" + l + "/" + a;
    }
    assert "." + "/" + b !in packages by {
      assert '/' in "." + "/" + b;
    }
    assert Target(packages, p + "/" + l + "/" + a, "") == Ok([p, l, a]);
    assert l + "/" + a != l + "/" + b by {
      assert (l + "/" + a)[|l| + 1..] == a && (l + "/" + b)[|l| + 1..] == b;
    }
    assert Locate(packages, [p, l, a]) == Ok(fa);
    assert Target(packages, "." + "/" + b, p + "/" + l) == Ok([p, l, b]);
    assert Locate(packages, [p, l, b]) == Ok(fb);
    assert Target(packages, "." + "/" + b, "") == Ok([b]);
    assert Locate(packages, [b]) == Err(UnavailablePackage(b));
  }

  /** A fresh loader once a bundle has registered `p/l/a` and `p/l/b`. */
  method Siblings(p: string, l: string, a: string, b: string, fa: Factory, fb: Factory) returns (meat: Meat)
    requires IsName(p) && IsName(l) && IsName(a) && IsName(b) && a != p && b != p
    ensures fresh(meat) && meat.Valid()
    ensures meat.packages == map[p := Package(map[l + "/" + a := fa, l + "/" + b := fb], None, [], None)]
  {
    meat := new Meat();
    meat.AddModuleFile(p + "/" + l + "/" + a, [], fa);
    meat.AddModuleFile(p + "/" + l + "/" + b, [], fb);
    SiblingsRegister(p, l, a, b, fa, fb);
  }

  /**
   * A fresh loader registers `pkg/lib/a`, whose factory requires "./b", and
   * `pkg/lib/b`; a `require` made at the top requires `pkg/lib/a`. The first
   * module made is `pkg/lib/a`, and once it has run, its "./b" has made
   * `pkg/lib/b` (from the top, "./b" would have named a package "b").
   */
  method SiblingScenario() returns (r: Result<Value, RequireError>, first: string, sibling: bool)
    ensures first == "pkg/lib/a"
    ensures r.Ok? ==> sibling
  {
    var p, l, a, b := "pkg", "lib", "a", "b";
    assert p + "/" + l + "/" + a == "pkg/lib/a";
    var fa := Factory(["." + "/" + b], None);
    var meat := Siblings(p, l, a, b, fa, PlainFactory);
    SiblingResolvesIn(p, l, a, b, fa, PlainFactory);
    var domain := new Domain();
    var main;
    r, main := meat.Require(domain, RequireFn("", None), p + "/" + l + "/" + a, {});
    first := domain.instances[0].id;
    assert fa.imports[0] == "." + "/" + b;
    sibling := p + "/" + l + "/" + b in domain.exports;
  }

  /** The dependency list of a module that needs nothing but `require`, `exports` and `module`. */
  const BareDeps := ["require", "exports", "module"]

  /**
   * The record of `name` once its bundle has registered the main module
   * `name/name` with dependency list `deps`, while `loading` waits.
   */
  function MainRecord(name: string, deps: seq<string>, loading: seq<Callback>): (p: Package)
    ensures p.mainFile == Some(name + "/" + name) && p.files.Keys == {name} && p.loading == Some(loading)
  {
    Package(map[name := PlainFactory], Some(name + "/" + name), deps, Some(loading))
  }

  /** A fresh loader once caller 1 has loaded `name` and its bundle has registered `name/name`. */
  method Registered(name: string, deps: seq<string>) returns (meat: Meat)
    requires name != "" && '/' !in name
    ensures fresh(meat) && meat.Valid()
    ensures meat.packages == map[name := MainRecord(name, deps, [User(1)])]
    ensures meat.inFlight == {name} && meat.fetches == [BundleSource(name)]
    ensures meat.joins == [] && meat.delivered == []
  {
    meat := new Meat();
    meat.LoadPackage(name, User(1));
    MainModuleRegisters(meat.packages, name, [User(1)], deps, PlainFactory);
    meat.AddModuleFile(name + "/" + name, deps, PlainFactory);
  }

  /**
   * The first module a fresh package registers under `name/name` becomes its
   * main file, and is stored under the file name `name`.
   */
  lemma MainModuleRegisters(packages: map<string, Package>, name: string, loading: seq<Callback>, deps: seq<string>, fcn: Factory)
    requires name != "" && '/' !in name
    requires name in packages && packages[name] == EmptyPackage.(loading := Some(loading))
    ensures WithModule(packages, name + "/" + name, deps, fcn)
            == packages[name := Package(map[name := fcn], Some(name + "/" + name), deps, Some(loading))]
  {
    SplitJoin([name, name], '/');
    assert Join([name, name], '/') == name + "/" + name;
    assert [name, name][1..] == [name];
  }

  /**
   * A caller loads package "a", whose main module depends on "b" after the
   * `require`, `exports`, `module` parameters. The bundle of "a" loads and
   * "b" is requested; the caller is told nothing yet. The bundle of "b"
   * loads: "b" completes, its counting callback completes "a", and the
   * caller is told once, with no error.
   */
  method DependencyScenario() returns (fetches: seq<string>, early: seq<Delivery>, delivered: seq<Delivery>, settled: bool)
    ensures fetches == [BundleSource("a"), BundleSource("b")]
    ensures early == []
    ensures delivered == [Delivery(1, None)]
    ensures settled
  {
    var meat := AWaitsForB();
    early := meat.delivered;
    BRegisters(meat);
    BLoads(meat);
    fetches := meat.fetches;
    delivered := meat.delivered;
    settled := meat.packages == map["a" := ARecord.(loading := None), "b" := BRecord.(loading := None)];
  }

  const ADeps := BareDeps + ["b"]
  const ARecord := MainRecord("a", ADeps, [User(1)])
  const BRecord := MainRecord("b", BareDeps, [OnLoaded(0)])

  /** The bundle of "b" registers `b/b` while "a" waits for it. */
  method BRegisters(meat: Meat)
    requires meat.Valid()
    requires meat.packages == map["a" := ARecord, "b" := EmptyPackage.(loading := Some([OnLoaded(0)]))]
    modifies meat
    ensures meat.Valid()
    ensures meat.packages == map["a" := ARecord, "b" := BRecord]
    ensures unchanged(meat`inFlight, meat`fetches, meat`joins, meat`delivered)
  {
    MainModuleRegisters(meat.packages, "b", [OnLoaded(0)], BareDeps, PlainFactory);
    meat.AddModuleFile("b" + "/" + "b", BareDeps, PlainFactory);
  }


  /**
   * The bundle of "b" loads: "b" completes, and its one callback, the
   * counting callback of the join of "a", completes "a", whose caller is told.
   */
  method BLoads(meat: Meat)
    requires meat.Valid() && meat.inFlight == {"b"}
    requires meat.packages == map["a" := ARecord, "b" := BRecord]
    requires meat.joins == [Pending("a", 1, 0, None)] && meat.delivered == []
    modifies meat
    ensures meat.packages == map["a" := ARecord.(loading := None), "b" := BRecord.(loading := None)]
    ensures meat.delivered == [Delivery(1, None)] && meat.fetches == old(meat.fetches)
  {
    ghost var p0 := meat.packages;
    ghost var j0 := meat.joins;
    meat.ScriptLoaded("b");
    assert meat.CompletedWith("b", None, p0, j0, []);
    BCompletesA(meat, p0, j0);
  }

  /** The completion of "b" calls the counting callback of the join of "a", which completes "a". */
  lemma BCompletesA(meat: Meat, p0: map<string, Package>, j0: seq<Pending>)
    requires p0 == map["a" := ARecord, "b" := BRecord] && j0 == [Pending("a", 1, 0, None)]
    requires meat.CompletedWith("b", None, p0, j0, [])
    ensures meat.packages == map["a" := ARecord.(loading := None), "b" := BRecord.(loading := None)]
    ensures meat.delivered == [Delivery(1, None)]
  {
    var mid := Finished(p0, "b", None);
    assert mid == map["a" := ARecord, "b" := BRecord.(loading := None)];
    assert meat.Called(OnLoaded(0), None, mid, j0, []);
    LastCountCompletes(0, 1, Snapshot(mid, j0, []), meat.Now());
  }

  /**
   * The counting callback of a join whose dependencies have all but one
   * reported, none with an error: the package that waited completes without
   * error and its one caller is told.
   */
  lemma LastCountCompletes(k: nat, id: nat, s0: Snapshot, s1: Snapshot)
    requires k < |s0.joins| && s0.joins[k].loaded + 1 == s0.joins[k].expected && s0.joins[k].error.None?
    requires s0.joins[k].pkg in s0.packages && s0.packages[s0.joins[k].pkg].loading == Some([User(id)])
    requires CallStep(OnLoaded(k), None, s0, s1)
    ensures var name := s0.joins[k].pkg;
            s1.packages == s0.packages[name := s0.packages[name].(loading := None)]
    ensures s1.delivered == s0.delivered + [Delivery(id, None)]
  {
    var name := s0.joins[k].pkg;
    var next := Counted(s0.joins[k], None);
    assert Completion(name, None, s0.(joins := s0.joins[k := next]), s1);
    assert name in LoadingOf(s0.packages) && AllUser([User(id)]);
    assert Notified([User(id)], None) == [Delivery(id, None)];
  }

  /** The bundle of "a" has loaded: "b" is requested and holds the counting callback of the one join. */
  method AWaitsForB() returns (meat: Meat)
    ensures fresh(meat) && meat.Valid()
    ensures meat.packages == map["a" := ARecord, "b" := EmptyPackage.(loading := Some([OnLoaded(0)]))]
    ensures meat.inFlight == {"b"} && meat.fetches == [BundleSource("a"), BundleSource("b")]
    ensures meat.joins == [Pending("a", 1, 0, None)] && meat.delivered == []
  {
    meat := Registered("a", ADeps);
    meat.ScriptLoaded("a");
    assert ADeps[3..4] == ["b"] && ["b"][..0] == [];
  }
}
