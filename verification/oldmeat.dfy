/**
 * The older browser loader of grinder/meat.js. Its package records have no
 * dependency list and no loading state, and the main module of a package is
 * a factory, not a path: a module registered under the bare package name is
 * the main module, and `require` of a one-segment path reaches it. There is
 * no package-name substitution before resolution.
 */
module OldMeat {
  import opened Text
  import opened Paths
  import opened Runtime

  /** A package record: factories by path inside the package, and the main factory. */
  datatype OldPackage = OldPackage(files: map<string, Factory>, mainFile: Option<Factory>)

  const EmptyOldPackage := OldPackage(map[], None)

  /** The table after `addModuleFile(id, fcn)`. */
  function WithOldModule(packages: map<string, OldPackage>, id: string, fcn: Factory): map<string, OldPackage>
  {
    var splitId := Split(id, '/');
    var name := splitId[0];
    var pack := if name in packages then packages[name] else EmptyOldPackage;
    if |splitId| == 1 then packages[name := pack.(mainFile := Some(fcn))]
    else packages[name := pack.(files := pack.files[Join(splitId[1..], '/') := fcn])]
  }

  /** Every cache key under which `require` can create a module. */
  function OldModuleKeys(packages: map<string, OldPackage>): set<string>
  {
    {""}
    + (set n, f | n in packages && f in packages[n].files :: n + "/" + f)
    + (set n | n in packages && packages[n].mainFile.Some? :: n)
  }

  /** The factory for a resolved path array: the main factory for one segment, `files[rest]` otherwise. */
  function OldLocate(packages: map<string, OldPackage>, pa: seq<string>): Result<Factory, RequireError>
  {
    var name := PackageOf(pa);
    if name !in packages then Err(UnavailablePackage(name))
    else if |pa| == 1 then
      match packages[name].mainFile
      case None => Err(UnavailableModule(InnerPath(pa)))
      case Some(m) => Ok(m)
    else if InnerPath(pa) !in packages[name].files then Err(UnavailableModule(InnerPath(pa)))
    else Ok(packages[name].files[InnerPath(pa)])
  }

  function OldClassify(packages: map<string, OldPackage>, cache: map<string, Value>, moduleName: string, currentPath: string): (p: Plan)
    ensures p.Cached? ==> Truthy(p.value)
    ensures p.Fails? ==> p.error.UnavailablePackage? || p.error.UnavailableModule?
    ensures p.Instantiate? ==> p.key in OldModuleKeys(packages) && !(p.key in cache && Truthy(cache[p.key]))
    ensures p.Instantiate? ==>
              p.key == Join(Resolve(moduleName, currentPath), '/') && p.dir == DirOf(Resolve(moduleName, currentPath))
  {
    var pa := Resolve(moduleName, currentPath);
    var key := Join(pa, '/');
    if key in cache && Truthy(cache[key]) then Cached(cache[key])
    else match OldLocate(packages, pa)
      case Err(e) => Fails(e)
      case Ok(f) =>
        OldKeyIsModuleKey(packages, pa);
        Instantiate(key, f, DirOf(pa))
  }

  /** The module `require(moduleName)` from `currentPath` resolves to is in the cache `exports`. */
  predicate OldImportedOne(moduleName: string, currentPath: string, exports: map<string, Value>)
  {
    Join(Resolve(moduleName, currentPath), '/') in exports
  }

  /** Every one of `names`, required from `currentPath`, is cached. */
  predicate OldImported(names: seq<string>, currentPath: string, exports: map<string, Value>)
  {
    forall i | 0 <= i < |names| :: OldImportedOne(names[i], currentPath, exports)
  }

  /** The imports before `names[i]` stay cached while `names[i]` is required, so one more is imported. */
  lemma OldImportedNext(names: seq<string>, i: nat, currentPath: string, before: map<string, Value>, after: map<string, Value>)
    requires i < |names|
    requires OldImported(names[..i], currentPath, before)
    requires forall k | k in before :: k in after
    requires OldImportedOne(names[i], currentPath, after)
    ensures OldImported(names[..i + 1], currentPath, after)
  {
    assert names[..i + 1] == names[..i] + [names[i]];
  }

  /** A cache that only gains keys keeps every import it held. */
  lemma OldImportedGrows(names: seq<string>, currentPath: string, before: map<string, Value>, after: map<string, Value>)
    requires OldImported(names, currentPath, before)
    requires forall k | k in before :: k in after
    ensures OldImported(names, currentPath, after)
  {
  }

  lemma OldKeyIsModuleKey(packages: map<string, OldPackage>, pa: seq<string>)
    requires OldLocate(packages, pa).Ok?
    ensures Join(pa, '/') in OldModuleKeys(packages)
  {
    if |pa| >= 2 {
      FullPathSplits(pa);
    }
  }

  /** A module registered under a bare package name is what `require` of that name finds, from any directory. */
  lemma RegisteredMainIsLocated(packages: map<string, OldPackage>, name: string, fcn: Factory, currentPath: string)
    requires IsName(name)
    ensures OldLocate(WithOldModule(packages, name, fcn), Resolve(name, currentPath)) == Ok(fcn)
  {
    SplitWithoutSeparator(name, '/');
    ResolveJoined([name], currentPath);
  }

  /** A module registered under a plain path of two or more segments is what `require` of that path finds. */
  lemma RegisteredFileIsLocated(packages: map<string, OldPackage>, id: string, fcn: Factory, currentPath: string)
    requires Normal(Split(id, '/')) && '/' in id
    ensures OldLocate(WithOldModule(packages, id, fcn), Resolve(id, currentPath)) == Ok(fcn)
  {
    var segs := Split(id, '/');
    JoinSplit(id, '/');
    ResolveJoined(segs, currentPath);
  }

  class OldMeat {
    var packages: map<string, OldPackage>

    constructor ()
      ensures packages == map[]
    {
      packages := map[];
    }

    /** `ensurePackage`: creates an empty record only when the name is absent. */
    method EnsurePackage(name: string)
      modifies this
      ensures name in packages
      ensures name in old(packages) ==> packages == old(packages)
      ensures name !in old(packages) ==> packages == old(packages)[name := EmptyOldPackage]
    {
      if name !in packages {
        packages := packages[name := EmptyOldPackage];
      }
    }

    /** `addModuleFile(id, fcn)`. */
    method AddModuleFile(id: string, fcn: Factory)
      modifies this
      ensures packages == WithOldModule(old(packages), id, fcn)
    {
      var splitId := Split(id, '/');
      var name := splitId[0];
      EnsurePackage(name);
      if |splitId| == 1 {
        packages := packages[name := packages[name].(mainFile := Some(fcn))];
      } else {
        packages := packages[name := packages[name].(files := packages[name].files[Join(splitId[1..], '/') := fcn])];
      }
    }

    /**
     * `require(moduleName)` of a function made by `makeRequire(domain,
     * fn.currentPath, fn.main)`; returns the exports and the function's
     * `mainModule` afterwards. `stack` holds the cache keys of the modules
     * whose factories are running.
     */
    method Require(domain: Domain, fn: RequireFn, moduleName: string, ghost stack: set<string>)
      returns (r: Result<Value, RequireError>, main: Option<nat>)
      requires stack <= OldModuleKeys(packages)
      requires forall k | k in stack :: k in domain.exports && Truthy(domain.exports[k])
      modifies domain
      decreases OldModuleKeys(packages) - stack, 1
      ensures forall k | k in stack :: k in domain.exports && domain.exports[k] == old(domain.exports[k])
      ensures forall k | k in old(domain.exports) :: k in domain.exports
      ensures |old(domain.instances)| <= |domain.instances|
      ensures domain.instances[..|old(domain.instances)|] == old(domain.instances)
      ensures fn.main.Some? ==> main == fn.main
      ensures fn.main.None? ==>
                main == if |domain.instances| == |old(domain.instances)| then None else Some(|old(domain.instances)|)
      ensures forall i | |old(domain.instances)| <= i < |domain.instances| ::
                main.Some? && domain.instances[i].main == main.value
      ensures match OldClassify(packages, old(domain.exports), moduleName, fn.currentPath)
              case Cached(v) =>
                r == Ok(v) && domain.exports == old(domain.exports) && domain.instances == old(domain.instances)
              case Fails(e) =>
                r == Err(e) && domain.exports == old(domain.exports) && domain.instances == old(domain.instances)
              case Instantiate(key, f, dir) =>
                && |domain.instances| > |old(domain.instances)|
                && domain.instances[|old(domain.instances)|].id == key
                && key in domain.exports
                && (r.Ok? ==> r.value == domain.exports[key]
                              && r.value == (if f.replacement.Some? then f.replacement.value
                                             else Object(old(domain.nextObject))))
                && (r.Err? ==> domain.exports[key] == Object(old(domain.nextObject)))
                && (r.Ok? ==> OldImported(f.imports, dir, domain.exports))
    {
      main := fn.main;
      var pathArray := ResolvePathArray(moduleName, fn.currentPath);
      var fullPath := Join(pathArray, '/');
      var packageName := PackageOf(pathArray);
      var path := InnerPath(pathArray);
      var directory := DirOf(pathArray);
      if fullPath in domain.exports && Truthy(domain.exports[fullPath]) {
        return Ok(domain.exports[fullPath]), main;
      }
      if packageName !in packages {
        return Err(UnavailablePackage(packageName)), main;
      }
      var m: Factory;
      if |pathArray| == 1 {
        if packages[packageName].mainFile.None? {
          return Err(UnavailableModule(path)), main;
        }
        m := packages[packageName].mainFile.value;
      } else {
        if path !in packages[packageName].files {
          return Err(UnavailableModule(path)), main;
        }
        m := packages[packageName].files[path];
      }
      assert OldLocate(packages, pathArray) == Ok(m);
      OldKeyIsModuleKey(packages, pathArray);
      r, main := MakeModule(domain, fn, fullPath, m, directory, stack);
    }

    /**
     * The module is not cached yet: caches a fresh exports object under
     * `key`, makes the module object (the first one made through this
     * `require` becomes its main module) and runs factory `m` with a
     * `require` bound to the module's directory `dir`.
     */
    method MakeModule(domain: Domain, fn: RequireFn, key: string, m: Factory, dir: string, ghost stack: set<string>)
      returns (r: Result<Value, RequireError>, main: Option<nat>)
      requires key in OldModuleKeys(packages) && key !in stack && stack <= OldModuleKeys(packages)
      requires forall k | k in stack :: k in domain.exports && Truthy(domain.exports[k])
      modifies domain
      decreases OldModuleKeys(packages) - stack, 0
      ensures forall k | k in stack :: k in domain.exports && domain.exports[k] == old(domain.exports[k])
      ensures forall k | k in old(domain.exports) :: k in domain.exports
      ensures r.Ok? ==> OldImported(m.imports, dir, domain.exports)
      ensures |old(domain.instances)| < |domain.instances|
      ensures domain.instances[..|old(domain.instances)|] == old(domain.instances)
      ensures domain.instances[|old(domain.instances)|].id == key
      ensures main == if fn.main.Some? then fn.main else Some(|old(domain.instances)|)
      ensures forall i | |old(domain.instances)| <= i < |domain.instances| :: domain.instances[i].main == main.value
      ensures key in domain.exports
      ensures r.Ok? ==> r.value == domain.exports[key]
                        && r.value == (if m.replacement.Some? then m.replacement.value else Object(old(domain.nextObject)))
      ensures r.Err? ==> domain.exports[key] == Object(old(domain.nextObject))
    {
      main := fn.main;
      var exports := Object(domain.nextObject);
      domain.nextObject := domain.nextObject + 1;
      domain.exports := domain.exports[key := exports];
      if main.None? {
        main := Some(|domain.instances|);
      }
      domain.instances := domain.instances + [Instance(key, main.value)];
      ghost var before := domain.instances;
      ghost var innerStack := stack + {key};
      assert OldModuleKeys(packages) - innerStack < OldModuleKeys(packages) - stack;
      r := RunFactory(domain, key, m, exports, RequireFn(dir, main), innerStack);
      assert domain.instances[..|before|] == before;
    }

    /**
     * Runs factory `m` of the module cached under `key`: its requires go
     * through `fn`; then the cache takes `module.exports`. A failing require
     * leaves the in-progress object in the cache.
     */
    method RunFactory(domain: Domain, key: string, m: Factory, exports: Value, fn: RequireFn, ghost stack: set<string>)
      returns (r: Result<Value, RequireError>)
      requires fn.main.Some?
      requires key in stack && stack <= OldModuleKeys(packages)
      requires forall k | k in stack :: k in domain.exports && Truthy(domain.exports[k])
      requires domain.exports[key] == exports
      modifies domain
      decreases OldModuleKeys(packages) - stack, 3
      ensures forall k | k in stack && k != key :: k in domain.exports && domain.exports[k] == old(domain.exports[k])
      ensures forall k | k in old(domain.exports) :: k in domain.exports
      ensures r.Ok? ==> OldImported(m.imports, fn.currentPath, domain.exports)
      ensures key in domain.exports
      ensures r.Ok? ==> r.value == domain.exports[key]
                        && r.value == (if m.replacement.Some? then m.replacement.value else exports)
      ensures r.Err? ==> domain.exports[key] == exports
      ensures |old(domain.instances)| <= |domain.instances|
      ensures domain.instances[..|old(domain.instances)|] == old(domain.instances)
      ensures forall j | |old(domain.instances)| <= j < |domain.instances| :: domain.instances[j].main == fn.main.value
    {
      var i := 0;
      while i < |m.imports|
        invariant 0 <= i <= |m.imports|
        invariant forall k | k in stack :: k in domain.exports && domain.exports[k] == old(domain.exports[k])
        invariant |old(domain.instances)| <= |domain.instances|
        invariant domain.instances[..|old(domain.instances)|] == old(domain.instances)
        invariant forall j | |old(domain.instances)| <= j < |domain.instances| :: domain.instances[j].main == fn.main.value
        invariant forall k | k in old(domain.exports) :: k in domain.exports
        invariant OldImported(m.imports[..i], fn.currentPath, domain.exports)
      {
        ghost var before := domain.instances;
        ghost var cache := domain.exports;
        var res := RequireImport(domain, fn, m.imports[i], stack);
        assert domain.instances[..|before|] == before;
        if res.Err? {
          return Err(res.error);
        }
        OldImportedNext(m.imports, i, fn.currentPath, cache, domain.exports);
        i := i + 1;
      }
      assert m.imports[..i] == m.imports;
      var moduleExports := if m.replacement.Some? then m.replacement.value else exports;
      ghost var cache := domain.exports;
      domain.exports := domain.exports[key := moduleExports];
      OldImportedGrows(m.imports, fn.currentPath, cache, domain.exports);
      r := Ok(moduleExports);
    }

    /**
     * One `require` of a running factory: what its caller needs of it. The
     * modules on the stack keep their cached objects, and module objects are
     * only appended, all with the main module of `fn`.
     */
    method RequireImport(domain: Domain, fn: RequireFn, moduleName: string, ghost stack: set<string>)
      returns (r: Result<Value, RequireError>)
      requires fn.main.Some?
      requires stack <= OldModuleKeys(packages)
      requires forall k | k in stack :: k in domain.exports && Truthy(domain.exports[k])
      modifies domain
      decreases OldModuleKeys(packages) - stack, 2
      ensures forall k | k in stack :: k in domain.exports && domain.exports[k] == old(domain.exports[k])
      ensures forall k | k in old(domain.exports) :: k in domain.exports
      ensures r.Ok? ==> OldImportedOne(moduleName, fn.currentPath, domain.exports)
      ensures |old(domain.instances)| <= |domain.instances|
      ensures domain.instances[..|old(domain.instances)|] == old(domain.instances)
      ensures forall j | |old(domain.instances)| <= j < |domain.instances| :: domain.instances[j].main == fn.main.value
    {
      var main;
      r, main := Require(domain, fn, moduleName, stack);
    }
  }
}
