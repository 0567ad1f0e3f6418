/**
 * What the two versions of the browser loader (lib/meat.js and
 * grinder/meat.js) share: the values a module cache holds, module factories
 * as data, the application domain that caches exports, and how a resolved
 * path array is cut into package name, path inside the package and
 * directory.
 */
module Runtime {
  import opened Text

  /**
   * A JavaScript value as the cache sees it: an object, known by an
   * identity number (objects are always truthy), or any other value, of
   * which only its truthiness matters.
   */
  datatype Value = Object(id: nat) | Primitive(truthy: bool)

  predicate Truthy(v: Value)
  {
    v.Object? || v.truthy
  }

  /**
   * A module factory `function (require, exports, module)`, as data: the
   * module names its body passes to `require`, in order, and the value it
   * finally assigns to `module.exports`, if it assigns one.
   */
  datatype Factory = Factory(imports: seq<string>, replacement: Option<Value>)

  /** A module object `{id, exports}` made by `require`, with the main module its `require` was given. */
  datatype Instance = Instance(id: string, main: nat)

  /** The errors `require` throws. */
  datatype RequireError =
    | UnavailablePackage(name: string)
    | UnavailableModule(path: string)
      /** `require(name)` of a package whose `mainFile` is null: JavaScript fails on `null.split`. */
    | NoMainFile(name: string)

  /**
   * A function made by `makeRequire`: the directory it resolves from and its
   * `mainModule` (an index into the domain's instances; None while no module
   * has been made through it).
   */
  datatype RequireFn = RequireFn(currentPath: string, main: Option<nat>)

  /** An application domain: full module path to exports. */
  class Domain {
    var exports: map<string, Value>
    /** How many `{}` exports objects `require` has created; the next one gets this identity. */
    var nextObject: nat
    /** Every module object made in this domain, in order of creation. */
    var instances: seq<Instance>

    constructor ()
      ensures exports == map[] && nextObject == 0 && instances == []
    {
      exports := map[];
      nextObject := 0;
      instances := [];
    }
  }

  /** What `require` does with a call before any factory runs. */
  datatype Plan =
    | Cached(value: Value)
    | Fails(error: RequireError)
    | Instantiate(key: string, factory: Factory, dir: string)

  /** `pathArray[0]`; an empty array gives `undefined`, which names the key "undefined". */
  function PackageOf(pa: seq<string>): string
  {
    if |pa| == 0 then "undefined" else pa[0]
  }

  /** `pathArray.slice(1).join('/')`. */
  function InnerPath(pa: seq<string>): string
  {
    if |pa| == 0 then "" else Join(pa[1..], '/')
  }

  /**
   * `pathArray.slice(0, pathArray.length - 1).join('/')`: the directory of
   * the module, which is its cache key without the last segment.
   */
  function DirOf(pa: seq<string>): (d: string)
    ensures |pa| <= 1 ==> d == ""
    ensures |pa| >= 2 ==> d + "/" + pa[|pa| - 1] == Join(pa, '/')
  {
    if |pa| == 0 then ""
    else
      var d := Join(pa[..|pa| - 1], '/');
      assert |pa| >= 2 ==> d + "/" + pa[|pa| - 1] == Join(pa, '/') by {
        if |pa| >= 2 { JoinSnoc(pa, '/'); }
      }
      d
  }

  /** The cache key is the package name and the inner path joined by '/'. */
  lemma FullPathSplits(pa: seq<string>)
    requires |pa| >= 2
    ensures Join(pa, '/') == PackageOf(pa) + "/" + InnerPath(pa)
  {
    JoinCons(pa, '/');
  }
}
