/**
 * Decisions both versions of the bundler (lib/grind.js and grinder/grind.js)
 * make the same way: when an output is stale, when a copy is needed, how a
 * file is sorted by its name, how a source file's lines are indented, how a
 * package is named, and which package `makeFile` rebuilds for a path given
 * relative to the output folder (with Node's `path.normalize`, which that
 * routing relies on).
 *
 * The file system is a map from path to modification time in milliseconds;
 * a path missing from it is one `fs.stat` fails on.
 */
module Publish {
  import opened Text

  type Mtimes = map<string, int>

  // ---------------------------------------------------------------- staleness

  /** `checkOlderOrInvalid(fn, date)`: the stat fails, or the file is strictly older than `date`. */
  predicate OlderOrInvalid(fs: Mtimes, fn: string, date: int)
  {
    fn !in fs || fs[fn] < date
  }

  /** An output written at or after the reference date is up to date, whatever it was before. */
  lemma WrittenIsCurrent(fs: Mtimes, fn: string, date: int, now: int)
    requires date <= now
    ensures !OlderOrInvalid(fs[fn := now], fn, date)
    ensures OlderOrInvalid(fs - {fn}, fn, date)
  {
  }

  /** A stale output stays stale when the reference date moves later. */
  lemma StaleMonotone(fs: Mtimes, fn: string, d1: int, d2: int)
    requires d1 <= d2 && OlderOrInvalid(fs, fn, d1)
    ensures OlderOrInvalid(fs, fn, d2)
  {
  }

  /** `copyFileIfOutdated(from, to)` copies when a stat fails or the copy is strictly older. */
  predicate CopyNeeded(fs: Mtimes, from: string, dst: string)
  {
    from !in fs || dst !in fs || fs[dst] < fs[from]
  }

  /** Where `copyFileIfOutdated(from, to)` puts the copy: `path.join(to, path.basename(from))`. */
  function CopyTarget(from: string, to: string): string
  {
    PathJoin(to, Basename(from))
  }

  /** Once the copy is written (at a time no earlier than the source's), no copy is needed. */
  lemma CopiedIsCurrent(fs: Mtimes, from: string, dst: string, now: int)
    requires from in fs && fs[from] <= now
    ensures !CopyNeeded(fs[dst := now], from, dst)
    ensures CopyNeeded(fs - {dst}, from, dst)
  {
  }

  // ----------------------------------------------------------- file kinds

  /** A character `\w` matches. */
  predicate WordChar(c: char)
  {
    ('a' <= c <= 'z') || ('A' <= c <= 'Z') || ('0' <= c <= '9') || c == '_'
  }

  predicate AllWord(s: string)
  {
    forall i | 0 <= i < |s| :: WordChar(s[i])
  }

  /** The length of the longest run of `\w` characters that ends `s`. */
  function WordSuffix(s: string): (n: nat)
    ensures n <= |s|
    ensures forall i | |s| - n <= i < |s| :: WordChar(s[i])
    ensures n < |s| ==> !WordChar(s[|s| - n - 1])
  {
    if |s| == 0 || !WordChar(s[|s| - 1]) then 0
    else WordSuffix(s[..|s| - 1]) + 1
  }

  /** `/\.(\w+)$/.exec(s)[1]`: the word characters after the last '.', when they end `s`. */
  function GetExt(s: string): (ext: Option<string>)
    ensures ext.Some? ==> |ext.value| > 0 && AllWord(ext.value) && EndsWith(s, "." + ext.value)
  {
    var n := WordSuffix(s);
    if 0 < n < |s| && s[|s| - n - 1] == '.' then Some(s[|s| - n..]) else None
  }

  /** Every name ending in '.' and word characters has those characters as its extension. */
  lemma {:induction false} GetExtOf(base: string, ext: string)
    requires |ext| > 0 && AllWord(ext)
    ensures GetExt(base + "." + ext) == Some(ext)
  {
    var s := base + "." + ext;
    WordSuffixOf(base + ".", ext);
    assert s[|s| - |ext| - 1] == '.';
    assert s[|s| - |ext|..] == ext;
  }

  lemma {:induction false} WordSuffixOf(front: string, ext: string)
    requires |front| > 0 && !WordChar(front[|front| - 1]) && AllWord(ext)
    ensures WordSuffix(front + ext) == |ext|
    decreases |ext|
  {
    if |ext| == 0 {
      assert front + ext == front;
    } else {
      var init := ext[..|ext| - 1];
      WordSuffixOf(front, init);
      assert (front + ext)[..|front + ext| - 1] == front + init;
    }
  }

  /** A name whose last character is not a word character has no extension. */
  lemma NoExtAfterNonWord(s: string)
    requires |s| > 0 && !WordChar(s[|s| - 1])
    ensures GetExt(s) == None
  {
  }

  /** The names `obj[name]` finds on every object through `Object.prototype`. */
  const ObjectPrototypeNames: set<string> :=
    {"constructor", "hasOwnProperty", "isPrototypeOf", "propertyIsEnumerable", "toLocaleString",
     "toString", "valueOf", "__proto__", "__defineGetter__", "__defineSetter__",
     "__lookupGetter__", "__lookupSetter__"}

  /** How a regular file found while scanning a package is sorted. */
  datatype FileKind = Source | Asset | Ignored

  /**
   * The test as written: `assetExt[ext] !== undefined` also holds for the
   * names every object inherits.
   */
  function KindAsWritten(assetExt: set<string>, filename: string): (k: FileKind)
    ensures k == Source <==> EndsWith(filename, ".js")
    ensures k == Asset ==> GetExt(filename).Some?
  {
    if EndsWith(filename, ".js") then Source
    else
      var ext := GetExt(filename);
      if ext.Some? && (ext.value in assetExt || ext.value in ObjectPrototypeNames) then Asset
      else Ignored
  }

  /** The test as intended: only the extensions listed in the table are assets. */
  function Kind(assetExt: set<string>, filename: string): (k: FileKind)
    ensures k == Source <==> EndsWith(filename, ".js")
    ensures k == Asset <==> !EndsWith(filename, ".js") && GetExt(filename).Some? && GetExt(filename).value in assetExt
  {
    if EndsWith(filename, ".js") then Source
    else
      var ext := GetExt(filename);
      if ext.Some? && ext.value in assetExt then Asset else Ignored
  }

  /** The two tests agree on every name whose extension is not an inherited property name. */
  lemma KindsAgree(assetExt: set<string>, filename: string)
    requires GetExt(filename).None? || GetExt(filename).value !in ObjectPrototypeNames
    ensures KindAsWritten(assetExt, filename) == Kind(assetExt, filename)
  {
  }

  /** `x.constructor` is published as an asset although no table lists `constructor`. */
  lemma InheritedExtensionIsAsset(assetExt: set<string>)
    requires "constructor" !in assetExt
    ensures KindAsWritten(assetExt, "x.constructor") == Asset
    ensures Kind(assetExt, "x.constructor") == Ignored
  {
    GetExtOf("x", "constructor");
    assert "x" + "." == "x.";
    assert "x." + "constructor" == "x.constructor";
  }

  // ------------------------------------------------------------ indentation

  /** Each line with four spaces in front. */
  function IndentLines(lines: seq<string>): (r: seq<string>)
    ensures |r| == |lines|
    ensures forall i | 0 <= i < |lines| :: r[i] == "    " + lines[i]
  {
    seq(|lines|, i requires 0 <= i < |lines| => "    " + lines[i])
  }

  /**
   * `code.split('\n').map(line => '    ' + line).join('\n')`: the indented code
   * has exactly the original lines, one for one, each behind four spaces.
   */
  function Indent(code: string): (r: string)
    ensures Split(r, '\n') == IndentLines(Split(code, '\n'))
    ensures |Split(r, '\n')| == |Split(code, '\n')|
  {
    var lines := IndentLines(Split(code, '\n'));
    assert forall i | 0 <= i < |lines| :: '\n' !in lines[i] by {
      forall i | 0 <= i < |lines|
        ensures '\n' !in lines[i]
      {
        assert lines[i] == "    " + Split(code, '\n')[i];
      }
    }
    SplitJoin(lines, '\n');
    Join(lines, '\n')
  }

  // ---------------------------------------------------------------- paths

  /** One segment of `path.normalize`: '' and '.' vanish, '..' cancels a name or climbs. */
  function NormStep(acc: seq<string>, seg: string, absolute: bool): seq<string>
  {
    if seg == "" || seg == "." then acc
    else if seg == ".." then
      if |acc| > 0 && acc[|acc| - 1] != ".." then acc[..|acc| - 1]
      else if absolute then acc
      else acc + [".."]
    else acc + [seg]
  }

  function NormSegs(segs: seq<string>, absolute: bool): seq<string>
  {
    if |segs| == 0 then [] else NormStep(NormSegs(segs[..|segs| - 1], absolute), segs[|segs| - 1], absolute)
  }

  /** Node's `path.normalize` on POSIX paths. */
  function Normalize(p: string): (r: string)
    ensures r != ""
    ensures p != "" && p[0] == '/' ==> r[0] == '/'
    ensures p != "" && p[|p| - 1] == '/' ==> r[|r| - 1] == '/'
  {
    if p == "" then "."
    else
      var absolute := p[0] == '/';
      var trailing := p[|p| - 1] == '/';
      var s := Join(NormSegs(Split(p, '/'), absolute), '/');
      var s1 := if s == "" && !absolute then "." else s;
      var s2 := if s1 != "" && trailing then s1 + "/" else s1;
      (if absolute then "/" else "") + s2
  }

  /** `path.join(a, b)`: empty arguments are dropped, the rest joined by '/' and normalised. */
  function PathJoin(a: string, b: string): (r: string)
    ensures r != ""
    ensures a != "" && a[0] == '/' ==> r[0] == '/'
  {
    Normalize(if a == "" then b else if b == "" then a else a + "/" + b)
  }

  /** `path.basename(p)`: the last segment, trailing slashes aside. */
  function Basename(p: string): (r: string)
    ensures '/' !in r
  {
    if |p| > 0 && p[|p| - 1] == '/' then Basename(p[..|p| - 1])
    else var parts := Split(p, '/'); parts[|parts| - 1]
  }

  predicate AllNames(segs: seq<string>)
  {
    forall i | 0 <= i < |segs| :: IsName(segs[i])
  }

  lemma {:induction false} NormSegsOfNames(segs: seq<string>, absolute: bool)
    requires AllNames(segs)
    ensures NormSegs(segs, absolute) == segs
    decreases |segs|
  {
    if |segs| > 0 {
      NormSegsOfNames(segs[..|segs| - 1], absolute);
      assert segs[..|segs| - 1] + [segs[|segs| - 1]] == segs;
    }
  }

  lemma {:induction false} JoinEnds(segs: seq<string>)
    requires |segs| > 0 && AllNames(segs)
    ensures var s := Join(segs, '/'); |s| > 0 && s[0] == segs[0][0] && s[|s| - 1] != '/'
    decreases |segs|
  {
    if |segs| > 1 {
      JoinEnds(segs[1..]);
      JoinCons(segs, '/');
    }
  }

  /** A relative path of names is already normal. */
  lemma NormalizeNames(segs: seq<string>)
    requires |segs| > 0 && AllNames(segs)
    ensures Normalize(Join(segs, '/')) == Join(segs, '/')
  {
    var p := Join(segs, '/');
    JoinEnds(segs);
    SplitJoin(segs, '/');
    NormSegsOfNames(segs, false);
  }

  lemma NormSegsOne(x: string, absolute: bool)
    ensures NormSegs([x], absolute) == NormStep([], x, absolute)
  {
    assert [x][..0] == [];
  }

  /** A path without '/' normalises to itself, '.' or '..': still without '/'. */
  lemma NormalizeFlat(p: string)
    requires '/' !in p
    ensures '/' !in Normalize(p)
    ensures IsName(p) ==> Normalize(p) == p
  {
    if p != "" {
      SplitWithoutSeparator(p, '/');
      assert [p][..0] == [];
      NormSegsOne(p, false);
    }
  }

  /** `path.join(d, d + '.js')` for a package name `d` is `d/d.js`. */
  lemma JoinNames(a: string, b: string)
    requires IsName(a) && IsName(b)
    ensures PathJoin(a, b) == a + "/" + b
  {
    NormalizeNames([a, b]);
    assert Join([a, b], '/') == a + "/" + b;
  }

  // ------------------------------------------------------------ package name

  /** `json.name || path.basename(dirname)`: an absent or empty name falls back to the folder. */
  function PackageName(jsonName: Option<string>, dirname: string): (name: string)
    ensures jsonName.Some? && jsonName.value != "" ==> name == jsonName.value
    ensures jsonName.None? || jsonName.value == "" ==> name == Basename(dirname)
  {
    if jsonName.Some? && jsonName.value != "" then jsonName.value else Basename(dirname)
  }

  lemma BasenameLastPart(p: string)
    requires |p| == 0 || p[|p| - 1] != '/'
    ensures Basename(p) == Split(p, '/')[|Split(p, '/')| - 1]
  {
  }

  /** A name without '/' is its own base name. */
  lemma BasenameOfName(p: string)
    requires '/' !in p
    ensures Basename(p) == p
  {
    SplitWithoutSeparator(p, '/');
    if |p| > 0 {
      assert p[|p| - 1] in p;
    }
    BasenameLastPart(p);
  }

  /** The base name of a path of names is its last segment. */
  lemma {:induction false} BasenameOfNames(segs: seq<string>)
    requires |segs| > 0 && AllNames(segs)
    ensures Basename(Join(segs, '/')) == segs[|segs| - 1]
  {
    var j := Join(segs, '/');
    JoinEnds(segs);
    SplitJoin(segs, '/');
    BasenameLastPart(j);
  }

  /** The base name of an absolute path of names is its last segment. */
  lemma BasenameOfAbsolute(segs: seq<string>)
    requires |segs| > 0 && AllNames(segs)
    ensures Basename("/" + Join(segs, '/')) == segs[|segs| - 1]
  {
    var j := Join(segs, '/');
    var p := "/" + j;
    JoinEnds(segs);
    SplitJoin(segs, '/');
    SplitAfterSeparator("", j, '/');
    assert "" + ['/'] + j == p;
    assert p[|p| - 1] == j[|j| - 1];
    BasenameLastPart(p);
  }

  // ---------------------------------------------------------------- routing

  /** What `makeFile` regenerates. */
  datatype Remake = Rebuild(package: string) | RepublishRuntime

  /**
   * `makeFile`'s choice as written: the split uses the normalised path, but
   * the '.html' and '.' tests look at the path as given.
   */
  function RouteAsWritten(p: string): (r: Remake)
    ensures Normalize(p) == p ==> r == Route(p)
  {
    var parts := Split(Normalize(p), '/');
    if |parts| > 1 then Rebuild(parts[0])
    else if EndsWith(p, ".html") then Rebuild(Slice(p, 0, -5))
    else if '.' !in p then Rebuild(p)
    else RepublishRuntime
  }

  /** `makeFile`'s choice with every test on the normalised path. */
  function Route(p: string): (r: Remake)
    ensures r.Rebuild? ==> '/' !in r.package
  {
    var q := Normalize(p);
    var parts := Split(q, '/');
    if |parts| > 1 then Rebuild(parts[0])
    else if EndsWith(q, ".html") then Rebuild(Slice(q, 0, -5))
    else if '.' !in q then Rebuild(q)
    else RepublishRuntime
  }

  /** A file inside a package folder rebuilds that package. */
  lemma RouteNested(segs: seq<string>)
    requires |segs| >= 2 && AllNames(segs)
    ensures Route(Join(segs, '/')) == Rebuild(segs[0])
    ensures RouteAsWritten(Join(segs, '/')) == Rebuild(segs[0])
  {
    NormalizeNames(segs);
    SplitJoin(segs, '/');
  }

  /** `X.html` rebuilds package `X`. */
  lemma RouteHtml(name: string)
    requires '/' !in name
    ensures Route(name + ".html") == Rebuild(name)
    ensures RouteAsWritten(name + ".html") == Rebuild(name)
  {
    var p := name + ".html";
    HtmlIsName(name);
    NormalizeFlat(p);
    SplitWithoutSeparator(p, '/');
    assert EndsWith(p, ".html");
    SliceBetween("", name, ".html");
    assert "" + name + ".html" == p;
  }

  /** A plain name, with no '.' and no '/', rebuilds the package of that name. */
  lemma RoutePlain(name: string)
    requires IsName(name) && '.' !in name
    ensures Route(name) == Rebuild(name)
    ensures RouteAsWritten(name) == Rebuild(name)
  {
    NormalizeFlat(name);
    SplitWithoutSeparator(name, '/');
    assert |name| < 5 || name[|name| - 5..][0] != '.';
  }

  /** Any other flat name, such as `x.js` or `meat.js`, only republishes the runtime. */
  lemma RouteRuntime(name: string)
    requires IsName(name) && '.' in name && !EndsWith(name, ".html")
    ensures Route(name) == RepublishRuntime
    ensures RouteAsWritten(name) == RepublishRuntime
  {
    NormalizeFlat(name);
    SplitWithoutSeparator(name, '/');
  }

  /** A flat name ending in ".html" is a name. */
  lemma HtmlIsName(name: string)
    requires '/' !in name
    ensures IsName(name + ".html")
  {
    var p := name + ".html";
    assert p[|p| - 1] == 'l';
    forall i | 0 <= i < |p|
      ensures p[i] != '/'
    {
      if i < |name| {
        assert p[i] == name[i];
      }
    }
  }

  /** `./` in front of a flat name normalises away. */
  lemma {:induction false} NormalizeDotSlash(x: string)
    requires IsName(x)
    ensures Normalize("./" + x) == x
  {
    var p := "./" + x;
    SplitAfterSeparator(".", x, '/');
    assert "." + ['/'] + x == p;
    SplitWithoutSeparator(x, '/');
    assert Split(p, '/') == [".", x];
    NormSegsOne(".", false);
    assert [".", x][..1] == ["."];
    assert NormSegs([".", x], false) == [x];
    assert p[|p| - 1] == x[|x| - 1];
  }

  /** `./X.html` as written: the test on the path as given keeps the `./`, naming a package `./X`. */
  lemma {:induction false} DotSlashHtmlAsWritten(name: string)
    requires '/' !in name
    ensures RouteAsWritten("./" + name + ".html") == Rebuild("./" + name)
  {
    var x := name + ".html";
    HtmlIsName(name);
    assert "./" + name + ".html" == "./" + x;
    NormalizeDotSlash(x);
    SplitWithoutSeparator(x, '/');
    SliceBetween("", "./" + name, ".html");
    assert "" + ("./" + name) + ".html" == "./" + x;
  }

  /** `./X.html` routed on its normal form rebuilds package `X`. */
  lemma {:induction false} DotSlashHtml(name: string)
    requires '/' !in name
    ensures Route("./" + name + ".html") == Rebuild(name)
  {
    var x := name + ".html";
    HtmlIsName(name);
    assert "./" + name + ".html" == "./" + x;
    NormalizeDotSlash(x);
    RouteHtml(name);
  }
}
