/**
 * The publishing side of the current bundler (lib/grind.js): scanning a
 * package folder, the stats helpers, what the bundle and the HTML loader
 * list, the main module guess, when each output is rebuilt, and the command
 * line.
 */
module Grind {
  import opened Text
  import opened Objects
  import opened Closure
  import opened Publish
  import opened Scanning

  /** `assetExt`: the extensions published as assets. */
  const AssetExt: set<string> := {"jpg", "png", "gif", "html", "json", "css", "vis"}

  /**
   * What `details.stats` keeps of a file: its mtime and the package whose
   * scan found it (`file.stats.details`), by that package's name and folder.
   */
  datatype Stat = Stat(mtime: int, ownerName: string, ownerDir: string)

  /** The parts of `package.json` the bundler reads. */
  datatype Manifest = Manifest(name: Option<string>, main: Option<string>, dependencies: seq<string>)

  /** A loaded package: `{filename, dirname, json, name, js, other, stats}`. */
  datatype Details = Details(
    filename: string, dirname: string, json: Manifest, name: string,
    js: seq<string>, other: seq<string>, stats: Obj<Stat>)

  /** `dirname` of the manifest: everything before its last '/', or '.' when it has none. */
  function Dirname(p: string): (d: string)
    ensures d != ""
    ensures '/' !in p ==> d == "."
    ensures '/' in p && d != "/" ==> d + "/" + Split(p, '/')[|Split(p, '/')| - 1] == p
  {
    var parts := Split(p, '/');
    if |parts| == 1 then "."
    else
      JoinSplit(p, '/');
      JoinSnoc(parts, '/');
      var d := Join(parts[..|parts| - 1], '/');
      if d == "" then "/" else d
  }

  /** What a scan has collected so far: `details.js`, `details.other` and `details.stats`. */
  datatype Collected = Collected(js: seq<string>, other: seq<string>, stats: Obj<Stat>)

  /** The scan's collection after keeping each found file in turn, owned by the scanning package. */
  function Keep(c: Collected, fs: seq<Found>, name: string, dirname: string): Collected
  {
    if |fs| == 0 then c
    else
      var k := Keep(c, fs[..|fs| - 1], name, dirname);
      var f := fs[|fs| - 1];
      var stats := Put(k.stats, f.path, Stat(f.mtime, name, dirname));
      if f.kind == Source then Collected(k.js + [f.path], k.other, stats)
      else Collected(k.js, k.other + [f.path], stats)
  }

  lemma {:induction false} KeepAppend(c: Collected, a: seq<Found>, b: seq<Found>, name: string, dirname: string)
    ensures Keep(c, a + b, name, dirname) == Keep(Keep(c, a, name, dirname), b, name, dirname)
    decreases |b|
  {
    if |b| == 0 {
      assert a + b == a;
    } else {
      KeepAppend(c, a, b[..|b| - 1], name, dirname);
      assert (a + b)[..|a + b| - 1] == a + b[..|b| - 1];
      assert (a + b)[|a + b| - 1] == b[|b| - 1];
    }
  }

  /** `stats` after recording each kept file in turn. */
  function Record(stats: Obj<Stat>, fs: seq<Found>, name: string, dirname: string): Obj<Stat>
  {
    if |fs| == 0 then stats
    else
      var last := fs[|fs| - 1];
      Put(Record(stats, fs[..|fs| - 1], name, dirname), last.path, Stat(last.mtime, name, dirname))
  }

  /**
   * Keeping files appends the sources to `js` and the assets to `other`, in
   * the order found, and records every one of them in `stats`.
   */
  lemma {:induction false} KeepParts(c: Collected, fs: seq<Found>, name: string, dirname: string)
    requires forall i | 0 <= i < |fs| :: fs[i].kind != Ignored
    ensures Keep(c, fs, name, dirname).js == c.js + PathsOf(fs, Source)
    ensures Keep(c, fs, name, dirname).other == c.other + PathsOf(fs, Asset)
    ensures Keep(c, fs, name, dirname).stats == Record(c.stats, fs, name, dirname)
    decreases |fs|
  {
    if |fs| > 0 {
      KeepParts(c, fs[..|fs| - 1], name, dirname);
    }
  }

  /** Every kept file is recorded with its mtime and as owned by the scanning package; nothing else is added. */
  lemma {:induction false} RecordHas(stats: Obj<Stat>, fs: seq<Found>, name: string, dirname: string)
    ensures var r := Record(stats, fs, name, dirname);
      && (forall i | 0 <= i < |fs| :: fs[i].path in r.entries && r.entries[fs[i].path].ownerName == name)
      && (forall p | p in r.entries :: p in stats.entries || exists i | 0 <= i < |fs| :: fs[i].path == p)
    decreases |fs|
  {
    if |fs| > 0 {
      RecordHas(stats, fs[..|fs| - 1], name, dirname);
    }
  }

  /** One more entry of a listing: its files are kept after those of the entries before it. */
  lemma KeepStep(c: Collected, folder: string, entries: seq<Entry>, i: nat, name: string, dirname: string)
    requires i < |entries|
    ensures Keep(c, FindsIn(AssetExt, folder, entries[..i + 1]), name, dirname)
            == Keep(Keep(c, FindsIn(AssetExt, folder, entries[..i]), name, dirname),
                    FindsOf(AssetExt, folder, entries[i]), name, dirname)
  {
    FindsInSnoc(AssetExt, folder, entries, i);
    KeepAppend(c, FindsIn(AssetExt, folder, entries[..i]), FindsOf(AssetExt, folder, entries[i]), name, dirname);
  }

  /**
   * Scanning a package folder: its sources are listed in `js` and its assets
   * in `other`, in the order found, each recorded in `stats`.
   */
  lemma ScanParts(c: Collected, folder: string, readable: bool, entries: seq<Entry>, name: string, dirname: string)
    ensures var fs := FindsListing(AssetExt, folder, readable, entries);
      var k := Keep(c, fs, name, dirname);
      && k.js == c.js + PathsOf(fs, Source)
      && k.other == c.other + PathsOf(fs, Asset)
      && k.stats == Record(c.stats, fs, name, dirname)
  {
    var fs := FindsListing(AssetExt, folder, readable, entries);
    if readable && Statable(entries) {
      FindsSorted(AssetExt, folder, entries);
    }
    KeepParts(c, fs, name, dirname);
  }

  /** The state `findPackageFiles` fills in: `details.js`, `details.other` and `details.stats`. */
  class Scan {
    const name: string
    const dirname: string
    var js: seq<string>
    var other: seq<string>
    var stats: Obj<Stat>

    /** The collection this scan holds. */
    function State(): Collected
      reads this
    {
      Collected(js, other, stats)
    }

    /** `findPackageFiles` on fresh details: every list starts empty. */
    constructor (name: string, dirname: string)
      ensures this.name == name && this.dirname == dirname
      ensures js == [] && other == [] && stats == Obj(map[], [])
    {
      this.name := name;
      this.dirname := dirname;
      js := [];
      other := [];
      stats := Obj(map[], []);
    }

    /**
     * `findPackageFiles(folder, details)`: keeps the sources and assets under
     * `folder`, walking into its folders.
     */
    method FindPackageFiles(folder: string, readable: bool, entries: seq<Entry>) returns (outcome: Outcome)
      modifies this
      ensures State() == Keep(old(State()), FindsListing(AssetExt, folder, readable, entries), name, dirname)
      ensures outcome == OutcomeListing(readable, entries)
      decreases entries, 1
    {
      if !readable || !Statable(entries) {
        return Failed;
      }
      outcome := ProcessEntries(folder, entries);
    }

    /** The `async.forEach` over a listing whose entries were all stat'ed. */
    method ProcessEntries(folder: string, entries: seq<Entry>) returns (outcome: Outcome)
      modifies this
      ensures State() == Keep(old(State()), FindsIn(AssetExt, folder, entries), name, dirname)
      ensures outcome == OutcomeIn(entries)
      decreases entries, 0
    {
      ghost var c0 := State();
      outcome := Done;
      var i := 0;
      while i < |entries|
        invariant 0 <= i <= |entries|
        invariant State() == Keep(c0, FindsIn(AssetExt, folder, entries[..i]), name, dirname)
        invariant outcome == OutcomeIn(entries[..i])
      {
        var o := ProcessEntry(folder, entries[i]);
        KeepStep(c0, folder, entries, i, name, dirname);
        OutcomeInSnoc(entries, i);
        outcome := Combine(outcome, o);
        i := i + 1;
      }
      assert entries[..i] == entries;
    }

    /** The callback `findPackageFiles` runs for one stat'ed entry. */
    method ProcessEntry(folder: string, e: Entry) returns (outcome: Outcome)
      modifies this
      ensures State() == Keep(old(State()), FindsOf(AssetExt, folder, e), name, dirname)
      ensures outcome == OutcomeOf(e)
      decreases e
    {
      match e {
        case File(n, m) =>
          var ffn := Child(folder, n);
          var kind := Kind(AssetExt, n);
          if kind == Source {
            stats := Put(stats, ffn, Stat(m, name, dirname));
            js := js + [ffn];
          } else if kind == Asset {
            stats := Put(stats, ffn, Stat(m, name, dirname));
            other := other + [ffn];
          }
          assert [Found(ffn, kind, m)][..0] == [];
          outcome := Done;
        case Folder(n, readable, es) =>
          outcome := FindPackageFiles(Child(folder, n), readable, es);
        case Special(_) =>
          outcome := Stalled;
        case Unstatable(_) =>
          outcome := Failed;
      }
    }
  }

  /**
   * `loadPackageDetails(packageFile)`: reads the manifest, names the package
   * and scans its folder. An unreadable manifest ends the load with an error
   * and no details.
   */
  method LoadPackageDetails(filename: string, manifest: Option<Manifest>, readable: bool, entries: seq<Entry>)
    returns (details: Option<Details>, outcome: Outcome)
    ensures manifest.None? ==> details.None? && outcome == Failed
    ensures manifest.Some? ==> details.Some? && outcome == OutcomeListing(readable, entries)
    ensures manifest.Some? ==>
      var d := details.value;
      && d.filename == filename && d.dirname == Dirname(filename) && d.json == manifest.value
      && d.name == PackageName(manifest.value.name, Dirname(filename))
      && Collected(d.js, d.other, d.stats)
         == Keep(Collected([], [], Obj(map[], [])), FindsListing(AssetExt, d.dirname, readable, entries), d.name, d.dirname)
  {
    if manifest.None? {
      return None, Failed;
    }
    var dirname := Dirname(filename);
    var name := PackageName(manifest.value.name, dirname);
    var scan := new Scan(name, dirname);
    outcome := scan.FindPackageFiles(dirname, readable, entries);
    details := Some(Details(filename, dirname, manifest.value, name, scan.js, scan.other, scan.stats));
  }

  // ------------------------------------------------------------ stats

  /** The keys that match, in their order. */
  function Filtered(keys: seq<string>, matches: string -> bool): seq<string>
  {
    if |keys| == 0 then []
    else
      var k := keys[|keys| - 1];
      Filtered(keys[..|keys| - 1], matches) + (if matches(k) then [k] else [])
  }

  lemma FilteredSnoc(keys: seq<string>, i: nat, matches: string -> bool)
    requires i < |keys|
    ensures Filtered(keys[..i + 1], matches) == Filtered(keys[..i], matches) + (if matches(keys[i]) then [keys[i]] else [])
  {
    assert keys[..i + 1][..i] == keys[..i];
  }

  /** A key is kept exactly when it is listed and matches. */
  lemma {:induction false} FilteredMembers(keys: seq<string>, matches: string -> bool)
    ensures forall k :: k in Filtered(keys, matches) <==> k in keys && matches(k)
  {
    if |keys| > 0 {
      FilteredMembers(keys[..|keys| - 1], matches);
      assert keys == keys[..|keys| - 1] + [keys[|keys| - 1]];
    }
  }

  /** `filterStats(stats, regexp)`: exactly the entries whose path matches, in key order, values unchanged. */
  method FilterStats(stats: Obj<Stat>, matches: string -> bool) returns (res: Obj<Stat>)
    requires WellFormed(stats)
    ensures WellFormed(res)
    ensures res.keys == Filtered(stats.keys, matches)
    ensures forall p :: p in res.entries <==> p in stats.entries && matches(p)
    ensures forall p | p in res.entries :: res.entries[p] == stats.entries[p]
  {
    res := Obj(map[], []);
    var i := 0;
    while i < |stats.keys|
      invariant 0 <= i <= |stats.keys|
      invariant WellFormed(res)
      invariant res.keys == Filtered(stats.keys[..i], matches)
      invariant forall p :: p in res.entries <==> p in stats.keys[..i] && matches(p)
      invariant forall p | p in res.entries :: res.entries[p] == stats.entries[p]
    {
      var s := stats.keys[i];
      FilteredSnoc(stats.keys, i, matches);
      assert stats.keys[..i + 1] == stats.keys[..i] + [s];
      if matches(s) {
        assert s !in stats.keys[..i];
        PutWellFormed(res, s, stats.entries[s]);
        res := Put(res, s, stats.entries[s]);
      }
      i := i + 1;
    }
    assert stats.keys[..i] == stats.keys;
  }

  /** `r` is what `getMostRecent` reports: the newest matching mtime, or 0 (the epoch) when none is later. */
  ghost predicate IsNewest(r: int, entries: map<string, Stat>, matches: string -> bool)
  {
    && r >= 0
    && (forall p | p in entries && matches(p) :: entries[p].mtime <= r)
    && (r == 0 || exists p | p in entries && matches(p) :: entries[p].mtime == r)
  }

  /** There is one newest date. */
  lemma NewestUnique(r1: int, r2: int, entries: map<string, Stat>, matches: string -> bool)
    requires IsNewest(r1, entries, matches) && IsNewest(r2, entries, matches)
    ensures r1 == r2
  {
    if r1 != 0 {
      var p1 :| p1 in entries && matches(p1) && entries[p1].mtime == r1;
    }
    if r2 != 0 {
      var p2 :| p2 in entries && matches(p2) && entries[p2].mtime == r2;
    }
  }

  /** The newest of the filtered entries is the newest matching entry. */
  lemma NewestOfFiltered(r: int, stats: Obj<Stat>, s: Obj<Stat>, matches: string -> bool)
    requires WellFormed(s)
    requires forall p :: p in s.entries <==> p in stats.entries && matches(p)
    requires forall p | p in s.entries :: s.entries[p] == stats.entries[p]
    requires r >= 0
    requires forall j | 0 <= j < |s.keys| :: s.entries[s.keys[j]].mtime <= r
    requires r == 0 || exists j | 0 <= j < |s.keys| :: s.entries[s.keys[j]].mtime == r
    ensures IsNewest(r, stats.entries, matches)
  {
    forall p | p in stats.entries && matches(p)
      ensures stats.entries[p].mtime <= r
    {
      var j :| 0 <= j < |s.keys| && s.keys[j] == p;
    }
    if r != 0 {
      var j :| 0 <= j < |s.keys| && s.entries[s.keys[j]].mtime == r;
      assert s.keys[j] in stats.entries && matches(s.keys[j]);
    }
  }

  /** `getMostRecent(stats, regexp)`: the newest mtime among the matching files, starting from the epoch. */
  method GetMostRecent(stats: Obj<Stat>, matches: string -> bool) returns (r: int)
    requires WellFormed(stats)
    ensures IsNewest(r, stats.entries, matches)
  {
    var s := FilterStats(stats, matches);
    r := 0;
    var i := 0;
    while i < |s.keys|
      invariant 0 <= i <= |s.keys|
      invariant r >= 0
      invariant forall j | 0 <= j < i :: s.entries[s.keys[j]].mtime <= r
      invariant r == 0 || exists j | 0 <= j < i :: s.entries[s.keys[j]].mtime == r
    {
      var stat := s.entries[s.keys[i]];
      if stat.mtime > r {
        r := stat.mtime;
      }
      i := i + 1;
    }
    NewestOfFiltered(r, stats, s, matches);
  }

  // ------------------------------------------------------------ file map

  /** The files of each package in `deps`, those of later packages winning. */
  function FileMapEntries(deps: Obj<Details>, keys: seq<string>): map<string, Stat>
    requires forall i | 0 <= i < |keys| :: keys[i] in deps.entries
  {
    if |keys| == 0 then map[]
    else FileMapEntries(deps, keys[..|keys| - 1]) + deps.entries[keys[|keys| - 1]].stats.entries
  }

  /** The order `Object.keys` lists the file map in: each package's new files after those before. */
  function FileMapKeys(deps: Obj<Details>, keys: seq<string>): seq<string>
    requires forall i | 0 <= i < |keys| :: keys[i] in deps.entries
  {
    if |keys| == 0 then []
    else
      var init := keys[..|keys| - 1];
      FileMapKeys(deps, init) + NewKeys(deps.entries[keys[|keys| - 1]].stats.keys, FileMapEntries(deps, init).Keys)
  }

  /** `getFileMap(packageMap)` as a value. */
  function FileMap(deps: Obj<Details>, keys: seq<string>): Obj<Stat>
    requires forall i | 0 <= i < |keys| :: keys[i] in deps.entries
  {
    Obj(FileMapEntries(deps, keys), FileMapKeys(deps, keys))
  }

  /** Every package record keeps well-formed stats. */
  ghost predicate StatsWellFormed(deps: Obj<Details>)
  {
    forall k | k in deps.entries :: WellFormed(deps.entries[k].stats)
  }

  /** `getFileMap(packageMap)`: every package's stats copied into one object with `concatObject`. */
  method GetFileMap(deps: Obj<Details>) returns (res: Obj<Stat>)
    requires WellFormed(deps) && StatsWellFormed(deps)
    ensures res == FileMap(deps, deps.keys)
  {
    res := Obj(map[], []);
    var i := 0;
    while i < |deps.keys|
      invariant 0 <= i <= |deps.keys|
      invariant WellFormed(res)
      invariant res.entries == FileMapEntries(deps, deps.keys[..i])
      invariant res.keys == FileMapKeys(deps, deps.keys[..i])
    {
      assert deps.keys[..i + 1][..i] == deps.keys[..i];
      res := ConcatObject(res, deps.entries[deps.keys[i]].stats);
      i := i + 1;
    }
    assert deps.keys[..i] == deps.keys;
  }

  /** The file map lists each of its files once. */
  lemma {:induction false} FileMapWellFormed(deps: Obj<Details>, keys: seq<string>)
    requires StatsWellFormed(deps)
    requires forall i | 0 <= i < |keys| :: keys[i] in deps.entries
    ensures WellFormed(FileMap(deps, keys))
  {
    if |keys| > 0 {
      var init := keys[..|keys| - 1];
      FileMapWellFormed(deps, init);
      CopiedAll(FileMap(deps, init), deps.entries[keys[|keys| - 1]].stats);
    }
  }

  /** A file is in the file map exactly when some package lists it, and its stat is one of those packages' own. */
  lemma {:induction false} FileMapMembers(deps: Obj<Details>, keys: seq<string>)
    requires forall i | 0 <= i < |keys| :: keys[i] in deps.entries
    ensures forall p :: p in FileMapEntries(deps, keys) <==>
      exists i | 0 <= i < |keys| :: p in deps.entries[keys[i]].stats.entries
    ensures forall p | p in FileMapEntries(deps, keys) ::
      exists i | 0 <= i < |keys| :: p in deps.entries[keys[i]].stats.entries
        && FileMapEntries(deps, keys)[p] == deps.entries[keys[i]].stats.entries[p]
  {
    if |keys| > 0 {
      var init := keys[..|keys| - 1];
      FileMapMembers(deps, init);
      assert forall i | 0 <= i < |init| :: init[i] == keys[i];
    }
  }

  // ------------------------------------------------------------ main module

  /** A source whose path ends in `<name>.js` may be the main module. */
  predicate IsCandidate(name: string, n: string)
  {
    EndsWith(n, name + ".js")
  }

  /** The module path a candidate stands for: the package name, its path below the package folder, no '.js'. */
  function CandidatePath(name: string, dirname: string, n: string): string
  {
    name + Slice(n, |dirname|, -3)
  }

  /** The guess after looking at each source in turn: a candidate replaces the pick when none is held, it is '', or it is longer. */
  function Guess(name: string, dirname: string, js: seq<string>): Option<string>
  {
    if |js| == 0 then None
    else
      var r := Guess(name, dirname, js[..|js| - 1]);
      var n := js[|js| - 1];
      if IsCandidate(name, n) then
        var s := CandidatePath(name, dirname, n);
        if r.None? || r.value == "" || |s| < |r.value| then Some(s) else r
      else r
  }

  /** The main module the bundle trailer names: `json.main` when set, else the guess. */
  function MainModule(d: Details): Option<string>
  {
    if d.json.main.Some? && d.json.main.value != "" then d.json.main else Guess(d.name, d.dirname, d.js)
  }

  /**
   * Without a candidate there is no guess; otherwise the guess is a
   * candidate's path, and for a named package it is the shortest, the first
   * of the shortest in list order.
   */
  lemma {:induction false} GuessIsShortest(name: string, dirname: string, js: seq<string>)
    ensures Guess(name, dirname, js).None? <==> forall i | 0 <= i < |js| :: !IsCandidate(name, js[i])
    ensures Guess(name, dirname, js).Some? ==>
      exists i | 0 <= i < |js| :: IsCandidate(name, js[i]) && Guess(name, dirname, js).value == CandidatePath(name, dirname, js[i])
    ensures name != "" && Guess(name, dirname, js).Some? ==>
      var g := Guess(name, dirname, js).value;
      && (forall i | 0 <= i < |js| && IsCandidate(name, js[i]) :: |g| <= |CandidatePath(name, dirname, js[i])|)
      && (exists i | 0 <= i < |js| && IsCandidate(name, js[i]) :: g == CandidatePath(name, dirname, js[i])
           && forall j | 0 <= j < i && IsCandidate(name, js[j]) :: |g| < |CandidatePath(name, dirname, js[j])|)
  {
    if |js| > 0 {
      var init := js[..|js| - 1];
      GuessIsShortest(name, dirname, init);
      assert forall i | 0 <= i < |init| :: init[i] == js[i];
      var r := Guess(name, dirname, init);
      var n := js[|js| - 1];
      if IsCandidate(name, n) {
        var s := CandidatePath(name, dirname, n);
        if r.None? || r.value == "" || |s| < |r.value| {
          assert Guess(name, dirname, js) == Some(s);
          if name != "" {
            assert |s| >= |name|;
          }
        }
      }
    }
  }

  /** `getMainModulePath(details)`. */
  method GetMainModulePath(d: Details) returns (r: Option<string>)
    ensures r == MainModule(d)
  {
    if d.json.main.Some? && d.json.main.value != "" {
      return d.json.main;
    }
    r := None;
    var i := 0;
    while i < |d.js|
      invariant 0 <= i <= |d.js|
      invariant r == Guess(d.name, d.dirname, d.js[..i])
    {
      var n := d.js[i];
      assert d.js[..i + 1][..i] == d.js[..i];
      if IsCandidate(d.name, n) {
        var s := d.name + Slice(n, |d.dirname|, -3);
        if r.None? || r.value == "" || |s| < |r.value| {
          r := Some(s);
        }
      }
      i := i + 1;
    }
    assert d.js[..i] == d.js;
  }

  /** A source at `<dirname><rest><name>.js` stands for `<name><rest><name>`. */
  lemma CandidateUnderFolder(name: string, dirname: string, rest: string)
    ensures IsCandidate(name, dirname + rest + name + ".js")
    ensures CandidatePath(name, dirname, dirname + rest + name + ".js") == name + rest + name
  {
    var n := dirname + rest + name + ".js";
    assert n == dirname + (rest + name) + ".js";
    assert n[|n| - |name + ".js"|..] == name + ".js";
    SliceBetween(dirname, rest + name, ".js");
  }

  // ------------------------------------------------------------ bundle

  /** The context `srcTemplate` renders for one source file. */
  datatype Wrapped = Wrapped(modulename: string, filepath: string, code: string, dependencies: seq<string>)

  /** The context `headerTemplate` renders after the modules. */
  datatype Trailer = Trailer(modulename: string, dependencies: seq<string>, modulepath: Option<string>)

  /** What is written to `<dst>/<name>/<name>.js`, in order. */
  datatype Bundle = Bundle(modules: seq<Wrapped>, trailer: Trailer)

  /** `meatPath`: the module name, then the file's path below the package folder, without '.js'. */
  function MeatPath(modulename: string, root: string, filename: string): string
  {
    modulename + Slice(filename, |root|, -3)
  }

  /** A file at `<root><rest>.js` is registered as `<modulename><rest>`. */
  lemma MeatPathOf(modulename: string, root: string, rest: string)
    ensures MeatPath(modulename, root, root + rest + ".js") == modulename + rest
  {
    SliceBetween(root, rest, ".js");
  }

  /** The bundle's dependency list: every package of the closure but the package itself, in closure order. */
  function Others(keys: seq<string>, name: string): seq<string>
  {
    Filtered(keys, k => k != name)
  }

  /** The list leaves the package out and keeps every other package of the closure. */
  lemma OthersMembers(keys: seq<string>, name: string)
    ensures name !in Others(keys, name)
    ensures forall k | k in keys && k != name :: k in Others(keys, name)
    ensures forall k | k in Others(keys, name) :: k in keys
  {
    FilteredMembers(keys, k => k != name);
  }

  /** The dependency list `publishJSFiles` builds. */
  method BundleDependencies(keys: seq<string>, name: string) returns (r: seq<string>)
    ensures r == Others(keys, name)
  {
    r := [];
    var i := 0;
    while i < |keys|
      invariant 0 <= i <= |keys|
      invariant r == Others(keys[..i], name)
    {
      FilteredSnoc(keys, i, k => k != name);
      if keys[i] != name {
        r := r + [keys[i]];
      }
      i := i + 1;
    }
    assert keys[..i] == keys;
  }

  /** The bundle of package `d` whose closure lists `depKeys`, each source's text given by `read`. */
  function BundleOf(d: Details, depKeys: seq<string>, read: string -> string): Bundle
  {
    var deps := Others(depKeys, d.name);
    Bundle(
      seq(|d.js|, i requires 0 <= i < |d.js| => Wrapped(d.name, MeatPath(d.name, d.dirname, d.js[i]), Indent(read(d.js[i])), deps)),
      Trailer(d.name, deps, MainModule(d)))
  }

  /**
   * `publishJSFiles`: one wrapped module per source, in `details.js` order,
   * then the trailer. File contents come from `read`.
   */
  method PublishJSFiles(d: Details, depKeys: seq<string>, read: string -> string) returns (b: Bundle)
    ensures b == BundleOf(d, depKeys, read)
  {
    var dependencies := BundleDependencies(depKeys, d.name);
    var modules: seq<Wrapped> := [];
    var i := 0;
    while i < |d.js|
      invariant 0 <= i <= |d.js|
      invariant |modules| == i
      invariant forall j | 0 <= j < i ::
        modules[j] == Wrapped(d.name, MeatPath(d.name, d.dirname, d.js[j]), Indent(read(d.js[j])), dependencies)
    {
      var f := d.js[i];
      var meatPath := d.name + Slice(f, |d.dirname|, -3);
      modules := modules + [Wrapped(d.name, meatPath, Indent(read(f)), dependencies)];
      i := i + 1;
    }
    var modulepath := GetMainModulePath(d);
    b := Bundle(modules, Trailer(d.name, dependencies, modulepath));
  }

  /**
   * Every source of the package is wrapped once, under its own module path,
   * with each of its lines indented, and lists every other package of the
   * closure.
   */
  lemma BundleModules(d: Details, depKeys: seq<string>, read: string -> string, i: nat)
    requires i < |d.js|
    ensures var w := BundleOf(d, depKeys, read).modules[i];
      && w.modulename == d.name
      && w.filepath == MeatPath(d.name, d.dirname, d.js[i])
      && Split(w.code, '\n') == IndentLines(Split(read(d.js[i]), '\n'))
      && d.name !in w.dependencies
      && forall k | k in depKeys && k != d.name :: k in w.dependencies
  {
    OthersMembers(depKeys, d.name);
  }

  // ------------------------------------------------------------ html

  /** The context `componentTemplate` renders into `<dst>/<name>.html`. */
  datatype Html = Html(dependencies: seq<string>, css: seq<string>, main: string, jquery: Option<string>)

  /** The bundle of package `d`, relative to the output folder. */
  function BundleOfPackage(d: string): string
  {
    PathJoin(d, d + ".js")
  }

  /** For a package named by one path segment the entry is `<d>/<d>.js`. */
  lemma BundleOfName(d: string)
    requires IsName(d)
    ensures BundleOfPackage(d) == d + "/" + d + ".js"
  {
    assert IsName(d + ".js") by {
      assert forall i | 0 <= i < |d| :: (d + ".js")[i] == d[i];
    }
    JoinNames(d, d + ".js");
  }

  /** The bundle entries of some packages, in order. */
  function BundleEntries(names: seq<string>): (r: seq<string>)
    ensures |r| == |names|
  {
    seq(|names|, i requires 0 <= i < |names| => BundleOfPackage(names[i]))
  }

  /** Among plain package names, a package's entry is listed exactly when the package is. */
  lemma BundleEntriesList(names: seq<string>, x: string)
    requires IsName(x)
    requires forall i | 0 <= i < |names| :: IsName(names[i])
    ensures x + "/" + x + ".js" in BundleEntries(names) <==> x in names
  {
    var es := BundleEntries(names);
    var e := x + "/" + x + ".js";
    forall i | 0 <= i < |names|
      ensures es[i] == names[i] + "/" + names[i] + ".js"
    {
      BundleOfName(names[i]);
    }
    if e in es {
      var k :| 0 <= k < |es| && es[k] == e;
      EntryNamesPackage(x, names[k]);
    }
    if x in names {
      var k :| 0 <= k < |names| && names[k] == x;
      assert es[k] == e;
    }
  }

  /** Different packages have different bundle entries. */
  lemma EntryNamesPackage(x: string, y: string)
    requires x + "/" + x + ".js" == y + "/" + y + ".js"
    ensures x == y
  {
    var e := x + "/" + x + ".js";
    assert |x| == |y|;
    assert x == e[..|x|] == y;
  }

  /** The HTML loader's script list: one bundle per package of the closure, the package itself included. */
  method HtmlDependencies(keys: seq<string>) returns (r: seq<string>)
    ensures r == BundleEntries(keys)
  {
    r := [];
    var i := 0;
    while i < |keys|
      invariant 0 <= i <= |keys|
      invariant r == BundleEntries(keys[..i])
    {
      r := r + [BundleOfPackage(keys[i])];
      i := i + 1;
    }
  }

  predicate IsCss(p: string)
  {
    EndsWith(p, ".css")
  }

  /** A stylesheet's link: its owner's name, then its path below the owner's folder. */
  function CssLink(k: string, owner: Stat): string
  {
    owner.ownerName + Slice(k, |owner.ownerDir|, |k|)
  }

  /** A stylesheet at `<ownerDir><rest>` is linked as `<ownerName><rest>`. */
  lemma CssLinkOf(ownerName: string, ownerDir: string, rest: string, mtime: int)
    ensures CssLink(ownerDir + rest, Stat(mtime, ownerName, ownerDir)) == ownerName + rest
  {
    var k := ownerDir + rest;
    assert k[|ownerDir|..|k|] == rest;
  }

  /** The stylesheet links `publishHtml` builds from the css file map. */
  method CssFiles(cssMap: Obj<Stat>) returns (r: seq<string>)
    requires WellFormed(cssMap)
    ensures |r| == |cssMap.keys|
    ensures forall i | 0 <= i < |cssMap.keys| :: r[i] == CssLink(cssMap.keys[i], cssMap.entries[cssMap.keys[i]])
  {
    r := [];
    var i := 0;
    while i < |cssMap.keys|
      invariant 0 <= i <= |cssMap.keys|
      invariant |r| == i
      invariant forall j | 0 <= j < i :: r[j] == CssLink(cssMap.keys[j], cssMap.entries[cssMap.keys[j]])
    {
      var k := cssMap.keys[i];
      var owner := cssMap.entries[k];
      r := r + [owner.ownerName + Slice(k, |owner.ownerDir|, |k|)];
      i := i + 1;
    }
  }

  /** `options.jquery ? path.basename(options.jquery) : null`. */
  function JQueryScript(jquery: Option<string>): Option<string>
  {
    if jquery.Some? && jquery.value != "" then Some(Basename(jquery.value)) else None
  }

  /** The stylesheet links for the css files among `keys`, each owned as `m` records. */
  function CssLinks(keys: seq<string>, m: map<string, Stat>): seq<string>
    requires forall i | 0 <= i < |keys| :: keys[i] in m
  {
    seq(|keys|, i requires 0 <= i < |keys| => CssLink(keys[i], m[keys[i]]))
  }

  /** The css files of the closure, in file map order. */
  function CssKeys(deps: Obj<Details>): (ks: seq<string>)
    requires StatsWellFormed(deps)
    requires forall i | 0 <= i < |deps.keys| :: deps.keys[i] in deps.entries
    ensures forall i | 0 <= i < |ks| :: ks[i] in FileMapEntries(deps, deps.keys) && IsCss(ks[i])
  {
    var fm := FileMap(deps, deps.keys);
    FileMapWellFormed(deps, deps.keys);
    FilteredMembers(fm.keys, IsCss);
    Filtered(fm.keys, IsCss)
  }

  /** The HTML loader of package `d` whose closure is `deps`. */
  function HtmlOf(options: Options, d: Details, deps: Obj<Details>): Html
    requires WellFormed(deps) && StatsWellFormed(deps)
  {
    Html(
      BundleEntries(deps.keys),
      if options.css then CssLinks(CssKeys(deps), FileMapEntries(deps, deps.keys)) else [],
      d.name,
      JQueryScript(options.jquery))
  }

  /**
   * Among plain package names, the loader lists a package's bundle exactly
   * when the package is in the closure.
   */
  lemma HtmlLists(options: Options, d: Details, deps: Obj<Details>, x: string)
    requires WellFormed(deps) && StatsWellFormed(deps)
    requires IsName(x) && forall i | 0 <= i < |deps.keys| :: IsName(deps.keys[i])
    ensures x + "/" + x + ".js" in HtmlOf(options, d, deps).dependencies <==> x in deps.keys
  {
    BundleEntriesList(deps.keys, x);
  }

  /**
   * `publishHtml`: the closure's bundles, the package's own included; with
   * `-css`, a link per css file of the closure; the package as the main
   * module; jQuery's file name when one is given.
   */
  method PublishHtml(options: Options, d: Details, deps: Obj<Details>) returns (h: Html)
    requires WellFormed(deps) && StatsWellFormed(deps)
    ensures h == HtmlOf(options, d, deps)
  {
    var cssFiles := [];
    if options.css {
      cssFiles := ClosureCssLinks(deps);
    }
    var dependencies := HtmlDependencies(deps.keys);
    h := Html(dependencies, cssFiles, d.name, JQueryScript(options.jquery));
  }

  /** The `-css` part of `publishHtml`: the links of the closure's css files, in file map order. */
  method ClosureCssLinks(deps: Obj<Details>) returns (cssFiles: seq<string>)
    requires WellFormed(deps) && StatsWellFormed(deps)
    ensures cssFiles == CssLinks(CssKeys(deps), FileMapEntries(deps, deps.keys))
  {
    var fm := GetFileMap(deps);
    FileMapWellFormed(deps, deps.keys);
    var cssFileMap := FilterStats(fm, IsCss);
    cssFiles := CssFiles(cssFileMap);
    assert cssFileMap.keys == CssKeys(deps);
  }

  // ------------------------------------------------------------ publishing

  /** The options `processArgs` builds. */
  datatype Options = Options(
    srcFolder: seq<string>, dstFolder: string, jquery: Option<string>, only: Option<string>,
    cache: seq<string>, css: bool)

  /** The packages a package declares: the keys of `json.dependencies`. */
  function DeclaredDeps(d: Details): seq<string>
  {
    d.json.dependencies
  }

  /** `path.join(a, b, c)`: the non-empty arguments joined by '/', then normalised. */
  function PathJoin3(a: string, b: string, c: string): string
  {
    Normalize(Join(Filtered([a, b, c], x => x != ""), '/'))
  }

  /** `<dst>/<name>/<name>.js`. */
  function BundlePath(dst: string, name: string): string
  {
    PathJoin3(dst, name, name + ".js")
  }

  /** `<dst>/<name>.html`. */
  function HtmlPath(dst: string, name: string): string
  {
    PathJoin(dst, name + ".html")
  }

  /** The files `mostRecentJSDate` is taken over as written: `(\.js$|<name>\.json)`. */
  function JsDateFilesAsWritten(name: string): string -> bool
  {
    p => IsJsDateFileAsWritten(name, p)
  }

  predicate IsJsDateFileAsWritten(name: string, p: string)
  {
    EndsWith(p, ".js") || Contains(p, name + ".json")
  }

  /**
   * The files that date the bundle: those the pattern matches as written
   * (the sources and any `<name>.json`), and the manifest itself.
   */
  function JsDateFiles(name: string, manifest: string): string -> bool
  {
    p => IsJsDateFileAsWritten(name, p) || p == manifest
  }

  /** `p\.json` occurs nowhere in `/p/package.json`. */
  lemma ManifestNotMatched()
    ensures !IsJsDateFileAsWritten("p", "/p/package.json")
  {
    var m := "/p/package.json";
    assert "p" + ".json" == "p.json";
    assert m[|m| - 1] == 'n';
    forall k | 0 <= k && k + |"p.json"| <= |m|
      ensures m[k] != 'p' || m[k + 1] != '.'
    {
      assert k <= 9;
      if k == 9 {
        assert m[k] == 'e';
      } else {
        assert m[k + 1] != '.';
      }
    }
    NotContained(m, "p.json");
  }

  /**
   * The manifest `package.json` of a package named `p` is not among the files
   * the bundle's date is taken over as written, so a newer manifest does not
   * make the bundle stale; taken over the manifest itself, it does.
   */
  lemma ManifestDateAsWritten(stats: map<string, Stat>)
    requires stats == map["/p/package.json" := Stat(5, "p", "/p"), "/p/a.js" := Stat(1, "p", "/p")]
    ensures IsNewest(1, stats, JsDateFilesAsWritten("p"))
    ensures !OlderOrInvalid(map["/out/p/p.js" := 3], "/out/p/p.js", 1)
    ensures IsNewest(5, stats, JsDateFiles("p", "/p/package.json"))
    ensures OlderOrInvalid(map["/out/p/p.js" := 3], "/out/p/p.js", 5)
  {
    ManifestNotMatched();
    assert EndsWith("/p/a.js", ".js");
    assert stats.Keys == {"/p/package.json", "/p/a.js"};
  }

  /** What `makePublishedPackage` decides and writes. */
  datatype Publication = Publication(jsDate: int, cssDate: int, htmlDate: int, bundle: Option<Bundle>, html: Option<Html>)

  /**
   * The dates and outputs of publishing `d` with closure `deps`: the bundle's
   * date is the newest source or manifest; the HTML's is the larger of that
   * and, with `-css`, the newest css file of the closure; each output is
   * written exactly when it is older than its date or missing.
   */
  ghost predicate Published(p: Publication, options: Options, d: Details, deps: Obj<Details>, fs: Mtimes, read: string -> string)
    requires WellFormed(deps) && StatsWellFormed(deps)
  {
    && IsNewest(p.jsDate, d.stats.entries, JsDateFiles(d.name, d.filename))
    && (options.css ==> IsNewest(p.cssDate, FileMapEntries(deps, deps.keys), IsCss))
    && (!options.css ==> p.cssDate == p.jsDate)
    && p.htmlDate == Max(p.jsDate, p.cssDate)
    && p.bundle == (if OlderOrInvalid(fs, BundlePath(options.dstFolder, d.name), p.jsDate)
                    then Some(BundleOf(d, deps.keys, read)) else None)
    && p.html == (if OlderOrInvalid(fs, HtmlPath(options.dstFolder, d.name), p.htmlDate)
                  then Some(HtmlOf(options, d, deps)) else None)
  }

  /** Package records keep well-formed stats. */
  ghost predicate RegistryStatsWellFormed(reg: map<string, Details>)
  {
    forall k | k in reg :: WellFormed(reg[k].stats)
  }

  /**
   * `makePublishedPackage`: a missing package in the closure (or a cycle)
   * ends it with that error; otherwise it publishes as `Published` says.
   */
  method MakePublishedPackage(options: Options, d: Details, packageMap: map<string, Details>, fs: Mtimes, read: string -> string)
    returns (r: Result<Publication, WalkError>)
    requires WellFormed(d.stats) && RegistryStatsWellFormed(packageMap)
    ensures var deps := Dependencies(packageMap, DeclaredDeps, d.name);
      && (r.Err? <==> deps.Err?)
      && (r.Err? ==> r.error == deps.error)
      && (r.Ok? ==> WellFormed(deps.value) && StatsWellFormed(deps.value)
                    && Published(r.value, options, d, deps.value, fs, read))
  {
    var jsDate := GetMostRecent(d.stats, JsDateFiles(d.name, d.filename));
    var found := GetPackageDependencies(packageMap, DeclaredDeps, d.name);
    if found.Err? {
      return Err(found.error);
    }
    var deps := found.value;
    assert StatsWellFormed(deps);
    var cssDate := jsDate;
    if options.css {
      var depsFileMap := GetFileMap(deps);
      FileMapWellFormed(deps, deps.keys);
      cssDate := GetMostRecent(depsFileMap, IsCss);
    }
    var bundle := None;
    if OlderOrInvalid(fs, BundlePath(options.dstFolder, d.name), jsDate) {
      var b := PublishJSFiles(d, deps.keys, read);
      bundle := Some(b);
    }
    var htmlDate := cssDate;
    if jsDate > cssDate {
      htmlDate := jsDate;
    }
    var html := None;
    if OlderOrInvalid(fs, HtmlPath(options.dstFolder, d.name), htmlDate) {
      var h := PublishHtml(options, d, deps);
      html := Some(h);
    }
    r := Ok(Publication(jsDate, cssDate, htmlDate, bundle, html));
  }

  /** A source or manifest newer than the written bundle makes it stale; so does a missing bundle. */
  lemma SourceChangeRebuildsBundle(p: Publication, options: Options, d: Details, deps: Obj<Details>, fs: Mtimes,
                                   read: string -> string, f: string)
    requires WellFormed(deps) && StatsWellFormed(deps) && Published(p, options, d, deps, fs, read)
    requires f in d.stats.entries && JsDateFiles(d.name, d.filename)(f)
    requires var out := BundlePath(options.dstFolder, d.name); out !in fs || fs[out] < d.stats.entries[f].mtime
    ensures p.bundle == Some(BundleOf(d, deps.keys, read))
  {
  }

  /** A bundle written no earlier than every source and the manifest is left alone. */
  lemma CurrentBundleKept(p: Publication, options: Options, d: Details, deps: Obj<Details>, fs: Mtimes,
                          read: string -> string)
    requires WellFormed(deps) && StatsWellFormed(deps) && Published(p, options, d, deps, fs, read)
    requires var out := BundlePath(options.dstFolder, d.name);
      out in fs && fs[out] >= 0
      && forall f | f in d.stats.entries && JsDateFiles(d.name, d.filename)(f) :: d.stats.entries[f].mtime <= fs[out]
    ensures p.bundle == None
  {
    if p.jsDate != 0 {
      var f :| f in d.stats.entries && JsDateFiles(d.name, d.filename)(f) && d.stats.entries[f].mtime == p.jsDate;
    }
  }

  /**
   * The HTML is rebuilt whenever the bundle's date makes it stale, and, with
   * `-css`, whenever any css file of the closure is newer than it.
   */
  lemma HtmlFollowsItsDates(p: Publication, options: Options, d: Details, deps: Obj<Details>, fs: Mtimes,
                            read: string -> string)
    requires WellFormed(deps) && StatsWellFormed(deps) && Published(p, options, d, deps, fs, read)
    ensures OlderOrInvalid(fs, HtmlPath(options.dstFolder, d.name), p.jsDate) ==> p.html.Some?
    ensures options.css ==>
      forall f | f in FileMapEntries(deps, deps.keys) && IsCss(f) ::
        OlderOrInvalid(fs, HtmlPath(options.dstFolder, d.name), FileMapEntries(deps, deps.keys)[f].mtime) ==> p.html.Some?
  {
    var out := HtmlPath(options.dstFolder, d.name);
    if OlderOrInvalid(fs, out, p.jsDate) {
      StaleMonotone(fs, out, p.jsDate, p.htmlDate);
    }
    if options.css {
      forall f | f in FileMapEntries(deps, deps.keys) && IsCss(f)
        ensures OlderOrInvalid(fs, out, FileMapEntries(deps, deps.keys)[f].mtime) ==> p.html.Some?
      {
        if OlderOrInvalid(fs, out, FileMapEntries(deps, deps.keys)[f].mtime) {
          StaleMonotone(fs, out, FileMapEntries(deps, deps.keys)[f].mtime, p.htmlDate);
        }
      }
    }
  }

  // ------------------------------------------------------------ makeFile

  /** What `makeFile` does: republish the runtime file, or rebuild these packages. */
  datatype Work = RuntimeOnly | Packages(names: seq<string>)

  /**
   * `makeFile(options, path)` then `makePackage`: the package the path routes
   * to is rebuilt with its whole closure, in closure order. Generic in the
   * package record, whose declared dependencies `deps` gives.
   */
  method MakeFile<T>(packages: map<string, T>, deps: T -> seq<string>, path: string) returns (r: Result<Work, WalkError>)
    ensures Route(path).RepublishRuntime? ==> r == Ok(RuntimeOnly)
    ensures Route(path).Rebuild? ==>
      var c := Dependencies(packages, deps, Route(path).package);
      && (r.Err? <==> c.Err?)
      && (r.Err? ==> r.error == c.error)
      && (r.Ok? ==> r.value == Packages(c.value.keys))
  {
    var route := Route(path);
    if route.RepublishRuntime? {
      return Ok(RuntimeOnly);
    }
    var found := GetPackageDependencies(packages, deps, route.package);
    if found.Err? {
      return Err(found.error);
    }
    r := Ok(Packages(found.value.keys));
  }

  /** The package named by the path is rebuilt first, and with it every package it depends on. */
  lemma MakeFileRebuildsClosure<T>(packages: map<string, T>, deps: T -> seq<string>, path: string)
    requires Route(path).Rebuild?
    requires Dependencies(packages, deps, Route(path).package).Ok?
    ensures var o := Dependencies(packages, deps, Route(path).package).value;
      && |o.keys| > 0 && o.keys[0] == Route(path).package
      && forall n | n in o.keys :: n in packages && forall k | k in deps(packages[n]) :: k in o.keys
  {
    ResultFacts(packages, deps, Route(path).package);
  }

  // ------------------------------------------------------------ command line

  /** The characters `.` does not match in a JavaScript regular expression. */
  predicate IsLineTerminator(c: char)
  {
    c == '\n' || c == '\r' || c == '\U{2028}' || c == '\U{2029}'
  }

  predicate OneLine(s: string)
  {
    forall i | 0 <= i < |s| :: !IsLineTerminator(s[i])
  }

  /** What the catch-all pattern `.*` matches at the start of `a`: everything before the first line terminator. */
  function FirstLine(a: string): (r: string)
    ensures OneLine(r) && r <= a
    ensures |r| < |a| ==> IsLineTerminator(a[|r|])
  {
    if |a| == 0 || IsLineTerminator(a[0]) then "" else [a[0]] + FirstLine(a[1..])
  }

  /** The filter of `argFilters` an argument falls to, with what its pattern captures. */
  datatype Arg = Help | JQuery(path: string) | Only(path: string) | Cache(name: string) | Css | SrcFolder(path: string)

  /** The first filter, in `argFilters` order, whose pattern matches `a`. */
  function ClassifyArg(a: string): (r: Arg)
    ensures r == Help <==> a == "--help"
    ensures r == Css <==> a == "-css"
    ensures r.JQuery? ==> a == "-jquery=" + r.path && OneLine(r.path)
    ensures r.Only? ==> a == "-only=" + r.path && OneLine(r.path)
    ensures r.Cache? ==> a == "-cache=" + r.name && OneLine(r.name)
    ensures r.SrcFolder? ==> r.path <= a && OneLine(r.path)
  {
    if a == "--help" then Help
    else if StartsWith(a, "-jquery=") && OneLine(a[8..]) then JQuery(a[8..])
    else if StartsWith(a, "-only=") && OneLine(a[6..]) then Only(a[6..])
    else if StartsWith(a, "-cache=") && OneLine(a[7..]) then Cache(a[7..])
    else if a == "-css" then Css
    else SrcFolder(FirstLine(a))
  }

  /** The options object while the arguments are read: no destination yet. */
  datatype ArgOptions = ArgOptions(srcFolder: seq<string>, jquery: Option<string>, only: Option<string>, cache: seq<string>, css: bool)

  /** `concatOptions(f.action(m))`: arrays are appended to, other values replaced. */
  function Apply(o: ArgOptions, arg: Arg): ArgOptions
  {
    match arg
    case Help => o
    case JQuery(p) => o.(jquery := Some(p))
    case Only(p) => o.(only := Some(p))
    case Cache(n) => o.(cache := o.cache + [n])
    case Css => o.(css := true)
    case SrcFolder(p) => o.(srcFolder := o.srcFolder + [p])
  }

  /** The options after reading every argument in turn. */
  function ReadArgs(args: seq<string>): ArgOptions
  {
    if |args| == 0 then ArgOptions([], None, None, [], false)
    else Apply(ReadArgs(args[..|args| - 1]), ClassifyArg(args[|args| - 1]))
  }

  /** The last of at least two folders is the destination; with fewer the parse fails. */
  function Finish(o: ArgOptions): Option<Options>
  {
    if |o.srcFolder| > 1 then
      Some(Options(o.srcFolder[..|o.srcFolder| - 1], o.srcFolder[|o.srcFolder| - 1], o.jquery, o.only, o.cache, o.css))
    else None
  }

  /** `processArgs(args)` with the default `argFilters`. */
  method ProcessArgs(args: seq<string>) returns (r: Option<Options>)
    ensures r == Finish(ReadArgs(args))
  {
    var options := ArgOptions([], None, None, [], false);
    var i := 0;
    while i < |args|
      invariant 0 <= i <= |args|
      invariant options == ReadArgs(args[..i])
    {
      assert args[..i + 1][..i] == args[..i];
      options := Apply(options, ClassifyArg(args[i]));
      i := i + 1;
    }
    assert args[..i] == args;
    r := Finish(options);
  }

  /** The folders named on the command line, in order. */
  function Folders(args: seq<string>): seq<string>
  {
    if |args| == 0 then []
    else
      var arg := ClassifyArg(args[|args| - 1]);
      Folders(args[..|args| - 1]) + (if arg.SrcFolder? then [arg.path] else [])
  }

  /**
   * The parse succeeds exactly when at least two folders are named; the last
   * is the destination, the others the sources in order; `-css` anywhere
   * turns css on.
   */
  lemma {:induction false} ReadArgsFacts(args: seq<string>)
    ensures ReadArgs(args).srcFolder == Folders(args)
    ensures ReadArgs(args).css <==> exists i | 0 <= i < |args| :: args[i] == "-css"
  {
    if |args| > 0 {
      var init := args[..|args| - 1];
      ReadArgsFacts(init);
      assert forall i | 0 <= i < |init| :: init[i] == args[i];
      CssArg(args[|args| - 1]);
    }
  }

  lemma CssArg(a: string)
    ensures ClassifyArg(a) == Css <==> a == "-css"
  {
  }

  lemma ProcessArgsFolders(args: seq<string>)
    ensures var fs := Folders(args);
      var r := Finish(ReadArgs(args));
      && (r.Some? <==> |fs| >= 2)
      && (r.Some? ==> r.value.srcFolder == fs[..|fs| - 1] && r.value.dstFolder == fs[|fs| - 1])
      && (r.Some? ==> (r.value.css <==> exists i | 0 <= i < |args| :: args[i] == "-css"))
  {
    ReadArgsFacts(args);
  }

  /** A one-line argument that does not start with '-' names a folder, as given. */
  lemma PlainFolder(a: string)
    requires OneLine(a) && (|a| == 0 || a[0] != '-')
    ensures ClassifyArg(a) == SrcFolder(a)
  {
    var r := FirstLine(a);
    if |r| < |a| {
      assert false;
    }
  }
}
