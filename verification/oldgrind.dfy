/**
 * The publishing side of the older bundler (grinder/grind.js): the scan that
 * keeps a running `mostRecentJSDate`, the module path and header line of the
 * bundle, the HTML loader's list of direct dependencies, and the single date
 * both outputs are rebuilt against. The dependency closure and `makeFile`'s
 * routing are the same code as in the current bundler and are shared with it.
 */
module OldGrind {
  import opened Text
  import opened Objects
  import opened Closure
  import opened Publish
  import opened Scanning
  import opened Grind

  /** `assetExt`: the extensions published as assets. */
  const OldAssetExt: set<string> := {"jpg", "png", "gif"}

  /** A loaded package: `{filename, mostRecentJSDate, dirname, js, other, json, name, stats}`; `stats` keeps mtimes. */
  datatype OldDetails = OldDetails(
    filename: string, dirname: string, json: Manifest, name: string,
    js: seq<string>, other: seq<string>, stats: Obj<int>, mostRecentJSDate: int)

  /** What a scan has collected so far, with the running newest date. */
  datatype OldCollected = OldCollected(js: seq<string>, other: seq<string>, stats: Obj<int>, mostRecentJSDate: int)

  /**
   * The collection after keeping each found file in turn: a source raises the
   * date when it is strictly newer. (The date is always set before the scan,
   * so the `!result.mostRecentJSDate` half of the test never holds.)
   */
  function OldKeep(c: OldCollected, fs: seq<Found>): OldCollected
  {
    if |fs| == 0 then c
    else
      var k := OldKeep(c, fs[..|fs| - 1]);
      var f := fs[|fs| - 1];
      var stats := Put(k.stats, f.path, f.mtime);
      if f.kind == Source then
        OldCollected(k.js + [f.path], k.other, stats,
                     if k.mostRecentJSDate < f.mtime then f.mtime else k.mostRecentJSDate)
      else OldCollected(k.js, k.other + [f.path], stats, k.mostRecentJSDate)
  }

  lemma {:induction false} OldKeepAppend(c: OldCollected, a: seq<Found>, b: seq<Found>)
    ensures OldKeep(c, a + b) == OldKeep(OldKeep(c, a), b)
    decreases |b|
  {
    if |b| == 0 {
      assert a + b == a;
    } else {
      OldKeepAppend(c, a, b[..|b| - 1]);
      assert (a + b)[..|a + b| - 1] == a + b[..|b| - 1];
      assert (a + b)[|a + b| - 1] == b[|b| - 1];
    }
  }

  /** One more entry of a listing: its files are kept after those of the entries before it. */
  lemma OldKeepStep(c: OldCollected, folder: string, entries: seq<Entry>, i: nat)
    requires i < |entries|
    ensures OldKeep(c, FindsIn(OldAssetExt, folder, entries[..i + 1]))
            == OldKeep(OldKeep(c, FindsIn(OldAssetExt, folder, entries[..i])), FindsOf(OldAssetExt, folder, entries[i]))
  {
    FindsInSnoc(OldAssetExt, folder, entries, i);
    OldKeepAppend(c, FindsIn(OldAssetExt, folder, entries[..i]), FindsOf(OldAssetExt, folder, entries[i]));
  }

  /** `r` is the larger of `init` and the mtime of every source among `fs`. */
  ghost predicate IsRunningMax(r: int, init: int, fs: seq<Found>)
  {
    && init <= r
    && (forall i | 0 <= i < |fs| && fs[i].kind == Source :: fs[i].mtime <= r)
    && (r == init || exists i | 0 <= i < |fs| && fs[i].kind == Source :: fs[i].mtime == r)
  }

  /** The running date ends as the newest of its start and every source kept. */
  lemma {:induction false} OldKeepDate(c: OldCollected, fs: seq<Found>)
    ensures IsRunningMax(OldKeep(c, fs).mostRecentJSDate, c.mostRecentJSDate, fs)
    decreases |fs|
  {
    if |fs| > 0 {
      var init := fs[..|fs| - 1];
      OldKeepDate(c, init);
      assert forall i | 0 <= i < |init| :: init[i] == fs[i];
      var r0 := OldKeep(c, init).mostRecentJSDate;
      if r0 != c.mostRecentJSDate {
        var j :| 0 <= j < |init| && init[j].kind == Source && init[j].mtime == r0;
        assert fs[j].kind == Source && fs[j].mtime == r0;
      }
    }
  }

  /**
   * Keeping files appends the sources to `js` and the assets to `other`, in
   * the order found, and records exactly those files in `stats`.
   */
  lemma {:induction false} OldKeepLists(c: OldCollected, fs: seq<Found>)
    requires forall i | 0 <= i < |fs| :: fs[i].kind != Ignored
    ensures OldKeep(c, fs).js == c.js + PathsOf(fs, Source)
    ensures OldKeep(c, fs).other == c.other + PathsOf(fs, Asset)
    ensures forall p :: p in OldKeep(c, fs).stats.entries <==> p in c.stats.entries || exists i | 0 <= i < |fs| :: fs[i].path == p
    decreases |fs|
  {
    if |fs| > 0 {
      var init := fs[..|fs| - 1];
      OldKeepLists(c, init);
      assert forall i | 0 <= i < |init| :: init[i] == fs[i];
    }
  }

  /** The state `findPackageFiles` fills in: `js`, `other`, `stats` and `mostRecentJSDate`. */
  class OldScan {
    var js: seq<string>
    var other: seq<string>
    var stats: Obj<int>
    var mostRecentJSDate: int

    /** The collection this scan holds. */
    function State(): OldCollected
      reads this
    {
      OldCollected(js, other, stats, mostRecentJSDate)
    }

    /** The details `loadPackageDetails` starts from: empty lists and the manifest's mtime. */
    constructor (manifestMtime: int)
      ensures State() == OldCollected([], [], Obj(map[], []), manifestMtime)
    {
      js := [];
      other := [];
      stats := Obj(map[], []);
      mostRecentJSDate := manifestMtime;
    }

    /** `findPackageFiles(folder, result)`: keeps the sources and assets under `folder`, walking into its folders. */
    method FindPackageFiles(folder: string, readable: bool, entries: seq<Entry>) returns (outcome: Outcome)
      modifies this
      ensures State() == OldKeep(old(State()), FindsListing(OldAssetExt, folder, readable, entries))
      ensures outcome == OutcomeListing(readable, entries)
      decreases entries, 1
    {
      if !readable || !Statable(entries) {
        return Failed;
      }
      outcome := ProcessEntries(folder, entries);
    }

    /** The `async.forEach` over a listing whose entries were all stat'ed. */
    method ProcessEntries(folder: string, entries: seq<Entry>) returns (outcome: Outcome)
      modifies this
      ensures State() == OldKeep(old(State()), FindsIn(OldAssetExt, folder, entries))
      ensures outcome == OutcomeIn(entries)
      decreases entries, 0
    {
      ghost var c0 := State();
      outcome := Done;
      var i := 0;
      while i < |entries|
        invariant 0 <= i <= |entries|
        invariant State() == OldKeep(c0, FindsIn(OldAssetExt, folder, entries[..i]))
        invariant outcome == OutcomeIn(entries[..i])
      {
        var o := ProcessEntry(folder, entries[i]);
        OldKeepStep(c0, folder, entries, i);
        OutcomeInSnoc(entries, i);
        outcome := Combine(outcome, o);
        i := i + 1;
      }
      assert entries[..i] == entries;
    }

    /** The callback `findPackageFiles` runs for one stat'ed entry. */
    method ProcessEntry(folder: string, e: Entry) returns (outcome: Outcome)
      modifies this
      ensures State() == OldKeep(old(State()), FindsOf(OldAssetExt, folder, e))
      ensures outcome == OutcomeOf(e)
      decreases e
    {
      match e {
        case File(n, m) =>
          var ffn := Child(folder, n);
          var kind := Kind(OldAssetExt, n);
          if kind == Source {
            stats := Put(stats, ffn, m);
            if mostRecentJSDate < m {
              mostRecentJSDate := m;
            }
            js := js + [ffn];
          } else if kind == Asset {
            stats := Put(stats, ffn, m);
            other := other + [ffn];
          }
          assert [Found(ffn, kind, m)][..0] == [];
          outcome := Done;
        case Folder(n, readable, es) =>
          outcome := FindPackageFiles(Child(folder, n), readable, es);
        case Special(_) =>
          outcome := Stalled;
        case Unstatable(_) =>
          outcome := Failed;
      }
    }
  }

  /** The details `loadPackageDetails` builds for a manifest with mtime `mtime` and folder listing `entries`. */
  ghost predicate OldLoaded(d: OldDetails, filename: string, mtime: int, manifest: Manifest, readable: bool, entries: seq<Entry>)
  {
    && d.filename == filename && d.dirname == Dirname(filename) && d.json == manifest
    && d.name == PackageName(manifest.name, Dirname(filename))
    && OldCollected(d.js, d.other, d.stats, d.mostRecentJSDate)
       == OldKeep(OldCollected([], [], Obj(map[], []), mtime), FindsListing(OldAssetExt, d.dirname, readable, entries))
  }

  /**
   * `loadPackageDetails(packageFile)`: the date starts as the manifest's mtime
   * and ends as the newest of it and every source found; an unreadable
   * manifest ends the load with an error and no details.
   */
  method OldLoadPackageDetails(filename: string, mtime: int, manifest: Option<Manifest>, readable: bool, entries: seq<Entry>)
    returns (details: Option<OldDetails>, outcome: Outcome)
    ensures manifest.None? ==> details.None? && outcome == Failed
    ensures manifest.Some? ==> details.Some? && outcome == OutcomeListing(readable, entries)
    ensures manifest.Some? ==> OldLoaded(details.value, filename, mtime, manifest.value, readable, entries)
    ensures manifest.Some? ==>
      var fs := FindsListing(OldAssetExt, Dirname(filename), readable, entries);
      && IsRunningMax(details.value.mostRecentJSDate, mtime, fs)
      && details.value.js == PathsOf(fs, Source)
      && details.value.other == PathsOf(fs, Asset)
  {
    if manifest.None? {
      return None, Failed;
    }
    var dirname := Dirname(filename);
    var name := PackageName(manifest.value.name, dirname);
    var scan := new OldScan(mtime);
    outcome := scan.FindPackageFiles(dirname, readable, entries);
    details := Some(OldDetails(filename, dirname, manifest.value, name, scan.js, scan.other, scan.stats, scan.mostRecentJSDate));
    ghost var fs := FindsListing(OldAssetExt, dirname, readable, entries);
    ghost var c := OldCollected([], [], Obj(map[], []), mtime);
    OldKeepDate(c, fs);
    if readable && Statable(entries) {
      FindsSorted(OldAssetExt, dirname, entries);
    }
    OldKeepLists(c, fs);
  }

  // ------------------------------------------------------------ bundle

  /** `meatPath`: the file's path below the package folder and one separator, without '.js'. */
  function OldMeatPath(root: string, filename: string): string
  {
    Slice(filename, |root| + 1, -3)
  }

  /** A file at `<root>/<rest>.js` is registered as `<rest>`, without the package name. */
  lemma OldMeatPathOf(root: string, rest: string)
    ensures OldMeatPath(root, root + "/" + rest + ".js") == rest
  {
    SliceBetween(root + "/", rest, ".js");
  }

  /** The context `srcTemplate` renders for one source file. */
  datatype OldWrapped = OldWrapped(modulename: string, filepath: string, code: string)

  /** What is written to the bundle stream: a line of text, or a rendered module. */
  datatype Chunk = Line(text: string) | Module(wrapped: OldWrapped)

  /** The line that names the package's main file: `meat.setPackageMainFile('<name>', 'lib/<name>');`. */
  function MainFileLine(name: string): string
  {
    "meat.setPackageMainFile('" + name + "', 'lib/" + name + "');\n"
  }

  /** The main file line is one line: it ends with the only line break in it. */
  lemma MainFileLineIsOneLine(name: string)
    requires '\n' !in name
    ensures var h := MainFileLine(name);
      && |h| > 0 && h[|h| - 1] == '\n'
      && forall i | 0 <= i < |h| - 1 :: h[i] != '\n'
  {
    var a := "meat.setPackageMainFile('";
    var b := "', 'lib/";
    var c := "');\n";
    var h := MainFileLine(name);
    assert h == a + name + b + name + c;
    forall i | 0 <= i < |h| - 1
      ensures h[i] != '\n'
    {
      if i < |a| {
        assert h[i] == a[i];
      } else if i < |a| + |name| {
        assert h[i] == name[i - |a|];
      } else if i < |a| + |name| + |b| {
        assert h[i] == b[i - |a| - |name|];
      } else if i < |a| + |name| + |b| + |name| {
        assert h[i] == name[i - |a| - |name| - |b|];
      } else {
        assert h[i] == c[i - |a| - |name| - |b| - |name|];
      }
    }
  }

  /** The bundle stream: the main file line, then one wrapped module per source, in `details.js` order. */
  function OldStream(d: OldDetails, read: string -> string): seq<Chunk>
  {
    [Line(MainFileLine(d.name))]
      + seq(|d.js|, i requires 0 <= i < |d.js| =>
              Module(OldWrapped(d.name, OldMeatPath(d.dirname, d.js[i]), Indent(read(d.js[i])))))
  }

  /**
   * `publishJSFiles`: writes the main file line, then each source wrapped.
   * File contents come from `read`.
   */
  method OldPublishJSFiles(d: OldDetails, read: string -> string) returns (stream: seq<Chunk>)
    ensures stream == OldStream(d, read)
  {
    stream := [Line("meat.setPackageMainFile('" + d.name + "', 'lib/" + d.name + "');\n")];
    var i := 0;
    while i < |d.js|
      invariant 0 <= i <= |d.js|
      invariant |stream| == i + 1
      invariant stream[0] == Line(MainFileLine(d.name))
      invariant forall j | 0 <= j < i ::
        stream[j + 1] == Module(OldWrapped(d.name, OldMeatPath(d.dirname, d.js[j]), Indent(read(d.js[j]))))
    {
      var f := d.js[i];
      var meatPath := Slice(f, |d.dirname| + 1, -3);
      stream := stream + [Module(OldWrapped(d.name, meatPath, Indent(read(f))))];
      i := i + 1;
    }
  }

  /** The stream starts with exactly one main file line, written before any module, and has one module per source. */
  lemma OldStreamShape(d: OldDetails, read: string -> string)
    ensures var s := OldStream(d, read);
      && |s| == |d.js| + 1
      && s[0] == Line(MainFileLine(d.name))
      && forall i | 1 <= i < |s| :: s[i].Module?
  {
  }

  /**
   * Every source follows the main file line once, in `details.js` order, under
   * its path below the package folder, with each of its lines indented.
   */
  lemma OldStreamModule(d: OldDetails, read: string -> string, i: nat)
    requires i < |d.js|
    ensures var w := OldStream(d, read)[i + 1].wrapped;
      && w.modulename == d.name
      && w.filepath == OldMeatPath(d.dirname, d.js[i])
      && Split(w.code, '\n') == IndentLines(Split(read(d.js[i]), '\n'))
  {
  }

  // ------------------------------------------------------------ html

  /** The context `componentTemplate` renders into `<dst>/<name>.html`. */
  datatype OldHtml = OldHtml(dependencies: seq<string>, main: string)

  /** The HTML loader's script list: the package's own bundle, then one per declared dependency. */
  function OldHtmlOf(d: OldDetails): OldHtml
  {
    OldHtml(BundleEntries([d.name] + d.json.dependencies), d.name)
  }

  /** `publishHtml`: the list starts with the package's own bundle and adds the declared dependencies in order. */
  method OldPublishHtml(d: OldDetails) returns (h: OldHtml)
    ensures h == OldHtmlOf(d)
  {
    var deps := d.json.dependencies;
    var dependencies := [BundleOfPackage(d.name)];
    var i := 0;
    while i < |deps|
      invariant 0 <= i <= |deps|
      invariant dependencies == BundleEntries([d.name] + deps[..i])
    {
      assert ([d.name] + deps[..i + 1])[..i + 1] == [d.name] + deps[..i];
      dependencies := dependencies + [BundleOfPackage(deps[i])];
      i := i + 1;
    }
    assert deps[..i] == deps;
    h := OldHtml(dependencies, d.name);
  }

  /** The loader lists the package's own bundle first, then one entry per declared dependency. */
  lemma OldHtmlShape(d: OldDetails)
    requires IsName(d.name)
    ensures var h := OldHtmlOf(d);
      && |h.dependencies| == |d.json.dependencies| + 1
      && h.dependencies[0] == d.name + "/" + d.name + ".js"
  {
    BundleOfName(d.name);
  }

  /**
   * A package's bundle is listed exactly when it is the package itself or a
   * declared dependency: a dependency of a dependency is listed only when the
   * package declares it too.
   */
  lemma OldHtmlLists(d: OldDetails, x: string)
    requires IsName(x) && IsName(d.name)
    requires forall i | 0 <= i < |d.json.dependencies| :: IsName(d.json.dependencies[i])
    ensures x + "/" + x + ".js" in OldHtmlOf(d).dependencies <==> x == d.name || x in d.json.dependencies
  {
    BundleEntriesList([d.name] + d.json.dependencies, x);
  }

  // ------------------------------------------------------------ publishing

  /** What `makePublishedPackage` writes: the bundle stream and the HTML, when each is rebuilt. */
  datatype OldPublication = OldPublication(bundle: Option<seq<Chunk>>, html: Option<OldHtml>)

  /**
   * `makePublishedPackage(details, outputfolder)`: the bundle and the HTML
   * are each rebuilt exactly when `checkOlderOrInvalid` finds them missing or
   * strictly older than `mostRecentJSDate`.
   */
  method OldMakePublishedPackage(d: OldDetails, outputfolder: string, fs: Mtimes, read: string -> string)
    returns (p: OldPublication)
    ensures p.bundle.Some? <==> OlderOrInvalid(fs, BundlePath(outputfolder, d.name), d.mostRecentJSDate)
    ensures p.html.Some? <==> OlderOrInvalid(fs, HtmlPath(outputfolder, d.name), d.mostRecentJSDate)
    ensures p.bundle.Some? ==> p.bundle.value == OldStream(d, read)
    ensures p.html.Some? ==> p.html.value == OldHtmlOf(d)
  {
    var bundle := None;
    if OlderOrInvalid(fs, BundlePath(outputfolder, d.name), d.mostRecentJSDate) {
      var s := OldPublishJSFiles(d, read);
      bundle := Some(s);
    }
    var html := None;
    if OlderOrInvalid(fs, HtmlPath(outputfolder, d.name), d.mostRecentJSDate) {
      var h := OldPublishHtml(d);
      html := Some(h);
    }
    p := OldPublication(bundle, html);
  }

  /**
   * For a loaded package, an output is rebuilt exactly when it is missing or
   * older than the manifest or than some source of the package.
   */
  lemma OldRebuiltWhenStale(d: OldDetails, filename: string, mtime: int, manifest: Manifest, readable: bool,
                            entries: seq<Entry>, fs: Mtimes, out: string)
    requires OldLoaded(d, filename, mtime, manifest, readable, entries)
    ensures var found := FindsListing(OldAssetExt, Dirname(filename), readable, entries);
      OlderOrInvalid(fs, out, d.mostRecentJSDate)
      <==> OlderOrInvalid(fs, out, mtime)
           || exists i | 0 <= i < |found| && found[i].kind == Source :: OlderOrInvalid(fs, out, found[i].mtime)
  {
    var found := FindsListing(OldAssetExt, Dirname(filename), readable, entries);
    OldKeepDate(OldCollected([], [], Obj(map[], []), mtime), found);
    if OlderOrInvalid(fs, out, d.mostRecentJSDate) && !OlderOrInvalid(fs, out, mtime) {
      var i :| 0 <= i < |found| && found[i].kind == Source && found[i].mtime == d.mostRecentJSDate;
    }
  }
}
