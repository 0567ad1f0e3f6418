/**
 * What `findPackageFiles` finds under a package folder, in both versions of
 * the bundler: every regular file is sorted by its name into a JavaScript
 * source, an asset or neither; folders are walked into; and the walk's
 * callback reports an error, never comes, or comes without an error.
 *
 * A folder is given as its listing: whether `fs.readdir` succeeds and the
 * entries, with what `fs.stat` says of each. The walk is taken one entry after
 * another, in listing order.
 */
module Scanning {
  import opened Text
  import opened Publish

  datatype Entry =
    | File(name: string, mtime: int)
    | Folder(name: string, readable: bool, entries: seq<Entry>)
      /** `fs.stat` succeeds, but the entry is neither a file nor a folder. */
    | Special(name: string)
      /** `fs.stat` fails. */
    | Unstatable(name: string)

  /** A file the walk keeps: its path, whether it is a source or an asset, and its mtime. */
  datatype Found = Found(path: string, kind: FileKind, mtime: int)

  /** How the walk's callback comes: with no error, with an error, or never. */
  datatype Outcome = Done | Failed | Stalled

  /** `async.forEach` reports the first error; without one it waits for every entry. */
  function Combine(a: Outcome, b: Outcome): (c: Outcome)
    ensures c.Failed? <==> a.Failed? || b.Failed?
    ensures c.Done? <==> a.Done? && b.Done?
  {
    if a.Failed? || b.Failed? then Failed
    else if a.Stalled? || b.Stalled? then Stalled
    else Done
  }

  /** Every entry of the listing could be stat'ed: only then are any of them processed. */
  predicate Statable(entries: seq<Entry>)
  {
    forall i | 0 <= i < |entries| :: !entries[i].Unstatable?
  }

  /** The path of an entry of `folder`. */
  function Child(folder: string, name: string): string
  {
    folder + "/" + name
  }

  /** The files kept from the entries of `folder`, in listing order. */
  function FindsIn(assetExt: set<string>, folder: string, entries: seq<Entry>): seq<Found>
    decreases entries
  {
    if |entries| == 0 then []
    else FindsIn(assetExt, folder, entries[..|entries| - 1]) + FindsOf(assetExt, folder, entries[|entries| - 1])
  }

  /** The files kept from one entry of `folder`. */
  function FindsOf(assetExt: set<string>, folder: string, e: Entry): seq<Found>
    decreases e
  {
    match e
    case File(n, m) =>
      var k := Kind(assetExt, n);
      if k == Ignored then [] else [Found(Child(folder, n), k, m)]
    case Folder(n, readable, es) =>
      if readable && Statable(es) then FindsIn(assetExt, Child(folder, n), es) else []
    case _ => []
  }

  /** The files kept from a listing: none when it could not be read or an entry could not be stat'ed. */
  function FindsListing(assetExt: set<string>, folder: string, readable: bool, entries: seq<Entry>): seq<Found>
  {
    if readable && Statable(entries) then FindsIn(assetExt, folder, entries) else []
  }

  function OutcomeIn(entries: seq<Entry>): Outcome
    decreases entries
  {
    if |entries| == 0 then Done
    else Combine(OutcomeIn(entries[..|entries| - 1]), OutcomeOf(entries[|entries| - 1]))
  }

  function OutcomeOf(e: Entry): Outcome
    decreases e
  {
    match e
    case File(_, _) => Done
    case Folder(_, readable, es) => if readable && Statable(es) then OutcomeIn(es) else Failed
    case Special(_) => Stalled
    case Unstatable(_) => Failed
  }

  /** How the callback of `findPackageFiles(folder)` comes for this listing. */
  function OutcomeListing(readable: bool, entries: seq<Entry>): Outcome
  {
    if readable && Statable(entries) then OutcomeIn(entries) else Failed
  }

  /** The paths of the kept files of one kind, in order. */
  function PathsOf(fs: seq<Found>, kind: FileKind): seq<string>
  {
    if |fs| == 0 then []
    else
      var last := fs[|fs| - 1];
      PathsOf(fs[..|fs| - 1], kind) + (if last.kind == kind then [last.path] else [])
  }

  /** A path is listed exactly when a kept file of that kind has it. */
  lemma {:induction false} PathsOfMembers(fs: seq<Found>, kind: FileKind)
    ensures forall p :: p in PathsOf(fs, kind) <==> exists i | 0 <= i < |fs| :: fs[i].kind == kind && fs[i].path == p
  {
    if |fs| > 0 {
      var init := fs[..|fs| - 1];
      PathsOfMembers(init, kind);
      assert forall i | 0 <= i < |init| :: init[i] == fs[i];
    }
  }

  lemma PathsOfSnoc(fs: seq<Found>, i: nat, kind: FileKind)
    requires i < |fs|
    ensures PathsOf(fs[..i + 1], kind) == PathsOf(fs[..i], kind) + (if fs[i].kind == kind then [fs[i].path] else [])
  {
    assert fs[..i + 1][..i] == fs[..i];
  }

  lemma FindsInSnoc(assetExt: set<string>, folder: string, entries: seq<Entry>, i: nat)
    requires i < |entries|
    ensures FindsIn(assetExt, folder, entries[..i + 1])
            == FindsIn(assetExt, folder, entries[..i]) + FindsOf(assetExt, folder, entries[i])
  {
    assert entries[..i + 1][..i] == entries[..i];
  }

  lemma OutcomeInSnoc(entries: seq<Entry>, i: nat)
    requires i < |entries|
    ensures OutcomeIn(entries[..i + 1]) == Combine(OutcomeIn(entries[..i]), OutcomeOf(entries[i]))
  {
    assert entries[..i + 1][..i] == entries[..i];
  }

  /** A file is kept exactly when one entry of the listing keeps it. */
  lemma {:induction false} FindsMembers(assetExt: set<string>, folder: string, entries: seq<Entry>, f: Found)
    ensures f in FindsIn(assetExt, folder, entries)
            <==> exists i | 0 <= i < |entries| :: f in FindsOf(assetExt, folder, entries[i])
  {
    if |entries| > 0 {
      var n := |entries| - 1;
      var init := entries[..n];
      var inInit := FindsIn(assetExt, folder, init);
      var inLast := FindsOf(assetExt, folder, entries[n]);
      assert FindsIn(assetExt, folder, entries) == inInit + inLast;
      FindsMembers(assetExt, folder, init, f);
      if f in inInit {
        var i :| 0 <= i < |init| && f in FindsOf(assetExt, folder, init[i]);
        assert entries[i] == init[i];
      } else if f !in inLast {
        forall i | 0 <= i < |entries|
          ensures f !in FindsOf(assetExt, folder, entries[i])
        {
          if i < n {
            assert entries[i] == init[i];
          }
        }
      }
    }
  }

  /** The walk ends with an error exactly when one entry does, and without one exactly when every entry does. */
  lemma {:induction false} OutcomeMembers(entries: seq<Entry>)
    ensures OutcomeIn(entries).Failed? <==> exists i | 0 <= i < |entries| :: OutcomeOf(entries[i]).Failed?
    ensures OutcomeIn(entries).Done? <==> forall i | 0 <= i < |entries| :: OutcomeOf(entries[i]).Done?
  {
    if |entries| > 0 {
      var init := entries[..|entries| - 1];
      OutcomeMembers(init);
      assert forall i | 0 <= i < |init| :: init[i] == entries[i];
    }
  }

  /** A '.js' test on the path agrees with the test on the file name. */
  lemma JsUnderFolder(folder: string, n: string)
    ensures EndsWith(Child(folder, n), ".js") <==> EndsWith(n, ".js")
  {
    var p := Child(folder, n);
    if |n| >= 3 {
      assert p[|p| - 3..] == n[|n| - 3..];
    } else {
      assert p[|p| - |n| - 1] == '/';
    }
  }

  /** The extension read from the path is the one read from the file name. */
  lemma ExtUnderFolder(folder: string, n: string)
    ensures GetExt(Child(folder, n)) == GetExt(n)
  {
    var p := Child(folder, n);
    var front := folder + "/";
    assert p == front + n;
    var w := WordSuffix(n);
    if w < |n| {
      WordSuffixOf(front + n[..|n| - w], n[|n| - w..]);
      assert front + n[..|n| - w] + n[|n| - w..] == p;
      assert p[|p| - w - 1] == n[|n| - w - 1];
    } else {
      WordSuffixOf(front, n);
      assert n[|n| - w..] == n;
    }
  }

  /** Sorting by the kept path gives the kind it was kept as. */
  lemma {:induction false} FindsSorted(assetExt: set<string>, folder: string, entries: seq<Entry>)
    ensures forall f | f in FindsIn(assetExt, folder, entries) :: f.kind != Ignored && Kind(assetExt, f.path) == f.kind
    decreases entries
  {
    if |entries| > 0 {
      FindsSorted(assetExt, folder, entries[..|entries| - 1]);
      EntrySorted(assetExt, folder, entries[|entries| - 1]);
    }
  }

  lemma {:induction false} EntrySorted(assetExt: set<string>, folder: string, e: Entry)
    ensures forall f | f in FindsOf(assetExt, folder, e) :: f.kind != Ignored && Kind(assetExt, f.path) == f.kind
    decreases e
  {
    match e
    case File(n, m) =>
      JsUnderFolder(folder, n);
      ExtUnderFolder(folder, n);
    case Folder(n, readable, es) =>
      if readable && Statable(es) {
        FindsSorted(assetExt, Child(folder, n), es);
      }
    case _ =>
  }
}
