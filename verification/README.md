# meatgrinder core in Dafny

meatgrinder has two halves that share one bundle format:

- The **grinder** (`lib/grind.js`, and its older version `grinder/grind.js`) is the publishing side. For each package it:
  - finds the package's manifest;
  - scans the package's folder for JavaScript sources and assets;
  - resolves the closure of packages it depends on;
  - decides from file dates whether the package bundle `<dst>/<name>/<name>.js` and the HTML loader `<dst>/<name>.html` must be rebuilt;
  - when they must be, works out what goes into them.
- The **meat** (`lib/meat.js`, and its older version `grinder/meat.js`) is the browser loader. It does four things:
  - registers the modules a bundle defines;
  - resolves module paths;
  - runs each module's factory once per application domain, and caches its exports;
  - in `lib/`, fetches a package's bundle and then its dependencies before it reports the package loaded.

This project models those decisions and proves what they promise. File system state is given as values:

- a folder listing, with what `stat` says of each entry;
- the mtimes of published files;
- a function giving a source file's text.

The browser's script events are methods called on the loader.

Modules:

- `Text`: JavaScript `split`/`join`/`slice`, suffix and infix tests.
- `Objects`: JavaScript objects as dictionaries. It models key order (first insertion wins) and `concatObject`.
- `Paths`: `resolvePathArray`, which is identical in both loaders.
- `Runtime`: what both loaders share: values, module factories, the application domain.
- `Meat`: the loader of `lib/meat.js`, as a class over its packages table, with `require` and the `loadPackage` state machine.
- `OldMeat`: the loader of `grinder/meat.js`.
- `Closure`: `getPackageDependencies`, which is identical in both grinders. It is generic in the package record.
- `Publish`: the pure decisions:
  - staleness;
  - the file-kind test;
  - indentation;
  - `path.normalize`/`path.join`;
  - the package name;
  - `makeFile`'s routing.
- `Scanning`: what a folder walk finds, and how the walk's callback ends.
- `Grind`: `lib/grind.js`:
  - the scan class;
  - the stats helpers;
  - the main module guess;
  - bundle and HTML contents;
  - `makePublishedPackage`;
  - `makeFile`;
  - `processArgs`.
- `OldGrind`: `grinder/grind.js`:
  - the scan with its running `mostRecentJSDate`;
  - the header line and module path of the bundle;
  - the HTML list of direct dependencies;
  - the single-date gating.

Touching a source of a package A does not make the bundle of a package B that depends on A stale. The date of B's bundle is taken over B's own files only (`lib/grind.js:466`). With `-css`, the date of B's HTML also covers the css files of B's closure (`lib/grind.js:469`).

## Model

| member | source | states |
|---|---|---|
| Objects.Put | lib/grind.js:119 | assigning `o[k]` sets the entry; a new key goes to the end of the key order, an existing key keeps its place |
| Objects.PutWellFormed | lib/grind.js:119 | assignment keeps keys unique and in step with the entries |
| Objects.NewKeys | lib/grind.js:115-123 | the keys `concatObject` appends are exactly the keys of `src` not already in `dst` |
| Objects.PutAllEntries | lib/grind.js:115-123 | after copying keys one by one, an entry comes from `src` if its key was copied, otherwise from `dst` |
| Objects.PutAllKeys | lib/grind.js:115-123 | copying appends the new keys in `src` order after `dst`'s keys |
| Objects.PutAllWellFormed | lib/grind.js:115-123 | copying keeps the object well formed |
| Objects.CopiedAll | lib/grind.js:115-123 | copying all of `src` gives the entries `dst + src` (src wins) and keys `dst.keys + NewKeys` |
| Objects.ConcatObject | lib/grind.js:115-123 | `concatObject(dst, src)`: the loop's result is well formed, its entries are `dst + src`, and new keys are appended in `src` order (also `grinder/grind.js:37-45`) |
| Text.Split | lib/meat.js:54 | `split('/')` gives at least one part, no part holds the separator, and there is one part exactly when the string has no separator |
| Text.JoinSplit | lib/meat.js:120 | joining the parts of a split gives back the original string |
| Text.SplitJoin | lib/meat.js:120 | splitting the join of separator-free parts gives back the parts |
| Text.Slice | lib/grind.js:304 | `slice` with negative bounds counted from the end never yields more than the string |
| Text.SliceBetween | lib/grind.js:304 | slicing a known prefix and suffix off a string leaves what was between them |
| Text.ContainsAt | lib/grind.js:466 | an unanchored regular-expression match of a literal holds exactly when the literal occurs at some position |
| Text.NotContained | lib/grind.js:466 | a literal whose first two characters never occur together at any position does not match |
| Paths.ResolvePathArray | lib/meat.js:72-97 | the push/pop loop returns `Resolve(path, currentPath)`, and resolving against a resolved directory gives a resolved path (the same code is at `grinder/meat.js:63-88`) |
| Paths.WalkKeepsNormal | lib/meat.js:87-94 | a walk from a resolved path over segments without '/' never produces '.', '..' or an empty segment |
| Paths.Resolve | lib/meat.js:72-97 | resolved against no directory or a resolved one, every segment of the result names something: no '.', '..' or empty segment survives |
| Paths.AbsoluteOverride | lib/meat.js:79-85 | a path that does not start with '.' or '..' resolves the same from every directory |
| Paths.WalkNames | lib/meat.js:87-94 | walking plain segments appends them |
| Paths.ResolveJoined | lib/meat.js:72-97 | a resolved path written with '/' resolves to itself from any directory |
| Paths.ResolveParent | lib/meat.js:72-97 | `../x` from the module folder `pkg/sub` resolves to `pkg/x`, for any plain names |
| Paths.ResolveDot | lib/meat.js:72-97 | `./x` from the module folder `pkg/sub` resolves to `pkg/sub/x`, and from the top to `x` |
| Paths.ResolveRelativeExample | lib/meat.js:72-97 | `../x` from `pkg/lib` resolves to `pkg/x` |
| Paths.ResolveSiblingExample | lib/meat.js:72-97 | `pkg2/mod` from `pkg/lib` resolves to `pkg2/mod` |
| Runtime.FullPathSplits | lib/meat.js:120-122 | for two or more segments, the cache key is the package name, '/', and the path inside the package |
| Runtime.DirOf | lib/meat.js:123 | the directory of a resolved path: empty for one segment; for more, directory + '/' + last segment is the cache key |
| Meat.Classify | lib/meat.js:112-135 | `require`'s decision before a factory runs: a cache hit is truthy; an instantiation uses a key that a registered factory can create and that has no truthy cache entry, and that key is the resolved path joined with '/' while its directory is that path minus its last segment |
| Meat.KeyIsModuleKey | lib/meat.js:120-135 | every path that locates a factory gives a cache key among the module keys of the table |
| Meat.RegisteredModuleIsLocated | lib/meat.js:53-66 | a module registered under a plain id is exactly what `require` of that id finds, from any directory |
| Meat.WithModule | lib/meat.js:53-66 | `addModuleFile` creates the package when absent and changes no other package; the dependency list is replaced; the factory is stored under the id minus its first segment; the `loading` list is kept; the main file becomes the id exactly when none was set (absent or empty) and the id has two or more segments whose last repeats the package name, and otherwise stays what it was |
| Meat.FirstMainFileKept | lib/meat.js:59-64 | without `defineMain`, the first id of the form `name/.../name` becomes the main file, and a later module of the same package does not replace it |
| Meat.Meat.constructor | lib/meat.js:14-15 | the loader starts with no packages, no requests and no callbacks run |
| Meat.Meat.EnsurePackage | lib/meat.js:17-28 | creates the empty record only when the name is absent, and returns the record under the name |
| Meat.MainModuleRegisters | lib/meat.js:53-66 | in a fresh record, registering `name/name` makes that id the main file and stores the factory under the file name `name` |
| Meat.Meat.AddModuleFile | lib/meat.js:53-66 | the table becomes `WithModule`: the dependency list is replaced, the first id whose last segment repeats the package name becomes the main file while none is set, and the factory is stored under the id minus its first segment |
| Meat.Meat.DefineMain | lib/meat.js:67-70 | sets the main path whatever it was, creating the record if needed and leaving its other fields alone |
| Meat.Meat.Require | lib/meat.js:101-151 | follows `Classify`: returns the cached value, throws the classified error, or instantiates; modules whose factories are running keep their cached object; cached keys are never dropped; instances are only appended; the first module made becomes the main module of every later one; after a successful instantiation every import of the factory, resolved against the module's directory, is cached |
| Meat.Meat.MakeModule | lib/meat.js:136-146 | caches a fresh `{}` under the key before the factory runs, records a module object with that id, and makes it the main module when none was set; the factory's `require` is bound to `dir`, so on success each of its imports resolved against `dir` is cached |
| Meat.Meat.RunFactory | lib/meat.js:142-148 | after the factory, the cache holds `module.exports` (the factory may replace it); a failing nested require leaves the in-progress object cached; on success every import, resolved against the `require` the factory was given, is cached |
| Meat.Meat.RequireImport | lib/meat.js:101-135 | one nested `require` drops no cached key, and on success the module its name resolves to from `fn`'s directory is cached |
| Meat.Meat.Deliver | lib/meat.js:166-176 | a caller's callback is recorded with the error and nothing else changes; a counting callback counts one more dependency and keeps the last error, and exactly when the count reaches the number of dependencies past the first three, the waiting package completes with the kept error |
| Meat.Meat.Complete | lib/meat.js:197-207 | `onComplete(err)` deletes the loading list, evicts the record on error, and then calls every queued callback with `err`, in queue order: there is a chain of states from the finished table to the final state in which each step is exactly what calling that callback does (a caller's callback is recorded; a counting callback counts, and completes its package when it is the last) |
| Meat.Meat.LoadPackage | lib/meat.js:192-230 | an unknown package gets a record loading `[cb]`, one bundle request and a script in flight; a loading package queues `cb`; a loaded package calls `cb` with no error at once, with the effects `Deliver` states |
| Meat.Meat.LoadDependencies | lib/meat.js:159-191 | an unknown package completes with an error, which changes nothing since it is not loading; with no entry past the first three the package completes at once without error; otherwise the requests and scripts in flight are those of `loadPackage(deps[i], onLoaded)` for each `i` from 3 in order, and the package completes without error right away exactly when every dependency was already loaded, else its join waits holding the count of those |
| Meat.Meat.ScriptLoaded | lib/meat.js:215-217 | the script's `onload` takes the script out of flight and leaves the state `loadDependencies` states for the package |
| Meat.Meat.ScriptFailed | lib/meat.js:218-220 | the script's `onerror` completes the package with "could not load" and evicts it; the completion is the same chain of callback calls as `Complete` |
| Meat.Meat.DeliverAll | lib/meat.js:203-206 | every callback of the queue is called with `err`, in order: the returned chain starts at the state before the loop, ends at the state after it, and each step is the call of the next callback; with only callers' callbacks, exactly those deliveries are appended |
| Meat.Meat.DeliverNext | lib/meat.js:203-206 | one turn of the delivery loop calls the next callback, keeps what earlier turns established and extends the chain by the state that call leaves |
| Meat.Notified | lib/meat.js:203-206 | the deliveries of a queue of callers' callbacks are one per callback, in order, each with `err` |
| Meat.SettledShrinksLoading | lib/meat.js:197-207 | completing packages never starts a new load |
| Meat.Counted | lib/meat.js:166-172 | one more dependency has reported: the count grows by one; an error replaces the kept one, no error keeps it |
| Meat.Finished | lib/meat.js:197-202 | on error the record is evicted, without one it stays with no `loading` list; no other package changes |
| Meat.LoadedCount | lib/meat.js:182-184 | the number of dependencies already loaded is at most their number, and equals it exactly when every one is loaded |
| Meat.Fresh | lib/meat.js:208-214 | the names not yet in the table, each once, in the order of their first occurrence |
| Meat.Bundles | lib/meat.js:214 | one request `<name>/<name>.js` per package, in order |
| Meat.DispatchAccounting | lib/meat.js:166-184 | the loop's count starts at the number of dependencies already loaded, and every other dependency ends up loading with the counting callback in its queue, where it waits for that package to complete |
| Meat.DispatchAllLoaded | lib/meat.js:182-184 | when every dependency was counted at once, the loop changed nothing else: each was already loaded |
| Meat.DispatchKeepsLoaded | lib/meat.js:192-230 | the loop never changes the record of a loaded package and never makes another one loaded |
| Meat.DispatchKeys | lib/meat.js:182-184 | after the loop the table has a record for every dependency, and no other new record |
| Meat.DispatchRequests | lib/meat.js:208-214 | the loop requests exactly the bundles of the dependencies that had no record, each once, in dependency order |
| Meat.DispatchInFlight | lib/meat.js:208-218 | the scripts in flight grow by exactly the dependencies that had no record |
| Meat.DispatchExtends | lib/meat.js:208-214 | the loop only appends requests |
| Meat.FailedLoadScenario | lib/meat.js:192-230 | two loads of "foo" during one fetch make one request; on failure both hear the same error, the record is evicted, and a later load fetches again |
| Meat.LoadedScenario | lib/meat.js:159-230 | a package whose only dependencies are `require`, `exports` and `module` completes without error after one fetch, and a later load is answered at once |
| Meat.DependencyScenario | lib/meat.js:159-230 | a package `a` whose main module depends on `b`: loading `a` requests `a` then `b`, the caller hears nothing until `b` loads, then hears once that there was no error, and both records are loaded |
| Meat.BCompletesA | lib/meat.js:166-176 | the completion of `b` calls the counting callback of `a`'s join, which completes `a` and tells its caller once |
| Meat.LastCountCompletes | lib/meat.js:166-176 | a counting callback whose join has all but one dependency reported, with no error, completes the package that waited; that package's only caller is told there was no error |
| Meat.SiblingResolvesIn | lib/meat.js:112-146 | a module `p/l/a` required from the top is made in directory `p/l`, where `./b` is `p/l/b`; from the top, `./b` would name the absent package `b` |
| Meat.SiblingScenario | lib/meat.js:99-151 | with `pkg/lib/a` requiring `./b`: the first module made is `pkg/lib/a`, and when its require succeeds `pkg/lib/b` is cached |
| OldMeat.OldClassify | grinder/meat.js:103-124 | no package-name substitution: a cache hit is truthy, failures are only unavailable package or module, and an instantiation uses a creatable, uncached key, which is the resolved path joined with '/', with that path minus its last segment as its directory |
| OldMeat.OldKeyIsModuleKey | grinder/meat.js:111-125 | every located path gives a module key of the table |
| OldMeat.RegisteredMainIsLocated | grinder/meat.js:50-61 | a module registered under a bare package name is the main factory that `require` of that name finds |
| OldMeat.RegisteredFileIsLocated | grinder/meat.js:58-60 | a module registered under a plain path of two or more segments is what `require` of that path finds |
| OldMeat.OldMeat.constructor | grinder/meat.js:14-15 | the loader starts with no packages |
| OldMeat.OldMeat.EnsurePackage | grinder/meat.js:17-25 | creates `{files:{}, mainFile:null}` only when the name is absent |
| OldMeat.OldMeat.AddModuleFile | grinder/meat.js:50-61 | a one-segment id sets the main factory; otherwise the factory is stored under the id minus its first segment |
| OldMeat.OldMeat.Require | grinder/meat.js:92-140 | follows `OldClassify`; a one-segment path selects the main factory; running modules keep their cached object; cached keys are never dropped; the first module made is the main module; after a successful instantiation every import of the factory, resolved against the module's directory, is cached |
| OldMeat.OldMeat.MakeModule | grinder/meat.js:125-135 | caches `{}` before the factory runs and records the module object, which becomes main when none was set; on success each import resolved against `dir` is cached |
| OldMeat.OldMeat.RunFactory | grinder/meat.js:131-137 | the cache takes `module.exports` after the factory; on success every import, resolved against the factory's `require`, is cached |
| OldMeat.OldMeat.RequireImport | grinder/meat.js:92-124 | one nested `require` drops no cached key, and on success the module its name resolves to from `fn`'s directory is cached |
| Closure.Gd | lib/grind.js:239-254 | the recursive walk computes `Visit`: the record is put before its dependencies are walked, in declared order; a missing package throws "Missing Package"; returning to a package still on the stack is the engine's stack overflow |
| Closure.GetPackageDependencies | lib/grind.js:238-258 | the result starts with the package, is well formed, holds registry records unchanged, and is closed under dependencies; errors are those of `Dependencies` (the same code is at `grinder/grind.js:454-474`) |
| Closure.Visit | lib/grind.js:239-254 | a successful walk from a package keeps everything collected before and holds the package |
| Closure.VisitAll | lib/grind.js:246-250 | a successful walk over a dependency list keeps everything collected before and holds every listed package |
| Closure.VisitOk | lib/grind.js:239-254 | a successful walk only grows the result, adds only registry records, and adds the package with everything it depends on |
| Closure.VisitAllOk | lib/grind.js:246-250 | walking a dependency list adds every listed package and its closure |
| Closure.ResultFacts | lib/grind.js:238-258 | a successful result is well formed, starts with the package, holds registry records and is dependency-closed |
| Closure.DependenciesLeast | lib/grind.js:238-258 | the result is contained in every dependency-closed set holding the package, so it is exactly what the package reaches |
| Closure.DependenciesMissing | lib/grind.js:251-253 | "Missing Package" is thrown only when some package reached is unregistered |
| Closure.DependenciesFound | lib/grind.js:238-258 | over a registered, acyclic, closed set the walk always succeeds |
| Closure.VisitNoOverflow | lib/grind.js:239-254 | inside a set that is closed under dependencies and ranked so that every dependency ranks lower, the walk never returns to a package on its stack |
| Closure.DependenciesMissingReached | lib/grind.js:238-258 | inside such an acyclic set, when a chain of dependencies from the package reaches an unregistered name, "Missing Package" is thrown: with `DependenciesMissing`, this error is thrown exactly when an unregistered package is reached |
| Closure.DiamondExample | lib/grind.js:238-258 | for `a -> b, c; b -> d; c -> d` the keys are `a, b, d, c`: the shared dependency keeps the place of its first visit |
| Closure.CycleExample | lib/grind.js:239-254 | `a -> b -> a` ends in the engine's stack overflow |
| Publish.WrittenIsCurrent | lib/grind.js:197-201 | `checkOlderOrInvalid` (`OlderOrInvalid`): an output written at or after the reference date is not stale, and a deleted one is |
| Publish.StaleMonotone | lib/grind.js:197-201 | `checkOlderOrInvalid` (`OlderOrInvalid`): a stale output stays stale when the reference date moves later |
| Publish.CopiedIsCurrent | lib/grind.js:182-192 | the test of `copyFileIfOutdated` (`CopyNeeded`): after a copy stamped no earlier than the source, it would not copy again, and a missing source or copy makes it copy |
| Publish.WordSuffix | lib/grind.js:576 | the length of the longest suffix of word characters |
| Publish.GetExt | lib/grind.js:587 | what `/\.(\w+)$/` captures is a non-empty run of word characters that ends the name behind a '.' |
| Publish.GetExtOf | lib/grind.js:587 | a name `base.ext` with a word-character extension yields `ext` |
| Publish.NoExtAfterNonWord | lib/grind.js:587 | a name ending in a non-word character has no extension |
| Publish.Kind | lib/grind.js:583-591 | a file is a source exactly when it ends in `.js`, and an asset exactly when it is not a source and its extension is in the table |
| Publish.KindAsWritten | lib/grind.js:583-591 | as written, a file is a source exactly when its name ends in `.js`, and an asset only when its name has an extension |
| Publish.KindsAgree | lib/grind.js:588 | the lookup as written and as intended agree on every extension that is not an inherited property name |
| Publish.InheritedExtensionIsAsset | lib/grind.js:588 | `x.constructor` is an asset as written, though no table lists it |
| Publish.Indent | lib/grind.js:311-313 | the indented code has exactly the original lines, one for one, each prefixed by four spaces |
| Publish.Normalize | lib/grind.js:805 | `path.normalize` never gives an empty path, and keeps a leading and a trailing '/' |
| Publish.PathJoin | lib/grind.js:423 | `path.join` never gives an empty path, and keeps the first argument's leading '/' |
| Publish.Basename | lib/grind.js:628 | the base name never holds '/' |
| Publish.NormalizeNames | lib/grind.js:805 | `path.normalize` leaves a path of plain segments unchanged |
| Publish.NormalizeFlat | lib/grind.js:805 | a single plain name normalises to itself |
| Publish.JoinNames | lib/grind.js:423 | `path.join(a, b)` of two plain names is `a/b` |
| Publish.PackageName | lib/grind.js:628 | `json.name` when it is a non-empty string, otherwise the base name of the manifest's folder |
| Publish.BasenameOfName | lib/grind.js:628 | a name without '/' is its own base name |
| Publish.BasenameOfNames | lib/grind.js:628 | the base name of plain segments joined by '/' is the last segment |
| Publish.BasenameOfAbsolute | lib/grind.js:628 | the same for an absolute folder |
| Publish.Route | lib/grind.js:802-825 | routed on the normalised path, a package to rebuild is always named by one segment, free of '/' |
| Publish.RouteAsWritten | lib/grind.js:802-825 | on a path already in normal form, the routing as written agrees with the corrected routing |
| Publish.RouteNested | lib/grind.js:802-825 | a path inside a package folder rebuilds that package |
| Publish.RouteHtml | lib/grind.js:810-811 | `X.html` rebuilds package `X` |
| Publish.RoutePlain | lib/grind.js:812-813 | a plain name without '.' rebuilds the package of that name |
| Publish.RouteRuntime | lib/grind.js:814-821 | any other flat name only republishes the runtime |
| Publish.NormalizeDotSlash | lib/grind.js:805 | `./x` normalises to `x` |
| Publish.DotSlashHtmlAsWritten | lib/grind.js:810-811 | as written, `./X.html` names the package `./X` |
| Publish.DotSlashHtml | lib/grind.js:805-813 | routed on its normal form, `./X.html` rebuilds package `X` |
| Scanning.Combine | lib/grind.js:572-600 | `async.forEach` fails when any part fails and succeeds only when every part succeeds |
| Scanning.PathsOfMembers | lib/grind.js:583-590 | a path is listed exactly when a kept file of that kind has it |
| Scanning.FindsMembers | lib/grind.js:572-600 | a file is kept exactly when one entry of the listing keeps it |
| Scanning.OutcomeMembers | lib/grind.js:548-606 | the walk ends with an error exactly when one entry does, and without one exactly when every entry does |
| Scanning.JsUnderFolder | lib/grind.js:578-583 | testing `.js` on the joined path agrees with testing it on the file name |
| Scanning.ExtUnderFolder | lib/grind.js:578-588 | the extension read from the joined path is the file name's |
| Scanning.FindsSorted | lib/grind.js:574-597 | every kept file has the kind its own path gives |
| Grind.KeepParts | lib/grind.js:583-590 | keeping files appends the sources to `js` and the assets to `other` in the order found, and records each in `stats` |
| Grind.RecordHas | lib/grind.js:581-589 | every kept file is recorded, owned by the scanning package; nothing else is added |
| Grind.ScanParts | lib/grind.js:536-606 | a scan lists its sources in `js` and its assets in `other`, in the order found, each recorded in `stats` |
| Grind.Scan.constructor | lib/grind.js:538-546 | the lists start empty |
| Grind.Scan.FindPackageFiles | lib/grind.js:536-606 | the scan state becomes `Keep` of what the listing finds; the callback comes as `OutcomeListing` says (an unreadable folder or an unstatable entry is an error) |
| Grind.Scan.ProcessEntries | lib/grind.js:570-600 | the entries are kept in listing order; the outcome combines theirs |
| Grind.Scan.ProcessEntry | lib/grind.js:574-597 | a file is kept by its kind; a folder is walked into; another entry never calls back; an unstatable one fails |
| Grind.Dirname | lib/grind.js:618 | `path.dirname` is never empty, is '.' for a path without '/', and otherwise, unless it is '/', it gives back the path when followed by '/' and the last segment |
| Grind.LoadPackageDetails | lib/grind.js:614-632 | an unreadable manifest gives an error and no details; otherwise the name follows the name rule and the lists are those of the scan of the manifest's folder |
| Grind.FilterStats | lib/grind.js:207-215 | exactly the entries whose path matches, in key order, values unchanged |
| Grind.NewestUnique | lib/grind.js:221-232 | the newest date is unique |
| Grind.GetMostRecent | lib/grind.js:221-232 | the result is at least every matching mtime and at least 0, and is 0 or one of them |
| Grind.GetFileMap | lib/grind.js:263-270 | the result is the stats of each package of the closure merged in closure order |
| Grind.FileMapWellFormed | lib/grind.js:263-270 | the merged map is well formed |
| Grind.FileMapMembers | lib/grind.js:263-270 | a path is in the merged map exactly when some package records it, and the last package recording it wins |
| Grind.GuessIsShortest | lib/grind.js:342-353 | no guess exactly when no source ends in `<name>.js`; otherwise the guess is one candidate's module path, and for a non-empty package name it is the shortest, the first of the shortest in list order |
| Grind.GetMainModulePath | lib/grind.js:338-354 | `json.main` when set, otherwise the guess |
| Grind.CandidateUnderFolder | lib/grind.js:342-347 | `<dir><rest><name>.js` is a candidate with module path `<name><rest><name>` |
| Grind.MeatPathOf | lib/grind.js:304 | a file `<root><rest>.js` is registered as `<name><rest>` |
| Grind.OthersMembers | lib/grind.js:370-377 | the bundle's dependency list leaves the package out and keeps every other package of the closure |
| Grind.BundleDependencies | lib/grind.js:370-377 | the loop builds the closure's keys without the package, in order |
| Grind.PublishJSFiles | lib/grind.js:360-404 | one wrapped module per source in `details.js` order, then the trailer with the dependency list and main module path |
| Grind.BundleModules | lib/grind.js:294-328 | each source is wrapped under its own module path, with its lines indented, listing every other package of the closure |
| Grind.BundleOfName | lib/grind.js:423 | the bundle entry of a plain package name is `<d>/<d>.js` |
| Grind.HtmlDependencies | lib/grind.js:421-424 | one bundle entry per package of the closure, in closure order, the package itself included |
| Grind.EntryNamesPackage | lib/grind.js:421-424 | different packages have different `<d>/<d>.js` entries |
| Grind.CssLinkOf | lib/grind.js:425-428 | a stylesheet under its owner's folder is linked under the owner's name |
| Grind.CssFiles | lib/grind.js:425-428 | one link per css file, in key order |
| Grind.CssKeys | lib/grind.js:419 | the css files are the merged map's keys ending in `.css` |
| Grind.PublishHtml | lib/grind.js:410-445 | the HTML context: closure bundles, css links when `-css`, the main package, the jQuery base name |
| Grind.HtmlLists | lib/grind.js:417-424 | a package's bundle is listed exactly when the package is in the closure, so transitive dependencies are loaded too |
| Grind.ClosureCssLinks | lib/grind.js:419-428 | with `-css`: one link per css file of the closure, in file map order, each the owner's name followed by the file's path below the owner's folder |
| Grind.ManifestNotMatched | lib/grind.js:466 | the date pattern as written (`JsDateFilesAsWritten`): `p\.json` does not match `/p/package.json` |
| Grind.ManifestDateAsWritten | lib/grind.js:466 | with the date taken as written (`JsDateFilesAsWritten`), a manifest newer than the bundle does not make it stale; with the manifest counted, it does |
| Grind.MakePublishedPackage | lib/grind.js:460-525 | a closure error ends it with that error; otherwise the bundle date is the newest of the files the date pattern matches as written (sources and `<name>.json`) and the manifest, the HTML date the later of that and (with `-css`) the newest css of the closure, and each output is rebuilt exactly when stale against its date |
| Grind.SourceChangeRebuildsBundle | lib/grind.js:466-483 | a source or manifest newer than the bundle, or a missing bundle, rebuilds it |
| Grind.CurrentBundleKept | lib/grind.js:466-483 | a bundle no older than every source and the manifest is left alone |
| Grind.HtmlFollowsItsDates | lib/grind.js:496-511 | the HTML is rebuilt whenever the bundle date makes it stale, and with `-css` whenever a css file of the closure is newer |
| Grind.MakeFile | lib/grind.js:802-825 | a routed path rebuilds the closure of its package, in closure order, or fails with the closure's error; other paths republish only the runtime (the same code is at `grinder/grind.js:607-630`) |
| Grind.MakeFileRebuildsClosure | lib/grind.js:782-795 | the routed package heads the list and is rebuilt with its closure, every package it depends on |
| Grind.FirstLine | lib/grind.js:69 | `.*` matches the longest prefix without a line terminator |
| Grind.ClassifyArg | lib/grind.js:17-77 | `--help` and `-css` are recognised exactly as written; `-jquery=`, `-only=` and `-cache=` capture the rest of a one-line argument; any other argument is a folder named by its first line |
| Grind.ProcessArgs | lib/grind.js:848-890 | the loop over arguments gives `Finish(ReadArgs(args))` |
| Grind.ReadArgsFacts | lib/grind.js:871-881 | the folders are the catch-all arguments in order, and css is on exactly when some argument is `-css` |
| Grind.CssArg | lib/grind.js:59 | an argument is the css flag exactly when it is `-css` |
| Grind.ProcessArgsFolders | lib/grind.js:882-889 | parsing succeeds exactly when at least two folders are named; the last is the destination and the others the sources in order |
| Grind.PlainFolder | lib/grind.js:68-76 | a one-line argument not starting with '-' names a folder as given |
| OldGrind.OldKeepDate | grinder/grind.js:362-364 | the running date ends as the newest of its start and every source kept |
| OldGrind.OldKeepLists | grinder/grind.js:359-371 | sources are appended to `js` and assets to `other` in the order found, and exactly those files are recorded in `stats` |
| OldGrind.OldScan.constructor | grinder/grind.js:395-402 | empty lists, and the date is the manifest's mtime |
| OldGrind.OldScan.FindPackageFiles | grinder/grind.js:314-387 | the scan state, including the running date, becomes `OldKeep` of what the listing finds; the callback comes as `OutcomeListing` says |
| OldGrind.OldScan.ProcessEntries | grinder/grind.js:348-380 | the entries are kept in listing order; the outcome combines theirs |
| OldGrind.OldScan.ProcessEntry | grinder/grind.js:352-377 | a source raises the date when strictly newer and is listed; an asset is listed; a folder is walked into |
| OldGrind.OldLoadPackageDetails | grinder/grind.js:394-413 | an unreadable manifest gives an error; otherwise the date is the newest of the manifest's mtime and every source found, and the lists are the scan's |
| OldGrind.OldMeatPathOf | grinder/grind.js:157 | a file `<root>/<rest>.js` is registered as `<rest>`, with no package name in front |
| OldGrind.MainFileLineIsOneLine | grinder/grind.js:195 | the header is exactly one line |
| OldGrind.OldPublishJSFiles | grinder/grind.js:186-205 | the stream is the header line, then one wrapped module per source |
| OldGrind.OldStreamShape | grinder/grind.js:186-205 | exactly one header line, written before any module, then exactly one module per source |
| OldGrind.OldStreamModule | grinder/grind.js:148-180 | the module of the i-th source is wrapped under the package's name and the source's path below the package folder, without its `.js`, and holds each of the file's lines indented, in order |
| OldGrind.OldPublishHtml | grinder/grind.js:217-225 | the list is the package's own bundle, then one per declared dependency in order |
| OldGrind.OldHtmlShape | grinder/grind.js:217-219 | one entry more than the declared dependencies, the first being the package's own bundle `<name>/<name>.js` |
| OldGrind.OldHtmlLists | grinder/grind.js:217-225 | a package's bundle is listed exactly when it is the package itself or a declared dependency, so transitive dependencies are left out |
| OldGrind.OldMakePublishedPackage | grinder/grind.js:254-303 | the bundle and the HTML are each rebuilt exactly when missing or older than `mostRecentJSDate` |
| OldGrind.OldRebuiltWhenStale | grinder/grind.js:259-297 | for a loaded package, an output is rebuilt exactly when it is missing or older than the manifest or some source |

## Left out

- I/O is left out: reading files, writing outputs, creating folders, and the dust templates. What a template renders is represented by the context it is given.
- A source file's text comes from a `read` parameter. Read failures, and the failure of `JSON.parse` on a malformed manifest, are left out (the manifest is given as `Option<Manifest>`, with `None` for an unreadable file).
- Concurrency is left out. The bundle's module writes are taken one at a time in `details.js` order; in the code `async.forEach` starts them in parallel.
- `findPackagesFromSingleFolder`, `findPackages`, `makeAll`, `processPackageDetails` and `processMultiplePackageDetails` are left out. They are folder walking and dispatch around the modelled operations; the registry is given as a map.
- `publishAsset`'s destination path, `publishMeat` and the jQuery copy are left out. Only the copy-if-outdated decision is modelled.
- `createFolder` and `copyFile` are left out as file-system plumbing.
- `supportJQuery` is left out in both loaders: it touches a global jQuery object.
- The custom `filters` parameter of `processArgs` is left out, and so is the help printing of `--help`. `--help` changes no option.
- `options.cache` absent is modelled as an empty list.
- Registry and runtime lookups do not model names that `Object.prototype` carries (such as `constructor`) being found in an empty object. Only the asset-extension lookup, where it changes the outcome, is modelled (see Findings).
- JavaScript lists integer-like object keys first, in numeric order. That key order is not modelled.
- Package names are used in regular expressions without escaping. Metacharacters in names are not modelled.
- A non-string `json.name` is not modelled; the name is an optional string.
- Scanning.Child: scanned paths are `folder + "/" + name`, not normalised by `path.join`. The two agree for a folder that is already in normal form and not `.`. For the folder `.` (as in `grind . out`) `path.join(".", "lib")` is `lib` where the model has `./lib`, and the module path sliced at `lib/grind.js:304` differs accordingly.
- Scan order: the model lists a folder's entries depth first, a subfolder's files in place of the subfolder. In the code a folder's `js.push`/`other.push` calls run synchronously in listing order, and a subfolder's files always come after the files of the folder that holds it (`lib/grind.js:574-597`). The model's order is not one the code produces when a subfolder is listed before a file. This can change the tie-break of `Grind.GuessIsShortest` between candidates of equal length.
- In `grinder/grind.js`, the bundle header calls `meat.setPackageMainFile`, which `grinder/meat.js` does not define. The runtime side of that call is not modelled.
- Meat.Meat.Complete: completing a package whose record has no `loading` list makes no change. JavaScript would throw a TypeError there.
- Grind.MakePublishedPackage: its bundle date counts the manifest itself in addition to what the pattern matches as written (sources and `<name>.json`), as the corrected behaviour (see Findings); the lookup as written is kept in `Grind.JsDateFilesAsWritten`.
- Grind.MakeFile: routes on the normalised path, as the corrected behaviour (see Findings); the routing as written is `Publish.RouteAsWritten`.
- Scanning.FindsOf: sorts files with the corrected extension test; the test as written is `Publish.KindAsWritten`.

## Findings

| source | as written | input that shows it | evidently intended | confidence | as-written member | corrected member |
|---|---|---|---|---|---|---|
| lib/grind.js:588 | `assetExt[matches[1]] !== undefined` is also true for names every object inherits | a file `x.constructor` is published as an asset | only the listed extensions are assets | high; not executed | Publish.InheritedExtensionIsAsset | Publish.Kind |
| grinder/grind.js:368 | the same inherited-name lookup on `{jpg, png, gif}` | a file `x.constructor` | only jpg, png and gif are assets | high; not executed | Publish.InheritedExtensionIsAsset | Publish.Kind |
| lib/grind.js:466 | the bundle date is taken over `(\.js$\|<name>\.json)`, and the manifest is `package.json` | package `p` with `/p/package.json` at mtime 5, `/p/a.js` at 1, bundle at 3: the bundle is kept | the manifest's own date counts, as the older version's `mostRecentJSDate` does | medium; not executed | Grind.ManifestDateAsWritten | Grind.MakePublishedPackage |
| lib/grind.js:810-811 | the `.html` test and slice work on the path as given, not the normalised one | `./X.html` rebuilds a package named `./X` | `./X.html` rebuilds package `X` | medium; not executed | Publish.DotSlashHtmlAsWritten | Publish.DotSlashHtml |
