# hapi-direct: convention-based dispatch, modelled in Dafny

hapi-direct is a hapi plugin with two server methods.

- `assignHandlers(basePath)` walks a directory tree once. It skips every entry whose name contains `.` or `_`. It records each loadable module (a *leaf*) in one dictionary, keyed by the leaf's path relative to `basePath`. It walks every entry the module loader cannot resolve (a *branch*).
- `directRoute(request, reply)` builds a lookup path from the request's path segments. It tries two strategies in order: the path joined with the route's version, then the plain normalised path. The first lookup that yields a usable export is invoked. If neither does, the reply is a 404.

The model has five modules over a shared `Wrappers` module (`wrappers.dfy`, the `Option` and `Result` types).

- `NodePath` (`path.dfy`) models the part of Node's posix `path.join` and `path.normalize` that the plugin uses, on strings. It splits on `/`, drops empty and `.` segments, and keeps the rooted and trailing-slash shape. It proves `split`/`join` round trips, that plain paths are already normal, and that normalisation is idempotent.
- `Registry` (`registry.dfy`) models the input tree and the builder. A directory listing is `Entries(children)`, or `Unreadable` where `readdirSync` throws. Each child is a `Module(exported)` (the loader resolves it) or a `Folder(listing)`. `LeafList` is the specification of the walk: the registrations it makes, in order, or the error that stops it. `HandlerScan` is the object that owns the shared `handlers` dictionary. Its `GetHandlers` is the recursive, loop-based walk that updates the dictionary in place. `AssignHandlers` runs the walk once on a fresh dictionary.
- `RegistryFacts` (`registry_facts.dfy`) states what a built registry holds. The stored keys are exactly the filtered leaves. Each key is the leaf's path (a bare name at the top level, `/a/b/...` below it). No key contains `.` or `_`. When no directory lists a name twice, a branch's path is never a key. The build fails exactly when the walk reaches a directory it cannot list.
- `Dispatch` (`dispatch.dfy`) models the resolver. `DirectRoute` is the strategy loop with its early return. `Resolve`/`FirstHit` specify it. The lemmas cover strategy priority, the fallback, when the result is not-found, and end-to-end routing against a built registry.
- `Scenario` (`scenario.dfy`) is a directory tree for the plugin's test suite, with the outcome of each request the suite makes. The tree itself is not in the sources. It is reconstructed from the requests the tests make and the answers they expect (test/index.test.js:49, 105, 139, 173, 289).

## Behaviour worth knowing

- **One-segment requests without a version are never found.** A leaf directly under `basePath` is stored under its bare name, because `path.join('', file)` is `file` (index.js:55). A request `/name` looks up `/name` (index.js:10, 22). So `SingleSegmentNotFound` holds: every one-segment request without a version is not-found against any built registry. `RoutesToLeaf` therefore needs at least two segments.
- **Top-level leaves are still reachable.** An empty request with a version `v` resolves to the top-level leaf `v` (`RoutesToVersionedLeaf` with no segments).
- **Key collisions cannot happen on a real file system.** Two different paths of file names never produce the same key (`KeyOfInjective`). So with unique names per directory, last-write-wins never comes into play between different leaves (`BuildExact`). A collision needs the same name listed twice in one listing, which only the abstract input allows.

## Model

| member | source | states |
|---|---|---|
| `Dispatch.UriParams` | index.js:10 | the lookup path is empty exactly for an empty segment list; for plain segments, `path.normalize` leaves it unchanged and splitting it on `/` reads the segments back; it is by definition the relative path `RegistryFacts.RelOf` the walk gives the directory those segments name |
| `Dispatch.Lookup` | index.js:12-25 | a lookup throws (and the error is the strategy's value) exactly when no handlers object is exposed or the key could not be computed; otherwise a stored key is found, with the value stored under it, and a key that is not stored gives `undefined` |
| `Dispatch.Misses` | index.js:31 | the test `handler instanceof Error` or `handler == null`; its effect on the outcome is stated by `Dispatch.NotFoundIff` and `Dispatch.FirstHit` |
| `Dispatch.VersionedKey` | index.js:14 | strategy 1's key exists exactly when a version is set (`path.join` throws on `undefined`); an empty version gives strategy 2's key; for plain segments and a plain version it is the registry key of the leaf at the segments extended by the version |
| `Dispatch.PlainKey` | index.js:22 | strategy 2's key is `.` for the root request and the lookup path itself for plain segments |
| `Dispatch.Strategies` | index.js:11-27 | the two strategies in priority order; their order is stated by `Dispatch.VersionedFirst` and `Dispatch.PlainFallback` |
| `Dispatch.Resolve` | index.js:29-37 | the resolver's outcome; characterised by `Dispatch.NotFoundIff`, `Dispatch.VersionedFirst` and `Dispatch.PlainFallback` |
| `NodePath.Normalize` | index.js:22 | `path.normalize` never returns the empty string, gives `.` for the empty string and keeps a leading `/` |
| `NodePath.PathJoin` | index.js:14 | `path.join` of two strings never returns the empty string |
| `NodePath.Join` | index.js:10 | `Array.prototype.join('/')`; inverted by `NodePath.SplitJoin` and `NodePath.JoinSplit` |
| `NodePath.Split` | index.js:22 | splitting on `/` gives at least one piece and no piece holds a separator |
| `NodePath.Clean` | index.js:22 | normalisation keeps only pieces of its input that are neither empty nor `.`, and keeps a list of such pieces whole |
| `NodePath.NormalizeSegments` | index.js:55 | a relative or rooted path of plain segments (no empty, `.` or `..` segment) normalises to itself |
| `NodePath.NormalizeIdempotent` | index.js:22 | normalising an already normalised path changes nothing |
| `NodePath.SplitJoin` | index.js:10 | splitting a `/`-joined list of separator-free segments gives the segments back |
| `NodePath.JoinSplit` | index.js:10 | joining the pieces of a split with `/` gives the original string back |
| `Registry.Visible` | index.js:45-47 | the name filter; `RegistryFacts.BuildKeysFiltered` states its effect on the registry |
| `Registry.ChildRel` | index.js:49 | a sub-directory's relative path; `RegistryFacts.RelOfChild` gives it in closed form |
| `Registry.LeafKey` | index.js:55 | the key a leaf is stored under; `RegistryFacts.LeafKeyIsKeyOf` gives it in closed form |
| `Registry.LeafList` | index.js:43-58 | the registrations of a walk, in order, or its error; characterised by `RegistryFacts.LeafListSound`, `RegistryFacts.LeafListComplete` and `RegistryFacts.LeafListFails` |
| `Registry.Build` | index.js:40-60 | the registry of a tree, or its error; characterised by `RegistryFacts.BuildSound`, `RegistryFacts.BuildComplete`, `RegistryFacts.BuildExact` and `RegistryFacts.BuildFails` |
| `Registry.InsertAll` | index.js:55 | after a sequence of dictionary writes the key set is the old keys plus every written key |
| `Registry.InsertAllLastWins` | index.js:55 | the value under a key is the one from the last write to that key |
| `Registry.InsertAllUntouched` | index.js:55 | a key that no write names keeps its earlier value |
| `Registry.InsertAllConcat` | index.js:41-57 | writing two batches in turn is the same as writing their concatenation (the nested walk extends the shared dictionary) |
| `Registry.HandlerScan.constructor` | index.js:41 | the scan starts from an empty dictionary |
| `Registry.HandlerScan.GetHandlers` | index.js:43-58 | the walk succeeds exactly when its specification does; it then leaves the dictionary equal to the old one with every registration of the walk written in order, and on failure it reports the same unreadable directory |
| `Registry.LeafListFailureSticks` | index.js:53 | an error from a nested walk aborts the whole listing with that same error |
| `Registry.AssignHandlers` | index.js:40-60 | the method returns exactly the registry, or the error, that the build specification gives for the tree |
| `RegistryFacts.RelOf` | index.js:49-55 | `dir.replace(basePath, '')` for the directory at a path: `""` for the root, `/a/b` below it |
| `RegistryFacts.KeyOf` | index.js:55 | the key of the leaf at a path: the bare name at the top level, the rooted path below it |
| `RegistryFacts.RelOfChild` | index.js:49 | the relative path of a sub-directory is its parent's relative path, `/`, then its name |
| `RegistryFacts.LeafKeyIsKeyOf` | index.js:55 | the key the walk computes for a leaf is the bare name at the top level and the rooted `/a/.../name` path below it |
| `RegistryFacts.KeyOfInjective` | index.js:55 | different paths of file names never share a key |
| `RegistryFacts.LeafListSound` | index.js:44-56 | every registration the walk makes is for a leaf reached only through filtered names, keyed by that leaf's path |
| `RegistryFacts.LeafListComplete` | index.js:44-56 | every leaf reached through filtered names is registered with its own key and export |
| `RegistryFacts.LeafListFails` | index.js:44-53 | the walk fails exactly when it reaches, through filtered names, a directory it cannot list |
| `RegistryFacts.BuildSound` | index.js:40-60 | every key in the registry holds the export of a filtered leaf whose path gives that key |
| `RegistryFacts.BuildKeysFiltered` | index.js:45-47 | no key contains `.` or `_`: filtered entries and everything below them are left out |
| `RegistryFacts.BuildComplete` | index.js:48-55 | every filtered leaf has a key in the registry |
| `RegistryFacts.BuildExact` | index.js:48-55 | with unique names per directory, a leaf's key holds exactly that leaf's export |
| `RegistryFacts.BranchNeverKey` | index.js:50-55 | with unique names per directory, the path of a branch is never a key |
| `RegistryFacts.NodeUnique` | index.js:44 | with unique names per directory, a path leads to at most one entry |
| `RegistryFacts.BuildFails` | index.js:44 | the build aborts exactly when some directory it must list cannot be listed |
| `Dispatch.FirstHit` | index.js:30-37 | the outcome is not-found exactly when every strategy misses; otherwise it is the handler of a matching strategy before which all strategies missed |
| `Dispatch.DirectRoute` | index.js:9-38 | the strategy loop with early return produces exactly the specified outcome |
| `Dispatch.VersionedFirst` | index.js:11-35 | when the versioned key holds an invocable export, that handler is used whatever the plain key holds |
| `Dispatch.PlainFallback` | index.js:20-35 | when the versioned strategy misses, the outcome is the plain key's handler if it has one, and not-found otherwise |
| `Dispatch.NotFoundIff` | index.js:30-37 | not-found is returned exactly when neither the versioned nor the plain key holds an invocable export |
| `Dispatch.NeverBuilt` | index.js:13-25 | without an exposed handlers object every request is not-found, never an error |
| `Dispatch.EmptyVersionIsNoVersion` | index.js:14-22 | an empty version token gives the same key as the plain strategy and the same outcome as no version |
| `Dispatch.RootNotFound` | index.js:10-22 | the root request without a version is not-found against every built registry (its key `.` is never stored) |
| `Dispatch.BuiltKeyShape` | index.js:55 | a stored key is a bare name without `/`, or a rooted path with a further `/` |
| `Dispatch.SingleSegmentNotFound` | index.js:10-22 | a one-segment request without a version is not-found against every built registry |
| `Dispatch.RoutesToLeaf` | index.js:20-35 | a request of two or more names without a version reaches the leaf at that path |
| `Dispatch.RoutesToVersionedLeaf` | index.js:12-18 | a request with version `v` reaches the leaf at its path extended by `v`, whatever the plain key holds |
| `Dispatch.UnknownVersionNotFound` | index.js:11-37 | a one-segment request whose version names no leaf below it is not-found |
| `Scenario.TestTreeBuilds` | test/index.test.js:33-53 | the test directory builds into exactly the registry `/testDir/v0`, `/testDir/v1`, `/testDir/test1/v0` with their handlers (so it has the key `path.normalize('/testDir/v0')` the test checks), and lists no name twice |
| `Scenario.TestLeaves` | test/index.test.js:33-53 | the only leaves that pass the filter are `testDir/v0`, `testDir/v1` and `testDir/test1/v0`, with their handlers |
| `Scenario.RequestTestDirV0` | test/index.test.js:84-112 | `/testDir/v0` is served by `testDir/v0` |
| `Scenario.RequestNested` | test/index.test.js:268-295 | `/testDir/test1/v0` is served by the nested leaf |
| `Scenario.RequestVersioned` | test/index.test.js:114-146 | `/testDir` with version `v1` is served by `testDir/v1` |
| `Scenario.RequestUnknownVersion` | test/index.test.js:148-179 | `/testDir` with version `v2` is not found |
| `Scenario.RequestTestDir2NotFound` | test/index.test.js:55-82 | `/testDir2` is not found |
| `Scenario.RequestFooNotFound` | test/index.test.js:181-208 | `/foo` is not found |
| `Scenario.RequestRootNotFound` | test/index.test.js:210-237 | `/` is not found |
| `Scenario.RequestWithoutHandlers` | test/index.test.js:239-266 | `/testDir/v0` is not found when no handlers object was exposed |

## Left out

- File system and module loader: `fs.readdirSync`, `require.resolve` and `require` (index.js:44, 51, 55) are replaced by an input tree whose entries are already classified as leaf or branch. The tree also records which directories cannot be listed. Listing order is an input, so last-write-wins holds only relative to that order.
- Errors from loading a module: a module that throws while `require` runs it is not modelled.
- `basePath` itself: the model takes the relative path of the root to be `""`, and of a sub-directory `name` to be the parent's relative path plus `/name`. That is what `dir.replace(basePath, '')` gives when `basePath` is already normalised, has no trailing `/`, and is neither `/` nor `.`. Other spellings of `basePath` are not modelled.
- `NodePath.Normalize`: `..` segments are kept as ordinary segments rather than resolved. Windows separators and the rest of Node's `path` module are not modelled.
- `Registry.Export`: a module's export is either null/undefined, an Error object, or something the resolver invokes. Calling that handler with `request` and `reply` (index.js:33) is left to the host. So is the failure when the export is not a function. The resolver returns the handler's identity instead.
- Inherited properties of the plain object `handlers`: a lookup of a name such as `constructor` returns a value from `Object.prototype`. That can only happen for an empty request whose version is such a name. It is not modelled.
- hapi plumbing is not modelled: `server.method`, `request.server.plugins[...]`, `request.route.realm.plugin`, `reply`, `next` and `boom.notFound` (index.js:7-9, 22, 37, 62). The handlers namespace is an explicit `Option` parameter: `None` when no handlers object was exposed. Not-found is the `NotFound` outcome.
- Plugin metadata (`exports.register.attributes`, index.js:65-67) is not modelled.
- Build idempotence needs no lemma: the build is a function of the tree, so two builds of an unchanged tree are equal.
