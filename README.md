# Build-script model: `scripts/roll.js`

This project models the build script of a small reactivity and custom-element
framework organised as a monorepo. The script finds the packages of the
repository and orders them so that dependencies are built first. It can narrow
that order to a few targeted packages and what they depend on. For each package
it lists one rollup configuration per output format.

The model covers three parts of the script:

- `createConfig`: the options for one package in one format. These are the
  output file name (a scoped `@scope/name` drops its scope), the extension (prod
  builds insert a `prod` segment before the last dot-segment), the external
  modules, the globals (only bundled IIFE builds get them) and the
  `__DEV__` / `process.env.NODE_ENV` replace table.
- `rollPackage` up to the rollup calls: the format keys to build, `external`,
  the `globals` object derived from peer dependencies, and the expansion of each
  prod format into a dev build followed by the prod build.
- `resolvePackages`: the package list read from the root directory, the
  dependency edges, the order the topological sort gives them, narrowing with
  `hasDep` to the packages the targets reach, and the resulting `Map`.

Structure:

- The JavaScript values the script works with are modules of their own.
  - `Outcomes`: `undefined` and thrown errors, as `Option` and `Result`.
  - `JsArrays`: `indexOf`, `filter`, `map`, `[...new Set(s)]` and `reverse` on
    sequences.
  - `JsStrings`: one-character `split`, `join`, `lastIndexOf` and `includes`.
  - `JsObjects`: plain objects and `Map`s, as insertion-ordered entry lists.
  - `Manifest`: the records read from `package.json`, and the `CONFIGS` table.
- Loops in the source are imperative methods, each proved against a
  specification function. These are the `reduce` accumulators, the `splice`,
  the `push` calls and the `acc[name] =` and `acc.set` writes. The properties
  the script relies on are lemmas about those functions.
- The pure parts are functions: the edge construction, the
  `filter`/`reverse` of the sorted names, and the recursive `hasDep`.

## Model

| member | source | states |
|---|---|---|
| Manifest.ConfigNamed | scripts/roll.js:19-48 | `{ ...CONFIGS[key] }` gives the empty configuration exactly for a key other than cjs, esm, global and module. Every registered prod format has an `extname`. |
| Config.CreateConfig | scripts/roll.js:50-129 | The method's result is `ConfigSpec` of its options: the rollup input and output options built from the file name, the extension, the externals, the globals and the replace table. |
| Config.ConfigSpecFacts | scripts/roll.js:59-87 | Externals start with the builtins. Globals are passed exactly for a bundled IIFE build, which then appends the globals' keys. A bundled non-IIFE build appends nothing; a non-bundled one appends `external`. `__DEV__` is always in the replace table: the JSON of `prod` when bundled, the runtime `NODE_ENV` test otherwise. `process.env.NODE_ENV` is there exactly for bundled builds. |
| Config.FileName | scripts/roll.js:58 | The method computes `OutputFileName`: the second `/`-piece of a name containing `@`, the whole name otherwise. |
| Config.ProdExtensionName | scripts/roll.js:63-68 | The split, splice and join compute `InsertProd(extname)`. |
| Config.SecondPiece | scripts/roll.js:58 | `pkgName.split('/', 2)[1]` exists exactly when the name contains `/`. It is then the text between the first `/` and the next one, which is how `OutputFileName` states the file name. |
| Config.ScopedFileName | scripts/roll.js:58 | A scoped name `@scope/base` (no further `/`) gives the file name `base`. |
| Config.SpliceProd | scripts/roll.js:63-68 | Splitting `extname` on `.`, splicing `prod` in before the last piece and joining with `.` gives `InsertProd(extname)`: `prod` as a new segment before the last one. |
| Config.InsertProdSegments | scripts/roll.js:63-68 | The dot-segments of a prod extension are those of `extname` with `prod` inserted before the last one. |
| Config.RemoveProdSegment | scripts/roll.js:63-68 | Removing that `prod` segment again gives back `extname`, so the insertion loses nothing. |
| Config.ConfigExtensions | scripts/roll.js:19-68 | The four formats get `.prod.cjs`, `.mjs`, `.global.prod.js` and `.module.prod.js`. |
| JsStrings.JoinSplit | scripts/roll.js:65-67 | Joining the pieces of a split with the separator gives back the string. |
| JsStrings.SplitJoin | scripts/roll.js:65-67 | Splitting a join of separator-free pieces gives back the pieces. |
| JsStrings.Includes | scripts/roll.js:227 | `s.includes(t)` holds exactly when `t` occurs in `s` at some position. |
| JsObjects.Put | scripts/roll.js:84 | Writing a key keeps the key order when the key exists, and appends the key otherwise. |
| JsObjects.PutGet | scripts/roll.js:84 | After `obj[k] = v` (and `map.set(k, v)`), reading `k` gives `v` and every other key keeps its value. |
| JsObjects.PutDedup | scripts/roll.js:155 | Writing keys one after another, each with its value, gives the table of the distinct keys in first-occurrence order. |
| JsObjects.TabulateGet | scripts/roll.js:149 | In such a table a key is present exactly when it was written, and then with its value. |
| Roll.KeptMembers | scripts/roll.js:136-138 | With `formats` given, a key is built exactly when it is in `configs` and in `formats`. |
| Roll.KeptPrefix | scripts/roll.js:136-138 | The filter keeps the keys' relative order: the kept keys of a prefix come first. |
| Roll.ResolveGlobals | scripts/roll.js:148-160 | The reduction throws on the first peer that is a known package without `build`. Otherwise it produces `Globals`. |
| Roll.GlobalsLookup | scripts/roll.js:148-160 | A name is a key of `globals` exactly when it is a peer dependency and a known package with a truthy `build.name`. Its value is that name, and no key repeats. |
| Roll.ExpandConfigs | scripts/roll.js:163-175 | One `createConfig` result per entry of `Expanded(keys)`, in order. Each result is `ConfigSpec` of the shared options with that entry's configuration. |
| Roll.KeyBuilds | scripts/roll.js:165-173 | One key of the reduction pushes `createConfig` of the dev copy and then of the configuration for a prod format, and only the latter otherwise: `ConfigSpec` of each entry of `Expansion(key)`, in order. |
| Roll.ExpandedLength | scripts/roll.js:163-175 | The number of builds is the number of keys plus the number of prod keys. |
| Roll.ExpandedAppend | scripts/roll.js:163-175 | The expansion of a concatenation is the concatenation of the expansions, so each key's builds stay in the key's place. |
| Roll.RollPackage | scripts/roll.js:131-175 | Throws in the source's order: missing `build`; missing `configs` when `formats` filters them; a broken peer; missing `configs` at the reduction. Otherwise one build per entry of `Expanded(Kept(configs, formats))`, with `external` = dependencies then peer dependencies and `globals` = `Globals`. |
| Resolve.CollectPackages | scripts/roll.js:184-198 | Throws for the first directory whose `package.json` cannot be read. Otherwise produces `Listed`. |
| Resolve.ListedMembers | scripts/roll.js:184-198 | A package is listed exactly when its entry is a directory whose package is public or private packages are asked for. It is then listed with that record and the resolved directory. |
| Resolve.FindPackage | scripts/roll.js:208 | `find` gives the first package with the name, and nothing exactly when no package has it. |
| Resolve.Edges | scripts/roll.js:201-214 | There is one edge per package, in package order, and each starts with its package's name. |
| Resolve.DepNamesOrder | scripts/roll.js:202-210 | The local dependency names come table by table: `dependencies`, `devDependencies`, `peerDependencies`. |
| Resolve.EdgeShape | scripts/roll.js:201-214 | Each edge starts with its package's name. Then come, each once, exactly the names in its dependency tables that are packages of the directory. |
| JsArrays.DedupFirstOccurrenceOrder | scripts/roll.js:213 | `[...new Set(deps)]` lists the names in the order of their first occurrences. |
| Resolve.Named | scripts/roll.js:219 | A name survives `filter(name => !!name)` exactly when the sort gives it defined and non-empty. |
| JsArrays.Reverse | scripts/roll.js:220 | `reverse` puts position `i` at position `n - 1 - i` and keeps the elements. |
| Graph.FindEdge | scripts/roll.js:235 | `find` gives the first edge whose head is the name, and nothing exactly when no edge starts with it. |
| Graph.HasDep | scripts/roll.js:230-241 | A name has itself as a dependency. Otherwise a true answer needs the name to be unvisited and to have an edge. `HasDepIffReachable` states the whole answer. |
| Graph.HasDepSound | scripts/roll.js:230-241 | Whatever `hasDep` finds is reachable along the edges. |
| Graph.HasDepComplete | scripts/roll.js:230-241 | `hasDep` finds the end of every walk without repeated names that avoids the visited names. |
| Graph.HasDepIffReachable | scripts/roll.js:230-241 | `hasDep(name, target)` holds exactly when `target` is `name` or a transitive dependency of it. |
| Resolve.TargetedMembers | scripts/roll.js:225-227 | A package is targeted exactly when it is a package of the directory whose name contains some target string. |
| Resolve.SelectedMembers | scripts/roll.js:217-246 | A name is kept exactly when the sort gives it defined and non-empty. With non-empty targets, some targeted package must also reach it. |
| Resolve.SelectedUntargeted | scripts/roll.js:224 | Without targets, or with an empty list, the order is the reversed sorted names. |
| Resolve.SelectedDistinct | scripts/roll.js:217-246 | When the sort names each package at most once, the kept names have no repeats, so by `PackageMapLookup` the map's keys are exactly the kept names in order. |
| Resolve.ToPackageMap | scripts/roll.js:249-251 | The map is the table of the distinct names in first-occurrence order, each with the package of that name. |
| Resolve.PackageMapLookup | scripts/roll.js:249-251 | The map's keys are the distinct names, exactly the order when it has no repeats. Each key maps to the package `find` gives for it. |
| Resolve.ResolvePackages | scripts/roll.js:183-252 | Throws for an unreadable package directory, or when the sort rejects the edges. Otherwise it produces the map of `Selected(Edges(Listed), sorted, targets)`. |

## Left out

- Parsed `package.json` records are assumed to have the types the script expects: a string `name`, `configs` as an array of strings, and the dependency tables as objects. A `package.json` without a string `name` would make `includes('@')` throw at line 58, and an undefined edge head would make the targeting `includes` throw at line 227. The model does not capture either.
- `statSync` is assumed not to throw; only `readPackage` failing is modelled (as `None`).
- `version` is assumed to be a string. `JSON.stringify(undefined)` is not a string, and the model does not capture that case.
- I/O is not modelled, only its results.
  - `readdirSync` and `statSync` become a list of `DirEntry` values.
  - `readPackage` (`readFileSync` and `JSON.parse`) becomes an optional parsed record; `None` means it throws.
  - `writePackage` is not modelled.
- `rollup`, `bundle.write`, `Promise.all` and the plugin constructors (`nodeResolve`, `commonjs`, `esbuild`, `replace`) are foreign and asynchronous. Only the option values passed to them are modelled (`external`, `input`, `minify`, `define`, the replace table, `name`, `format`, `globals`, `file`). The constant fields are omitted: `tsconfig`, `sourceMap`, `loaders`, `onwarn`, `exports`, `sourcemap` and `externalLiveBindings`.
- `BUILTIN_MODULES`, Node's list of builtin modules, is a parameter (`builtins`).
- The `toposort` library is a function parameter (`Toposort`). It returns the sorted names, which may include `undefined`, or `None` where it throws. Its internals and its promise to reject cycles are not modelled.
- `path.resolve` is plain joining with `/`; normalisation, `..` and absolute second arguments are not modelled.
- `JSON.stringify(version)` only adds quotes; escaping of special characters is not modelled.
- JavaScript objects list integer-like keys first. The model keeps plain insertion order for all keys (`JsObjects`), so a package or peer named like an integer would be ordered differently.
- `formats` is modelled as an array, so `includes` is membership. If a caller passed a string, the substring test would not be modelled.
- `private === true` is a boolean in `Package`. A non-boolean `private` value counts as not true, as in the source.
- Graph.HasDep: adds a set of visited names, so the recursion ends on cyclic edges. On cyclic edges the source's `hasDep` can recurse until the stack overflows. On edges without cycles both give the same answer, and `HasDepIffReachable` states the answer.
- Resolve.Head: reads `e[0]` of an edge. For an empty edge it gives the empty string where the source would read `undefined`. `EdgeShape` shows that edges built from packages are never empty.
- The sources of the reactivity engine are not part of this model, nor are `packages/element/src/api/portal.ts`, `packages/fx/src/watch.ts` and the Cypress test files. The engine covers proxies, effects, the `Fx` primitive and the identity cache.
