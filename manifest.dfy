/**
 * The records the build script reads: a package's `package.json` (the fields it looks at),
 * a located package, and the table of output formats (`CONFIGS`).
 */
module Manifest {
  import opened Outcomes

  /** The `build` section of a `package.json`: the global name and the formats to build. */
  datatype Build = Build(name: Option<string>, configs: Option<seq<string>>)

  /**
   * A parsed `package.json`. A dependency table is given by its keys, in order; `None`
   * is a missing table. `isPrivate` is `private === true`.
   */
  datatype Package = Package(
    name: string,
    isPrivate: bool,
    dependencies: Option<seq<string>>,
    devDependencies: Option<seq<string>>,
    peerDependencies: Option<seq<string>>,
    build: Option<Build>)

  /** A package together with its directory: `{ package, dir }`. */
  datatype Target = Target(package: Package, dir: string)

  /**
   * The `Map` from package name to located package that `resolvePackages` returns; a
   * value is `None` where the lookup behind it found nothing.
   */
  type PackageMap = seq<(string, Option<Target>)>

  /** The three dependency tables, in the order of `PACKAGE_DEP_KEYS`. */
  datatype DepKey = Dependencies | DevDependencies | PeerDependencies

  const PackageDepKeys: seq<DepKey> := [Dependencies, DevDependencies, PeerDependencies]

  /** `package[key]`. */
  function Table(p: Package, key: DepKey): Option<seq<string>> {
    match key
    case Dependencies => p.dependencies
    case DevDependencies => p.devDependencies
    case PeerDependencies => p.peerDependencies
  }

  /** `Object.keys(table || {})`: a missing table has no keys. */
  function KeysOf(table: Option<seq<string>>): seq<string> {
    match table
    case Some(ks) => ks
    case None => []
  }

  /** `path.resolve(base, rel)`, taken as plain joining with a separator. */
  function Resolve(base: string, rel: string): string {
    base + "/" + rel
  }

  /**
   * One output format. `prod` and `bundler` are the truthiness of the fields; `format`
   * and `extname` are `None` when the field is missing.
   */
  datatype FormatConfig = FormatConfig(
    prod: bool,
    bundler: bool,
    format: Option<string>,
    extname: Option<string>)

  /** `{}`: what spreading `CONFIGS[key]` gives for a key that is not a format. */
  const Blank := FormatConfig(false, false, None, None)

  /**
   * `{ ...CONFIGS[key] }`: one of the four registered formats, or the empty object for
   * any other key. Every registered format that is a prod build has an extension name.
   */
  function ConfigNamed(key: string): (c: FormatConfig)
    ensures c == Blank <==> key !in ["cjs", "esm", "global", "module"]
    ensures c.prod ==> c.extname.Some?
  {
    if key == "cjs" then FormatConfig(true, false, Some("cjs"), Some(".cjs"))
    else if key == "esm" then FormatConfig(false, false, Some("esm"), Some(".mjs"))
    else if key == "global" then FormatConfig(true, true, Some("iife"), Some(".global.js"))
    else if key == "module" then FormatConfig(true, true, Some("esm"), Some(".module.js"))
    else Blank
  }
}
