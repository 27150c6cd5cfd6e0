/**
 * `createConfig`: the rollup input and output options for one package in one output format.
 * The plugin objects are not modelled; their option values are.
 */
module Config {
  import opened Outcomes
  import opened JsArrays
  import opened JsStrings
  import opened JsObjects
  import opened Manifest

  const Entrypoint := "src/index.ts"

  /** The runtime test that stands for `__DEV__` in builds that are not bundled. */
  const NodeEnvCheck := "(process.env.NODE_ENV !== \"production\")"

  /** The options `createConfig` unpacks: `{ name, dir, package, config, globals, external, version }`. */
  datatype ConfigOptions = ConfigOptions(
    name: Option<string>,
    dir: string,
    package: Package,
    config: FormatConfig,
    external: seq<string>,
    globals: seq<(string, string)>,
    version: string)

  /**
   * The rollup input options: the modules left external, the entry file, and the option
   * values given to esbuild (`minify`, `define`) and to the replace plugin.
   */
  datatype InputOptions = InputOptions(
    external: seq<string>,
    input: string,
    minify: bool,
    define: seq<(string, string)>,
    replace: seq<(string, string)>)

  /** The rollup output options that depend on the inputs. */
  datatype OutputOptions = OutputOptions(
    name: Option<string>,
    format: Option<string>,
    globals: Option<seq<(string, string)>>,
    file: string)

  datatype RollupConfig = RollupConfig(input: InputOptions, output: OutputOptions)

  /** `JSON.stringify` of a boolean. */
  function JsonBool(b: bool): string {
    if b then "true" else "false"
  }

  /** `JSON.stringify` of a string without characters that need escaping. */
  function JsonString(s: string): string {
    "\"" + s + "\""
  }

  /**
   * The extension of a prod build, stated on characters: "prod" becomes a new dot-segment
   * just before the last one, so ".global.js" gives ".global.prod.js"; without any dot
   * the whole name is the last segment and "abc" gives "prod.abc".
   */
  function InsertProd(ext: string): string {
    var k := LastIndexOf(ext, '.');
    if k < 0 then "prod." + ext else ext[..k] + ".prod" + ext[k..]
  }

  /** The extension `createConfig` settles on: `extname`, with "prod" inserted for prod builds. */
  function Extension(c: FormatConfig): Option<string>
    requires c.prod ==> c.extname.Some?
  {
    if c.prod then Some(InsertProd(c.extname.value)) else c.extname
  }

  /**
   * The output file name, stated on characters: a name without "@" is used whole; for a
   * scoped name it is the text between the first "/" and the next "/" (or the end), and
   * `undefined` when there is no "/".
   */
  function OutputFileName(pkgName: string): Option<string> {
    if '@' !in pkgName then Some(pkgName)
    else
      var i := IndexOf(pkgName, '/');
      if i < 0 then None
      else
        var rest := pkgName[i + 1..];
        var j := IndexOf(rest, '/');
        Some(if j < 0 then rest else rest[..j])
  }

  /** A scoped name `@scope/base` gives the file name `base`. */
  lemma ScopedFileName(scope: string, base: string)
    requires '@' in scope && '/' !in scope && '/' !in base
    ensures OutputFileName(scope + "/" + base) == Some(base)
  {
    var s := scope + "/" + base;
    assert s == scope + ['/'] + base;
    IndexOfAfterFree(scope, '/', base);
    assert s[|scope| + 1..] == base;
    assert '@' in s by {
      var k :| 0 <= k < |scope| && scope[k] == '@';
      assert s[k] == '@';
    }
  }

  /** `replaceVariables`: `__DEV__` always, and `process.env.NODE_ENV` for bundled builds. */
  function ReplaceTable(c: FormatConfig): seq<(string, string)> {
    if c.bundler then [("__DEV__", JsonBool(c.prod)), ("process.env.NODE_ENV", JsonBool(c.prod))]
    else [("__DEV__", NodeEnvCheck)]
  }

  /** The modules left external: the builtins, then the globals' keys, nothing, or `external`. */
  function Externals(opts: ConfigOptions, builtins: seq<string>): seq<string> {
    var c := opts.config;
    builtins + (if !c.bundler then opts.external
                else if c.format == Some("iife") then Keys(opts.globals)
                else [])
  }

  /** The whole configuration `createConfig` returns, stated by the functions above. */
  function ConfigSpec(opts: ConfigOptions, builtins: seq<string>): RollupConfig
    requires opts.config.prod ==> opts.config.extname.Some?
  {
    var c := opts.config;
    var isNodeBuild := c.format == Some("cjs");
    RollupConfig(
      InputOptions(
        Externals(opts, builtins),
        Resolve(opts.dir, Entrypoint),
        c.prod,
        [("__BROWSER__", JsonBool(!isNodeBuild)),
         ("__NODE_JS__", JsonBool(isNodeBuild)),
         ("__VERSION__", JsonString(opts.version))],
        ReplaceTable(c)),
      OutputOptions(
        opts.name,
        c.format,
        if c.bundler && c.format == Some("iife") then Some(opts.globals) else None,
        Resolve(opts.dir, "dist/" + Text(OutputFileName(opts.package.name)) + Text(Extension(c)))))
  }

  /**
   * `createConfig(opts)`. A prod build needs an `extname` (the source calls
   * `extname.split`). The result is `ConfigSpec`; `ConfigSpecFacts` states what that
   * means for the externals, the globals and the replace table.
   */
  method CreateConfig(opts: ConfigOptions, builtins: seq<string>) returns (c: RollupConfig)
    requires opts.config.prod ==> opts.config.extname.Some?
    ensures c == ConfigSpec(opts, builtins)
  {
    var pkgName := opts.package.name;
    var config := opts.config;
    var isProdBuild := config.prod;
    var isNodeBuild := config.format == Some("cjs");

    var filename := FileName(pkgName);
    var resolvedExternal := builtins;

    var resolvedGlobals: Option<seq<(string, string)>> := None;
    var extension := config.extname;
    if isProdBuild {
      var prodExtension := ProdExtensionName(config.extname.value);
      extension := Some(prodExtension);
    }
    assert extension == Extension(config);

    var replaceVariables := [("__DEV__", if config.bundler then JsonBool(isProdBuild) else NodeEnvCheck)];

    if config.bundler {
      if config.format == Some("iife") {
        resolvedGlobals := Some(opts.globals);
        resolvedExternal := resolvedExternal + Keys(opts.globals);
      }
      assert Keys(replaceVariables) == ["__DEV__"];
      assert "__DEV__"[0] != "process.env.NODE_ENV"[0];
      PutNew(replaceVariables, "process.env.NODE_ENV", JsonBool(isProdBuild));
      replaceVariables := Put(replaceVariables, "process.env.NODE_ENV", JsonBool(isProdBuild));
    } else {
      resolvedExternal := resolvedExternal + opts.external;
    }
    assert resolvedExternal == Externals(opts, builtins);
    assert replaceVariables == ReplaceTable(config);

    c := RollupConfig(
      InputOptions(
        resolvedExternal,
        Resolve(opts.dir, Entrypoint),
        isProdBuild,
        [("__BROWSER__", JsonBool(!isNodeBuild)),
         ("__NODE_JS__", JsonBool(isNodeBuild)),
         ("__VERSION__", JsonString(opts.version))],
        replaceVariables),
      OutputOptions(
        opts.name,
        config.format,
        resolvedGlobals,
        Resolve(opts.dir, "dist/" + Text(filename) + Text(extension))));
  }

  /** The file name: for a name containing `@`, the second piece of a split on `/` limited to two pieces; otherwise the name itself. */
  method FileName(pkgName: string) returns (filename: Option<string>)
    ensures filename == OutputFileName(pkgName)
  {
    if '@' in pkgName {
      var parts := Split(pkgName, '/');
      parts := parts[..if |parts| < 2 then |parts| else 2];
      filename := if |parts| > 1 then Some(parts[1]) else None;
      SecondPiece(pkgName, '/');
    } else {
      filename := Some(pkgName);
    }
  }

  /** The extension of a prod build: split on ".", splice in "prod" before the last piece, join. */
  method ProdExtensionName(extname: string) returns (extension: string)
    ensures extension == InsertProd(extname)
  {
    var extensions := Split(extname, '.');
    // insert "prod" in front of the last piece
    extensions := extensions[..|extensions| - 1] + ["prod"] + extensions[|extensions| - 1..];
    extension := Join(extensions, ".");
    SpliceProd(extname);
  }

  /**
   * The configuration's externals start with the builtins. Globals are passed on exactly
   * for a bundled IIFE build, which appends the globals' keys; another bundled build
   * appends nothing, and a build that is not bundled appends `external`. The replace
   * table has `__DEV__` always (the JSON of `prod` when bundled, the runtime test
   * otherwise) and `process.env.NODE_ENV` exactly when bundled.
   */
  lemma ConfigSpecFacts(opts: ConfigOptions, builtins: seq<string>)
    requires opts.config.prod ==> opts.config.extname.Some?
    ensures var c := ConfigSpec(opts, builtins);
      && builtins <= c.input.external
      && (c.output.globals.Some? <==> opts.config.bundler && opts.config.format == Some("iife"))
      && (c.output.globals.Some? ==> c.input.external == builtins + Keys(opts.globals))
      && (opts.config.bundler && c.output.globals.None? ==> c.input.external == builtins)
      && (!opts.config.bundler ==> c.input.external == builtins + opts.external)
      && Get(c.input.replace, "__DEV__")
         == Some(if opts.config.bundler then JsonBool(opts.config.prod) else NodeEnvCheck)
      && Get(c.input.replace, "process.env.NODE_ENV")
         == if opts.config.bundler then Some(JsonBool(opts.config.prod)) else None
  {
    ExternalsCases(opts, builtins);
    ReplaceTableLookup(opts.config);
  }

  /**
   * The externals start with the builtins; a bundled IIFE build adds the globals' keys, a
   * bundled build of another format nothing, and a build that is not bundled `external`.
   */
  lemma ExternalsCases(opts: ConfigOptions, builtins: seq<string>)
    ensures builtins <= Externals(opts, builtins)
    ensures opts.config.bundler && opts.config.format == Some("iife") ==>
      Externals(opts, builtins) == builtins + Keys(opts.globals)
    ensures opts.config.bundler && opts.config.format != Some("iife") ==> Externals(opts, builtins) == builtins
    ensures !opts.config.bundler ==> Externals(opts, builtins) == builtins + opts.external
  {
    if opts.config.bundler && opts.config.format != Some("iife") {
      assert builtins + [] == builtins;
    }
  }

  /**
   * Reading the replace table: `__DEV__` is always there, `process.env.NODE_ENV` exactly
   * for bundled builds, both with the JSON of `prod` when bundled.
   */
  lemma ReplaceTableLookup(c: FormatConfig)
    ensures Get(ReplaceTable(c), "__DEV__") == Some(if c.bundler then JsonBool(c.prod) else NodeEnvCheck)
    ensures Get(ReplaceTable(c), "process.env.NODE_ENV") == if c.bundler then Some(JsonBool(c.prod)) else None
  {
    assert "__DEV__"[0] != "process.env.NODE_ENV"[0];
    if c.bundler {
      var t := ReplaceTable(c);
      assert t[1..][1..] == [];
    }
  }

  /** The second piece of `s.split(c)` is the text between the first and the second `c`. */
  lemma {:induction false} SecondPiece(s: string, c: char)
    ensures |Split(s, c)| > 1 <==> c in s
    ensures c in s ==>
      var rest := s[IndexOf(s, c) + 1..];
      var j := IndexOf(rest, c);
      Split(s, c)[1] == if j < 0 then rest else rest[..j]
  {
  }

  /**
   * Inserting "prod" before the last piece of `ext.split('.')` and joining with "." is
   * `InsertProd(ext)`.
   */
  lemma {:induction false} SpliceProd(ext: string)
    ensures var parts := Split(ext, '.');
            Join(parts[..|parts| - 1] + ["prod"] + parts[|parts| - 1..], ".") == InsertProd(ext)
  {
    var parts := Split(ext, '.');
    var n := |parts|;
    JoinSplit(ext, '.');
    LastPiece(parts);
    var init, last := parts[..n - 1], parts[n - 1];
    if n == 1 {
      assert Join(parts, ".") == last;
      SpliceProdWhole(last);
    } else {
      SpliceProdSegments(init, last);
    }
  }

  /** A non-empty sequence is its elements before the last one, then the last one. */
  lemma LastPiece<T>(s: seq<T>)
    requires |s| >= 1
    ensures s == s[..|s| - 1] + [s[|s| - 1]]
    ensures s[|s| - 1..] == [s[|s| - 1]]
  {
  }

  /** The case of `SpliceProd` where the extension has no dot: "prod" becomes the first segment. */
  lemma SpliceProdWhole(ext: string)
    requires '.' !in ext
    ensures Join([] + ["prod"] + [ext], ".") == InsertProd(ext)
  {
    JoinCons("prod", [ext], ".");
    assert [] + ["prod"] + [ext] == ["prod"] + [ext];
    assert "prod" + "." + ext == "prod." + ext;
  }

  /** The case of `SpliceProd` where the extension has at least one dot. */
  lemma {:induction false} SpliceProdSegments(init: seq<string>, last: string)
    requires |init| >= 1
    requires '.' !in last
    ensures Join(init + ["prod"] + [last], ".") == InsertProd(Join(init + [last], "."))
  {
    JoinSnoc(init, last, ".");
    JoinProd(init, last);
    InsertProdAfter(Join(init, "."), last);
  }

  /** Joining with "prod" as the second-to-last piece. */
  lemma {:induction false} JoinProd(init: seq<string>, last: string)
    requires |init| >= 1
    ensures Join(init + ["prod"] + [last], ".") == Join(init, ".") + ".prod." + last
  {
    var a := Join(init, ".");
    JoinSnoc(init, "prod", ".");
    JoinSnoc(init + ["prod"], last, ".");
    assert a + "." + "prod" + "." + last == a + ".prod." + last;
  }

  /** `InsertProd` of `a.last`, where `last` has no dot, is `a.prod.last`. */
  lemma {:induction false} InsertProdAfter(a: string, last: string)
    requires '.' !in last
    ensures InsertProd(a + "." + last) == a + ".prod." + last
  {
    var ext := a + "." + last;
    assert ext == a + ['.'] + last;
    LastIndexOfBeforeFree(a, '.', last);
    assert ext[..|a|] == a;
    assert ext[|a|..] == "." + last;
    assert a + ".prod" + ("." + last) == a + ".prod." + last;
  }

  /**
   * On dot-segments: the segments of `InsertProd(ext)` are those of `ext` with "prod"
   * inserted before the last one.
   */
  lemma {:induction false} InsertProdSegments(ext: string)
    ensures var parts := Split(ext, '.');
            Split(InsertProd(ext), '.') == parts[..|parts| - 1] + ["prod"] + [parts[|parts| - 1]]
  {
    var parts := Split(ext, '.');
    var n := |parts|;
    LastPiece(parts);
    SpliceProd(ext);
    DotFreeSplice(parts[..n - 1], parts[n - 1]);
    SplitJoin(parts[..n - 1] + ["prod"] + [parts[n - 1]], '.');
  }

  /** Inserting "prod" among dot-free pieces leaves every piece dot-free. */
  lemma DotFreeSplice(init: seq<string>, last: string)
    requires forall i :: 0 <= i < |init| ==> '.' !in init[i]
    requires '.' !in last
    ensures var spliced := init + ["prod"] + [last];
      forall i :: 0 <= i < |spliced| ==> '.' !in spliced[i]
  {
    var spliced := init + ["prod"] + [last];
    forall i | 0 <= i < |spliced| ensures '.' !in spliced[i] {
      if i < |init| {
        assert spliced[i] == init[i];
      } else if i == |init| {
        assert spliced[i] == "prod";
      } else {
        assert spliced[i] == last;
      }
    }
  }

  /** Taking the inserted "prod" segment out again gives back the original extension. */
  lemma {:induction false} RemoveProdSegment(ext: string)
    ensures var prod := Split(InsertProd(ext), '.');
            |prod| >= 2 && prod[|prod| - 2] == "prod"
            && Join(prod[..|prod| - 2] + [prod[|prod| - 1]], ".") == ext
  {
    var parts := Split(ext, '.');
    var n := |parts|;
    InsertProdSegments(ext);
    LastPiece(parts);
    RemoveSecondToLast(parts[..n - 1], "prod", parts[n - 1]);
    JoinSplit(ext, '.');
  }

  /** Removing the second-to-last element of `init + [x] + [last]` gives `init + [last]`. */
  lemma RemoveSecondToLast<T>(init: seq<T>, x: T, last: T)
    ensures var s := init + [x] + [last];
      |s| >= 2 && s[|s| - 2] == x && s[..|s| - 2] + [s[|s| - 1]] == init + [last]
  {
    var s := init + [x] + [last];
    assert s[..|s| - 2] == init;
  }

  /** The extensions of the four formats: only the non-prod esm build keeps its `extname`. */
  lemma ConfigExtensions()
    ensures Extension(ConfigNamed("cjs")) == Some(".prod.cjs")
    ensures Extension(ConfigNamed("esm")) == Some(".mjs")
    ensures Extension(ConfigNamed("global")) == Some(".global.prod.js")
    ensures Extension(ConfigNamed("module")) == Some(".module.prod.js")
  {
    CjsExtension();
    GlobalExtension();
    ModuleExtension();
  }

  lemma CjsExtension()
    ensures Extension(ConfigNamed("cjs")) == Some(".prod.cjs")
  {
    var ext := ".cjs";
    assert LastIndexOf(ext, '.') == 0 by {
      LastIndexOfBeforeFree("", '.', "cjs");
      assert ext == "" + ['.'] + "cjs";
    }
    assert ext[..0] + ".prod" + ext[0..] == ".prod.cjs";
  }

  lemma GlobalExtension()
    ensures Extension(ConfigNamed("global")) == Some(".global.prod.js")
  {
    var ext := ".global.js";
    assert LastIndexOf(ext, '.') == 7 by {
      LastIndexOfBeforeFree(".global", '.', "js");
      assert ext == ".global" + ['.'] + "js";
    }
    assert ext[..7] + ".prod" + ext[7..] == ".global.prod.js";
  }

  lemma ModuleExtension()
    ensures Extension(ConfigNamed("module")) == Some(".module.prod.js")
  {
    var ext := ".module.js";
    assert LastIndexOf(ext, '.') == 7 by {
      LastIndexOfBeforeFree(".module", '.', "js");
      assert ext == ".module" + ['.'] + "js";
    }
    assert ext[..7] + ".prod" + ext[7..] == ".module.prod.js";
  }

  /** In `a + [c] + b` where `b` does not contain `c`, the last `c` is right after `a`. */
  lemma {:induction false} LastIndexOfBeforeFree(a: string, c: char, b: string)
    requires c !in b
    ensures LastIndexOf(a + [c] + b, c) == |a|
  {
    var s := a + [c] + b;
    assert s[|a|] == c;
    assert s[|a| + 1..] == b;
    var k := LastIndexOf(s, c);
    assert k >= |a| by {
      assert c in s[|a|..];
      assert s[|a|..] == [c] + b;
    }
    assert k <= |a| by {
      forall j | |a| < j < |s| ensures s[j] != c {
        assert s[j] == b[j - |a| - 1];
      }
    }
  }
}
