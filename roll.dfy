/**
 * `rollPackage` up to the point where rollup takes over: the format keys to build, the
 * externals and globals shared by every build, and the list of rollup configurations,
 * with a dev copy before each prod build.
 */
module Roll {
  import opened Outcomes
  import opened JsArrays
  import opened JsObjects
  import opened Manifest
  import opened Config

  /** The options `rollPackage` reads: `{ formats, version }`. */
  datatype RollOptions = RollOptions(formats: Option<seq<string>>, version: string)

  /** The `TypeError`s `rollPackage` can throw, each named by the package that causes it. */
  datatype RollError =
    | MissingBuild(package: string)    // the package has no `build` section
    | MissingConfigs(package: string)  // its `build` section has no `configs`
    | BrokenPeer(peer: string)         // a peer dependency is a known package without `build`

  /** The format test: the key is one of the requested formats. */
  function InFormats(fs: seq<string>): string -> bool
  {
    key => key in fs
  }

  /** The format keys to build: all of `configs`, or those listed in `formats` when it is given. */
  function Kept(configs: seq<string>, formats: Option<seq<string>>): seq<string>
  {
    match formats
    case Some(fs) => Filter(configs, InFormats(fs))
    case None => configs
  }

  /** The configurations one key yields: a dev copy first when the format is a prod build. */
  function Expansion(key: string): seq<FormatConfig>
  {
    var c := ConfigNamed(key);
    if c.prod then [c.(prod := false), c] else [c]
  }

  /** The configurations of all keys, in order; each prod build has an extension name. */
  function Expanded(keys: seq<string>): (cs: seq<FormatConfig>)
    ensures forall i :: 0 <= i < |cs| ==> (cs[i].prod ==> cs[i].extname.Some?)
  {
    if |keys| == 0 then []
    else Expanded(keys[..|keys| - 1]) + Expansion(keys[|keys| - 1])
  }

  /** `key => CONFIGS[key].prod`. */
  function IsProdKey(): string -> bool
  {
    key => ConfigNamed(key).prod
  }

  /** Expanding a concatenation expands each part. */
  lemma {:induction false} ExpandedAppend(a: seq<string>, b: seq<string>)
    ensures Expanded(a + b) == Expanded(a) + Expanded(b)
    decreases |b|
  {
    if |b| == 0 {
      assert a + b == a;
    } else {
      var n := |b|;
      assert (a + b)[..|a + b| - 1] == a + b[..n - 1];
      assert (a + b)[|a + b| - 1] == b[n - 1];
      ExpandedAppend(a, b[..n - 1]);
    }
  }

  /** There is one configuration per key and one more per prod key. */
  lemma {:induction false} ExpandedLength(keys: seq<string>)
    ensures |Expanded(keys)| == |keys| + |Filter(keys, IsProdKey())|
  {
    if |keys| > 0 {
      var n := |keys|;
      var init := keys[..n - 1];
      ExpandedLength(init);
      assert keys == init + [keys[n - 1]];
      FilterAppend(init, [keys[n - 1]], IsProdKey());
    }
  }

  /** With `formats` given, a key is built exactly when it is in `configs` and in `formats`. */
  lemma KeptMembers(configs: seq<string>, fs: seq<string>, key: string)
    ensures key in Kept(configs, Some(fs)) <==> key in configs && key in fs
  {
    assert InFormats(fs)(key) == (key in fs);
  }

  /** Filtering keeps the relative order of the keys it keeps: the kept keys of a prefix come first. */
  lemma {:induction false} KeptPrefix(configs: seq<string>, fs: seq<string>, i: nat)
    requires i <= |configs|
    ensures Kept(configs, Some(fs)) == Kept(configs[..i], Some(fs)) + Kept(configs[i..], Some(fs))
  {
    assert configs == configs[..i] + configs[i..];
    FilterAppend(configs[..i], configs[i..], InFormats(fs));
  }

  /** `packages.get(name)`, when it is truthy. */
  function Meta(packages: PackageMap, name: string): Option<Target>
  {
    var meta: Option<Option<Target>> := Get(packages, name);
    if meta.Some? then meta.value else None
  }

  /** `name` is a known package without a `build` section: reading `build.name` throws. */
  predicate IsBrokenPeer(packages: PackageMap, name: string)
  {
    var m := Meta(packages, name);
    m.Some? && m.value.package.build.None?
  }

  /** `name` is a known package whose `build.name` is truthy. */
  predicate IsNamedPeer(packages: PackageMap, name: string)
  {
    var m := Meta(packages, name);
    m.Some? && m.value.package.build.Some? && Truthy(m.value.package.build.value.name)
  }

  /** The `build.name` of a named peer (and the empty string for any other name). */
  function GlobalName(packages: PackageMap, name: string): string
  {
    match Meta(packages, name)
    case Some(t) =>
      (match t.package.build
       case Some(b) => (match b.name case Some(n) => n case None => "")
       case None => "")
    case None => ""
  }

  function BrokenIn(packages: PackageMap): string -> bool
  {
    name => IsBrokenPeer(packages, name)
  }

  function NamedIn(packages: PackageMap): string -> bool
  {
    name => IsNamedPeer(packages, name)
  }

  function GlobalNameIn(packages: PackageMap): string -> string
  {
    name => GlobalName(packages, name)
  }

  /** The first peer that makes the globals reduction throw, if any. */
  function FirstBroken(peers: seq<string>, packages: PackageMap): Option<string>
  {
    var bs := Filter(peers, BrokenIn(packages));
    if |bs| == 0 then None else Some(bs[0])
  }

  /** The globals object: each named peer once, in first-occurrence order, with its global name. */
  function Globals(peers: seq<string>, packages: PackageMap): seq<(string, string)>
  {
    Tabulate(Dedup(Filter(peers, NamedIn(packages))), GlobalNameIn(packages))
  }

  /**
   * The `peerDependencies.reduce` that builds `globals`: it throws on the first peer that
   * is a known package without `build`, and otherwise gives `Globals`.
   */
  method ResolveGlobals(peers: seq<string>, packages: PackageMap)
    returns (r: Result<seq<(string, string)>, RollError>)
    ensures FirstBroken(peers, packages).Some? ==> r == Err(BrokenPeer(FirstBroken(peers, packages).value))
    ensures FirstBroken(peers, packages).None? ==> r == Ok(Globals(peers, packages))
  {
    var acc: seq<(string, string)> := [];
    var i := 0;
    assert peers[..i] == [];
    while i < |peers|
      invariant 0 <= i <= |peers|
      invariant Filter(peers[..i], BrokenIn(packages)) == []
      invariant acc == Globals(peers[..i], packages)
    {
      var name := peers[i];
      PeerStep(peers, i, packages);
      var meta := Get(packages, name);
      if meta.Some? && meta.value.Some? {
        var build := meta.value.value.package.build;
        if build.None? {
          FirstBrokenAt(peers, i, packages);
          return Err(BrokenPeer(name));
        }
        if Truthy(build.value.name) {
          acc := Put(acc, name, build.value.name.value);
        }
      }
      i := i + 1;
    }
    assert peers[..i] == peers;
    return Ok(acc);
  }

  /** The globals and the broken peers of one more peer, stated on what the reduction reads. */
  lemma PeerStep(peers: seq<string>, i: nat, packages: PackageMap)
    requires i < |peers|
    ensures var name := peers[i];
      var meta := Get(packages, name);
      var known := meta.Some? && meta.value.Some?;
      && Filter(peers[..i + 1], BrokenIn(packages))
         == Filter(peers[..i], BrokenIn(packages)) + (if known && meta.value.value.package.build.None? then [name] else [])
      && (known && meta.value.value.package.build.None? ==> IsBrokenPeer(packages, name))
      && Globals(peers[..i + 1], packages)
         == if known && meta.value.value.package.build.Some? && Truthy(meta.value.value.package.build.value.name)
            then Put(Globals(peers[..i], packages), name, meta.value.value.package.build.value.name.value)
            else Globals(peers[..i], packages)
  {
    var name := peers[i];
    assert peers[..i + 1] == peers[..i] + [name];
    GlobalsStep(peers[..i], name, packages);
    BrokenStep(peers[..i], name, packages);
  }

  /** One more peer: a named peer is put into the globals, any other leaves them alone. */
  lemma GlobalsStep(prefix: seq<string>, name: string, packages: PackageMap)
    ensures Globals(prefix + [name], packages)
         == if IsNamedPeer(packages, name) then Put(Globals(prefix, packages), name, GlobalName(packages, name))
            else Globals(prefix, packages)
  {
    var named := NamedIn(packages);
    FilterAppend(prefix, [name], named);
    if IsNamedPeer(packages, name) {
      assert Filter([name], named) == [name];
      PutDedup(Filter(prefix, named), GlobalNameIn(packages), name);
    } else {
      assert Filter([name], named) == [];
      assert Filter(prefix + [name], named) == Filter(prefix, named);
    }
  }

  /** One more peer: a broken peer is recorded after those before it. */
  lemma BrokenStep(prefix: seq<string>, name: string, packages: PackageMap)
    ensures Filter(prefix + [name], BrokenIn(packages))
         == Filter(prefix, BrokenIn(packages)) + if IsBrokenPeer(packages, name) then [name] else []
  {
    FilterAppend(prefix, [name], BrokenIn(packages));
  }

  /** The first broken peer is the first peer after a prefix free of broken peers that is one. */
  lemma FirstBrokenAt(peers: seq<string>, i: nat, packages: PackageMap)
    requires i < |peers|
    requires Filter(peers[..i], BrokenIn(packages)) == []
    requires IsBrokenPeer(packages, peers[i])
    ensures FirstBroken(peers, packages) == Some(peers[i])
  {
    assert BrokenIn(packages)(peers[i]);
    FilterFirstAt(peers, i, BrokenIn(packages));
  }

  /** A name is in the globals exactly when it is a named peer, and then with its global name. */
  lemma GlobalsLookup(peers: seq<string>, packages: PackageMap, name: string)
    ensures Get(Globals(peers, packages), name)
         == if name in peers && IsNamedPeer(packages, name) then Some(GlobalName(packages, name)) else None
    ensures Distinct(Keys(Globals(peers, packages)))
  {
    var named := Filter(peers, NamedIn(packages));
    TabulateGet(Dedup(named), GlobalNameIn(packages), name);
    assert name in named <==> name in peers && IsNamedPeer(packages, name);
  }

  /** `external`: the dependency names followed by the peer dependency names. */
  function PackageExternal(p: Package): seq<string>
  {
    KeysOf(p.dependencies) + KeysOf(p.peerDependencies)
  }

  /**
   * The options every build of the package shares; the `config` field is replaced by
   * each format's configuration.
   */
  function SharedOptions(target: Target, opts: RollOptions, packages: PackageMap): ConfigOptions
    requires target.package.build.Some?
  {
    var p := target.package;
    ConfigOptions(
      p.build.value.name, target.dir, p, Blank, PackageExternal(p),
      Globals(KeysOf(p.peerDependencies), packages), opts.version)
  }

  /**
   * The error `rollPackage` throws, in the order the source meets them: the missing
   * `build`, then `configs` missing when `formats` filters it, then a broken peer in the
   * globals, then `configs` missing when the builds are listed.
   */
  function RollFailure(target: Target, opts: RollOptions, packages: PackageMap): Option<RollError>
  {
    var p := target.package;
    if p.build.None? then Some(MissingBuild(p.name))
    else if p.build.value.configs.None? && opts.formats.Some? then Some(MissingConfigs(p.name))
    else if FirstBroken(KeysOf(p.peerDependencies), packages).Some? then
      Some(BrokenPeer(FirstBroken(KeysOf(p.peerDependencies), packages).value))
    else if p.build.value.configs.None? then Some(MissingConfigs(p.name))
    else None
  }

  /**
   * The `configs.reduce` that lists the builds: the configuration of each key, preceded
   * by a dev copy for a prod build, each passed through `createConfig`.
   */
  method ExpandConfigs(keys: seq<string>, shared: ConfigOptions, builtins: seq<string>)
    returns (out: seq<RollupConfig>)
    ensures |out| == |Expanded(keys)|
    ensures forall i :: 0 <= i < |out| ==> out[i] == ConfigSpec(shared.(config := Expanded(keys)[i]), builtins)
  {
    out := [];
    var i := 0;
    assert keys[..i] == [];
    while i < |keys|
      invariant 0 <= i <= |keys|
      invariant BuildsOf(out, Expanded(keys[..i]), shared, builtins)
    {
      var key := keys[i];
      var builds := KeyBuilds(key, shared, builtins);
      BuildsAppend(out, Expanded(keys[..i]), builds, Expansion(key), shared, builtins);
      ExpandedStep(keys, i);
      out := out + builds;
      i := i + 1;
    }
    assert keys[..i] == keys;
  }

  /** The builds of one format key: `createConfig` of a dev copy first for a prod format, then of the format itself. */
  method KeyBuilds(key: string, shared: ConfigOptions, builtins: seq<string>) returns (builds: seq<RollupConfig>)
    ensures BuildsOf(builds, Expansion(key), shared, builtins)
  {
    var config := ConfigNamed(key);
    var configOptions := shared.(config := config);
    if config.prod {
      var devBuild := CreateConfig(configOptions.(config := config.(prod := false)), builtins);
      var build := CreateConfig(configOptions, builtins);
      builds := [devBuild, build];
      BuildsPair(devBuild, build, config.(prod := false), config, shared, builtins);
    } else {
      var build := CreateConfig(configOptions, builtins);
      builds := [build];
      BuildsPair(build, build, config, config, shared, builtins);
    }
  }

  lemma BuildsPair(b0: RollupConfig, b1: RollupConfig, c0: FormatConfig, c1: FormatConfig,
                   shared: ConfigOptions, builtins: seq<string>)
    requires (c0.prod ==> c0.extname.Some?) && b0 == ConfigSpec(shared.(config := c0), builtins)
    requires (c1.prod ==> c1.extname.Some?) && b1 == ConfigSpec(shared.(config := c1), builtins)
    ensures BuildsOf([b0], [c0], shared, builtins) && BuildsOf([b0, b1], [c0, c1], shared, builtins)
  {
  }

  /** `out` holds one `createConfig` result per configuration of `cs`, in order. */
  ghost predicate BuildsOf(out: seq<RollupConfig>, cs: seq<FormatConfig>, shared: ConfigOptions, builtins: seq<string>)
  {
    |out| == |cs|
    && forall j :: 0 <= j < |out| ==>
         (cs[j].prod ==> cs[j].extname.Some?) && out[j] == ConfigSpec(shared.(config := cs[j]), builtins)
  }

  lemma BuildsAppend(out1: seq<RollupConfig>, cs1: seq<FormatConfig>, out2: seq<RollupConfig>, cs2: seq<FormatConfig>,
                     shared: ConfigOptions, builtins: seq<string>)
    requires BuildsOf(out1, cs1, shared, builtins) && BuildsOf(out2, cs2, shared, builtins)
    ensures BuildsOf(out1 + out2, cs1 + cs2, shared, builtins)
  {
    var out, cs := out1 + out2, cs1 + cs2;
    forall j | 0 <= j < |out|
      ensures (cs[j].prod ==> cs[j].extname.Some?) && out[j] == ConfigSpec(shared.(config := cs[j]), builtins)
    {
      if j < |out1| {
        assert out[j] == out1[j] && cs[j] == cs1[j];
      } else {
        assert out[j] == out2[j - |out1|] && cs[j] == cs2[j - |out1|];
      }
    }
  }

  /** The configurations of one more key follow those of the keys before it. */
  lemma ExpandedStep(keys: seq<string>, i: nat)
    requires i < |keys|
    ensures Expanded(keys[..i + 1]) == Expanded(keys[..i]) + Expansion(keys[i])
  {
    assert keys[..i + 1][..i] == keys[..i];
  }

  /**
   * `rollPackage(target, opts, packages)` up to the rollup calls: the error it throws, or
   * one rollup configuration per entry of `Expanded(Kept(configs, formats))`, in order,
   * all sharing the package's externals and globals.
   */
  method RollPackage(target: Target, opts: RollOptions, packages: PackageMap, builtins: seq<string>)
    returns (r: Result<seq<RollupConfig>, RollError>)
    ensures RollFailure(target, opts, packages).Some? ==> r == Err(RollFailure(target, opts, packages).value)
    ensures RollFailure(target, opts, packages).None? ==>
      var keys := Kept(target.package.build.value.configs.value, opts.formats);
      r.Ok? && |r.value| == |Expanded(keys)|
      && forall i :: 0 <= i < |r.value| ==>
           r.value[i] == ConfigSpec(SharedOptions(target, opts, packages).(config := Expanded(keys)[i]), builtins)
  {
    var p := target.package;
    if p.build.None? {
      return Err(MissingBuild(p.name));
    }
    var name := p.build.value.name;
    var configs := p.build.value.configs;
    if opts.formats.Some? {
      if configs.None? {
        return Err(MissingConfigs(p.name));
      }
      configs := Some(Filter(configs.value, InFormats(opts.formats.value)));
    }

    var peerDependencies := KeysOf(p.peerDependencies);
    var external := KeysOf(p.dependencies) + peerDependencies;

    var globals := ResolveGlobals(peerDependencies, packages);
    if globals.Err? {
      return Err(globals.error);
    }

    if configs.None? {
      return Err(MissingConfigs(p.name));
    }
    var shared := ConfigOptions(name, target.dir, p, Blank, external, globals.value, opts.version);
    assert shared == SharedOptions(target, opts, packages);
    var builds := ExpandConfigs(configs.value, shared, builtins);
    return Ok(builds);
  }
}
