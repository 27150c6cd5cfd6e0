/**
 * `resolvePackages(rootDir, private, targets)`: the packages of a directory, ordered so
 * that dependencies come before the packages that use them, optionally narrowed to the
 * targeted packages and what they depend on, as a `Map` from name to package.
 */
module Resolve {
  import opened Outcomes
  import opened JsArrays
  import opened JsStrings
  import opened JsObjects
  import opened Manifest
  import opened Graph

  /**
   * One name listed by `readdirSync(rootDir)`: whether `statSync` says it is a directory,
   * and what `readPackage` reads from it (`None` where that throws).
   */
  datatype DirEntry = DirEntry(name: string, isDirectory: bool, manifest: Option<Package>)

  /** The errors `resolvePackages` can throw. */
  datatype ResolveError =
    | UnreadablePackage(dir: string)  // a directory without a readable `package.json`
    | CyclicDependencies              // the topological sort rejects the edges

  /** The order a topological sort gives the edges, or `None` where it throws. */
  type Toposort = seq<seq<string>> -> Option<seq<Option<string>>>

  /** A directory whose `package.json` cannot be read. */
  predicate IsUnreadable(e: DirEntry)
  {
    e.isDirectory && e.manifest.None?
  }

  /** A directory whose package is kept: it is public, or private packages are asked for. */
  predicate IsListed(e: DirEntry, includePrivate: bool)
  {
    e.isDirectory && e.manifest.Some? && (includePrivate || !e.manifest.value.isPrivate)
  }

  /** `{ package, dir }` for a directory entry. */
  function ListedTarget(rootDir: string, e: DirEntry): Target
    requires e.manifest.Some?
  {
    Target(e.manifest.value, Resolve(rootDir, e.name))
  }

  function Unreadable(): DirEntry -> bool
  {
    e => IsUnreadable(e)
  }

  /** The first directory whose `package.json` cannot be read, if any. */
  function FirstUnreadable(entries: seq<DirEntry>): Option<DirEntry>
  {
    var bad := Filter(entries, Unreadable());
    if |bad| == 0 then None else Some(bad[0])
  }

  /** The packages kept, in the order of the directory listing. */
  function Listed(rootDir: string, includePrivate: bool, entries: seq<DirEntry>): seq<Target>
  {
    if |entries| == 0 then []
    else
      var e := entries[|entries| - 1];
      Listed(rootDir, includePrivate, entries[..|entries| - 1])
      + if IsListed(e, includePrivate) then [ListedTarget(rootDir, e)] else []
  }

  /** A package is kept exactly when some directory entry is a kept package with that record and directory. */
  lemma {:induction false} ListedMembers(rootDir: string, includePrivate: bool, entries: seq<DirEntry>, t: Target)
    ensures t in Listed(rootDir, includePrivate, entries)
        <==> exists i :: 0 <= i < |entries| && IsListed(entries[i], includePrivate)
                         && t == ListedTarget(rootDir, entries[i])
  {
    if |entries| > 0 {
      var n := |entries|;
      var init := entries[..n - 1];
      ListedMembers(rootDir, includePrivate, init, t);
      assert forall i :: 0 <= i < n - 1 ==> init[i] == entries[i];
    }
  }

  /**
   * The `readdirSync(rootDir).reduce` that lists the packages: it throws on the first
   * directory without a readable `package.json`, and otherwise gives `Listed`.
   */
  method CollectPackages(rootDir: string, includePrivate: bool, entries: seq<DirEntry>)
    returns (r: Result<seq<Target>, ResolveError>)
    ensures FirstUnreadable(entries).Some? ==>
      r == Err(UnreadablePackage(Resolve(rootDir, FirstUnreadable(entries).value.name)))
    ensures FirstUnreadable(entries).None? ==> r == Ok(Listed(rootDir, includePrivate, entries))
  {
    var acc: seq<Target> := [];
    var i := 0;
    assert entries[..i] == [];
    while i < |entries|
      invariant 0 <= i <= |entries|
      invariant Filter(entries[..i], Unreadable()) == []
      invariant acc == Listed(rootDir, includePrivate, entries[..i])
    {
      var e := entries[i];
      var dir := Resolve(rootDir, e.name);
      EntryStep(rootDir, includePrivate, entries, i);
      if e.isDirectory {
        if e.manifest.None? {
          FilterFirstAt(entries, i, Unreadable());
          return Err(UnreadablePackage(dir));
        }
        var package := e.manifest.value;
        if includePrivate || !package.isPrivate {
          acc := acc + [Target(package, dir)];
        }
      }
      i := i + 1;
    }
    assert entries[..i] == entries;
    return Ok(acc);
  }

  /** The packages and the unreadable directories of one more directory entry. */
  lemma EntryStep(rootDir: string, includePrivate: bool, entries: seq<DirEntry>, i: nat)
    requires i < |entries|
    ensures Listed(rootDir, includePrivate, entries[..i + 1])
         == Listed(rootDir, includePrivate, entries[..i])
            + if IsListed(entries[i], includePrivate) then [ListedTarget(rootDir, entries[i])] else []
    ensures Filter(entries[..i + 1], Unreadable())
         == Filter(entries[..i], Unreadable()) + if IsUnreadable(entries[i]) then [entries[i]] else []
  {
    assert entries[..i + 1][..i] == entries[..i];
    FilterSnoc(entries, i, Unreadable());
  }

  /** `find` over the packages: the first package with that name. */
  function FindPackage(packages: seq<Target>, name: string): (r: Option<Target>)
    ensures r.None? <==> forall i :: 0 <= i < |packages| ==> packages[i].package.name != name
    ensures r.Some? ==> exists i :: 0 <= i < |packages| && packages[i] == r.value
                          && r.value.package.name == name
                          && forall j :: 0 <= j < i ==> packages[j].package.name != name
  {
    if |packages| == 0 then None
    else if packages[0].package.name == name then Some(packages[0])
    else
      var r := FindPackage(packages[1..], name);
      assert forall i :: 1 <= i < |packages| ==> packages[i] == packages[1..][i - 1];
      if r.Some? then
        var i :| 0 <= i < |packages[1..]| && packages[1..][i] == r.value
                 && r.value.package.name == name
                 && forall j :: 0 <= j < i ==> packages[1..][j].package.name != name;
        assert packages[i + 1] == r.value;
        assert forall j :: 0 <= j < i + 1 ==> packages[j].package.name != name by {
          forall j | 0 <= j < i + 1 ensures packages[j].package.name != name {
            if j > 0 {
              assert packages[j] == packages[1..][j - 1];
            }
          }
        }
        r
      else r
  }

  /** `name => packages.find(...) != null`: the name of a package of the directory. */
  function IsLocalIn(packages: seq<Target>): string -> bool
  {
    name => FindPackage(packages, name).Some?
  }

  /** The names in one dependency table that are packages of the directory, in order. */
  function LocalDeps(p: Package, key: DepKey, packages: seq<Target>): seq<string>
  {
    Filter(KeysOf(Table(p, key)), IsLocalIn(packages))
  }

  /** The `flatMap` over table keys: the local dependency names of each table in `keys`, in turn. */
  function DepsOver(p: Package, keys: seq<DepKey>, packages: seq<Target>): seq<string>
  {
    if |keys| == 0 then [] else LocalDeps(p, keys[0], packages) + DepsOver(p, keys[1..], packages)
  }

  /** The local dependency names of a package, table by table in the order of `PACKAGE_DEP_KEYS`. */
  function DepNames(p: Package, packages: seq<Target>): seq<string>
  {
    DepsOver(p, PackageDepKeys, packages)
  }

  /** `[package.name, ...new Set(deps)]`. */
  function EdgeOf(packages: seq<Target>): Target -> seq<string>
  {
    (t: Target) => [t.package.name] + Dedup(DepNames(t.package, packages))
  }

  /** The edges handed to the topological sort, one per package, in the order of the packages. */
  function Edges(packages: seq<Target>): (r: seq<seq<string>>)
    ensures |r| == |packages|
    ensures forall i :: 0 <= i < |r| ==> |r[i]| >= 1 && r[i][0] == packages[i].package.name
  {
    Map(packages, EdgeOf(packages))
  }

  /** The flat map visits `dependencies`, `devDependencies` and `peerDependencies` in this order. */
  lemma DepNamesOrder(p: Package, packages: seq<Target>)
    ensures DepNames(p, packages)
         == LocalDeps(p, Dependencies, packages) + LocalDeps(p, DevDependencies, packages)
            + LocalDeps(p, PeerDependencies, packages)
  {
    assert PackageDepKeys == [Dependencies] + [DevDependencies, PeerDependencies];
    assert [DevDependencies, PeerDependencies] == [DevDependencies] + [PeerDependencies];
    assert [PeerDependencies] == [PeerDependencies] + [];
    DepsOverCons(p, PeerDependencies, [], packages);
    DepsOverCons(p, DevDependencies, [PeerDependencies], packages);
    DepsOverCons(p, Dependencies, [DevDependencies, PeerDependencies], packages);
  }

  lemma DepsOverCons(p: Package, key: DepKey, keys: seq<DepKey>, packages: seq<Target>)
    ensures DepsOver(p, [key] + keys, packages) == LocalDeps(p, key, packages) + DepsOver(p, keys, packages)
  {
    assert ([key] + keys)[1..] == keys;
  }

  /**
   * Each edge starts with its package's name, followed, each once, by exactly the names
   * in its dependency tables that are packages of the directory.
   */
  lemma EdgeShape(packages: seq<Target>, i: nat, d: string)
    requires i < |packages|
    ensures var e := Edges(packages)[i];
      var p := packages[i].package;
      && |e| >= 1 && e[0] == p.name && Distinct(e[1..])
      && (d in e[1..] <==>
            (d in KeysOf(p.dependencies) || d in KeysOf(p.devDependencies) || d in KeysOf(p.peerDependencies))
            && FindPackage(packages, d).Some?)
  {
    EdgeAt(packages, i);
    DepNamesMembers(packages[i].package, packages, d);
  }

  /** The edge of a package: its name, then its local dependency names without repeats. */
  lemma EdgeAt(packages: seq<Target>, i: nat)
    requires i < |packages|
    ensures var e := Edges(packages)[i];
      |e| >= 1 && e[0] == packages[i].package.name && e[1..] == Dedup(DepNames(packages[i].package, packages))
  {
    assert Edges(packages)[i] == [packages[i].package.name] + Dedup(DepNames(packages[i].package, packages));
  }

  /** A local dependency name is a key of one of the three tables that is a package of the directory. */
  lemma DepNamesMembers(p: Package, packages: seq<Target>, d: string)
    ensures d in DepNames(p, packages) <==>
      (d in KeysOf(p.dependencies) || d in KeysOf(p.devDependencies) || d in KeysOf(p.peerDependencies))
      && FindPackage(packages, d).Some?
  {
    DepNamesOrder(p, packages);
    assert IsLocalIn(packages)(d) == FindPackage(packages, d).Some?;
  }

  /** The edge of a package starts with the package's name. */
  lemma EdgeHead(packages: seq<Target>, i: nat)
    requires i < |packages|
    ensures Head()(Edges(packages)[i]) == packages[i].package.name
  {
    EdgeAt(packages, i);
  }

  /** The heads of the edges are the package names, in order. */
  lemma HeadsAreNames(packages: seq<Target>)
    ensures var heads := Map(Edges(packages), Head());
      |heads| == |packages| && forall i :: 0 <= i < |packages| ==> heads[i] == packages[i].package.name
  {
    forall i | 0 <= i < |packages| ensures Map(Edges(packages), Head())[i] == packages[i].package.name {
      EdgeHead(packages, i);
    }
  }

  /** A list holding the package names in order holds exactly the names `find` succeeds for. */
  lemma NamesFound(packages: seq<Target>, heads: seq<string>, name: string)
    requires |heads| == |packages| && forall i :: 0 <= i < |packages| ==> heads[i] == packages[i].package.name
    ensures name in heads <==> FindPackage(packages, name).Some?
  {
    if FindPackage(packages, name).Some? {
      var i :| 0 <= i < |packages| && packages[i].package.name == name;
      assert heads[i] == name;
    }
    if name in heads {
      var i :| 0 <= i < |heads| && heads[i] == name;
      assert packages[i].package.name == name;
    }
  }

  /** `!!name`: the names the sort gives that are defined and not empty. */
  function Named(sorted: seq<Option<string>>): (r: seq<string>)
    ensures forall x :: x in r <==> Some(x) in sorted && x != ""
  {
    if |sorted| == 0 then []
    else
      assert sorted == [sorted[0]] + sorted[1..];
      (if Truthy(sorted[0]) then [sorted[0].value] else []) + Named(sorted[1..])
  }

  /** `e => e[0]`; every edge built here has a first element (`EdgeShape`). */
  function Head(): seq<string> -> string
  {
    e => if |e| > 0 then e[0] else ""
  }

  /** The targeting test: the name contains at least one target string. */
  function MatchesSome(targets: seq<string>): string -> bool
  {
    name => exists t :: t in targets && Includes(name, t)
  }

  /** The targeted packages: those whose name contains one of the target strings. */
  function Targeted(edges: seq<seq<string>>, targets: seq<string>): seq<string>
  {
    Filter(Map(edges, Head()), MatchesSome(targets))
  }

  /** The narrowing test: some targeted package reaches the name. */
  function ReachedFrom(edges: seq<seq<string>>, targeted: seq<string>): string -> bool
  {
    name => exists tg :: tg in targeted && HasDep(edges, tg, name, {})
  }

  /**
   * The names the result keeps, in order: the sorted names reversed, and with non-empty
   * `targets` only those some targeted package reaches.
   */
  function Selected(edges: seq<seq<string>>, sorted: seq<Option<string>>, targets: Option<seq<string>>): seq<string>
  {
    var ordered := Reverse(Named(sorted));
    if targets.Some? && |targets.value| > 0 then Filter(ordered, ReachedFrom(edges, Targeted(edges, targets.value)))
    else ordered
  }

  /** The targeted packages are the packages whose name contains some target string. */
  lemma TargetedMembers(packages: seq<Target>, targets: seq<string>, name: string)
    ensures name in Targeted(Edges(packages), targets)
        <==> FindPackage(packages, name).Some? && exists t :: t in targets && Includes(name, t)
  {
    var heads := Map(Edges(packages), Head());
    HeadsAreNames(packages);
    NamesFound(packages, heads, name);
    assert MatchesSome(targets)(name) == exists t :: t in targets && Includes(name, t);
  }

  /** When the sort names each package at most once, the selected names have no repeats either. */
  lemma SelectedDistinct(edges: seq<seq<string>>, sorted: seq<Option<string>>, targets: Option<seq<string>>)
    requires Distinct(Named(sorted))
    ensures Distinct(Selected(edges, sorted, targets))
  {
    var ordered := Reverse(Named(sorted));
    ReverseDistinct(Named(sorted));
    if targets.Some? && |targets.value| > 0 {
      FilterDistinct(ordered, ReachedFrom(edges, Targeted(edges, targets.value)));
    }
  }

  /**
   * A name is selected exactly when the sort gives it (defined and not empty) and, when
   * narrowing to non-empty targets, some targeted package reaches it through the edges.
   */
  lemma SelectedMembers(edges: seq<seq<string>>, sorted: seq<Option<string>>, targets: Option<seq<string>>, name: string)
    ensures name in Selected(edges, sorted, targets)
        <==> Some(name) in sorted && name != ""
             && (targets.Some? && |targets.value| > 0 ==>
                   exists tg :: tg in Targeted(edges, targets.value) && Reachable(edges, tg, name))
  {
    if targets.Some? && |targets.value| > 0 {
      var targeted := Targeted(edges, targets.value);
      forall tg | tg in targeted ensures HasDep(edges, tg, name, {}) <==> Reachable(edges, tg, name) {
        HasDepIffReachable(edges, tg, name);
      }
      assert ReachedFrom(edges, targeted)(name)
         <==> exists tg :: tg in targeted && Reachable(edges, tg, name);
    }
  }

  /** Without targets, the selected names are the sorted names in reverse. */
  lemma SelectedUntargeted(edges: seq<seq<string>>, sorted: seq<Option<string>>, targets: Option<seq<string>>)
    requires targets.None? || targets.value == []
    ensures Selected(edges, sorted, targets) == Reverse(Named(sorted))
  {
  }

  /** The value the result map stores for a name: the package `find` gives for it. */
  function FindIn(packages: seq<Target>): string -> Option<Target>
  {
    name => FindPackage(packages, name)
  }

  /**
   * The `ordered.reduce` that builds the `Map`: each name once, in first-occurrence order,
   * with the package of that name.
   */
  method ToPackageMap(order: seq<string>, packages: seq<Target>) returns (m: PackageMap)
    ensures m == Tabulate(Dedup(order), FindIn(packages))
  {
    m := [];
    var i := 0;
    assert order[..i] == [];
    while i < |order|
      invariant 0 <= i <= |order|
      invariant m == Tabulate(Dedup(order[..i]), FindIn(packages))
    {
      var name := order[i];
      assert order[..i + 1] == order[..i] + [name];
      PutDedup(order[..i], FindIn(packages), name);
      m := Put(m, name, FindPackage(packages, name));
      i := i + 1;
    }
    assert order[..i] == order;
  }

  /**
   * The map has the names of `order` as keys (exactly `order` when it has no repeated
   * name), each with the package that has that name.
   */
  lemma PackageMapLookup(order: seq<string>, packages: seq<Target>, name: string)
    ensures Keys(Tabulate(Dedup(order), FindIn(packages))) == Dedup(order)
    ensures Distinct(order) ==> Keys(Tabulate(Dedup(order), FindIn(packages))) == order
    ensures Get(Tabulate(Dedup(order), FindIn(packages)), name)
         == if name in order then Some(FindPackage(packages, name)) else None
  {
    TabulateGet(Dedup(order), FindIn(packages), name);
    if Distinct(order) {
      DedupOfDistinct(order);
    }
  }

  /**
   * `resolvePackages(rootDir, includePrivate, targets)` over the directory listing
   * `entries`, with `toposort` standing for the library: the error it throws, or the map
   * of the selected names to their packages.
   */
  method ResolvePackages(rootDir: string, includePrivate: bool, targets: Option<seq<string>>,
                         entries: seq<DirEntry>, toposort: Toposort)
    returns (r: Result<PackageMap, ResolveError>)
    ensures FirstUnreadable(entries).Some? ==>
      r == Err(UnreadablePackage(Resolve(rootDir, FirstUnreadable(entries).value.name)))
    ensures FirstUnreadable(entries).None? ==>
      var packages := Listed(rootDir, includePrivate, entries);
      var edges := Edges(packages);
      && (toposort(edges).None? ==> r == Err(CyclicDependencies))
      && (toposort(edges).Some? ==>
            r == Ok(Tabulate(Dedup(Selected(edges, toposort(edges).value, targets)), FindIn(packages))))
  {
    var listed := CollectPackages(rootDir, includePrivate, entries);
    if listed.Err? {
      return Err(listed.error);
    }
    var packages := listed.value;
    var edges := Edges(packages);
    var sorted := toposort(edges);
    if sorted.None? {
      return Err(CyclicDependencies);
    }
    var ordered := Reverse(Named(sorted.value));
    if targets.Some? && |targets.value| > 0 {
      var targeted := Filter(Map(edges, Head()), MatchesSome(targets.value));
      ordered := Filter(ordered, ReachedFrom(edges, targeted));
    }
    var m := ToPackageMap(ordered, packages);
    return Ok(m);
  }
}
