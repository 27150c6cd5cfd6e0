/**
 * The dependency edges `resolvePackages` hands to the topological sort, read as a graph:
 * an edge `[name, d1, d2, ...]` says that `name` depends on each `di`. `hasDep` asks
 * whether one name reaches another through such edges.
 */
module Graph {
  import opened Outcomes
  import opened JsArrays

  /** `find` over the edges: the first edge whose head is `name`. */
  function FindEdge(edges: seq<seq<string>>, name: string): (r: Option<seq<string>>)
    ensures r.Some? ==> r.value in edges && |r.value| > 0 && r.value[0] == name
    ensures r.None? ==> forall i :: 0 <= i < |edges| ==> !(|edges[i]| > 0 && edges[i][0] == name)
    ensures r.Some? ==> exists i :: 0 <= i < |edges| && edges[i] == r.value
                          && forall j :: 0 <= j < i ==> !(|edges[j]| > 0 && edges[j][0] == name)
  {
    if |edges| == 0 then None
    else if |edges[0]| > 0 && edges[0][0] == name then Some(edges[0])
    else
      var r := FindEdge(edges[1..], name);
      assert forall i :: 1 <= i < |edges| ==> edges[i] == edges[1..][i - 1];
      if r.Some? then
        var i :| 0 <= i < |edges[1..]| && edges[1..][i] == r.value
                 && forall j :: 0 <= j < i ==> !(|edges[1..][j]| > 0 && edges[1..][j][0] == name);
        assert edges[i + 1] == r.value;
        assert forall j :: 0 <= j < i + 1 ==> !(|edges[j]| > 0 && edges[j][0] == name) by {
          forall j | 0 <= j < i + 1 ensures !(|edges[j]| > 0 && edges[j][0] == name) {
            if j > 0 {
              assert edges[j] == edges[1..][j - 1];
            }
          }
        }
        r
      else r
  }

  /** The names an edge starts with. */
  function Heads(edges: seq<seq<string>>): set<string>
  {
    set e | e in edges && |e| > 0 :: e[0]
  }

  /** The direct dependencies of `name`: the rest of its edge, or none without one. */
  function Succ(edges: seq<seq<string>>, name: string): seq<string>
  {
    match FindEdge(edges, name)
    case Some(e) => e[1..]
    case None => []
  }

  /**
   * `hasDep(name, target)`: `name` is `target`, or one of its direct dependencies has
   * `target` as a dependency. The names in `visited` are not expanded again, which makes
   * the recursion end on cyclic edges too; with `visited` empty the answer is
   * reachability (`HasDepIffReachable`).
   */
  function HasDep(edges: seq<seq<string>>, name: string, target: string, visited: set<string>): (r: bool)
    ensures name == target ==> r
    ensures r && name != target ==> name !in visited && FindEdge(edges, name).Some?
    decreases Heads(edges) - visited
  {
    if name == target then true
    else if name in visited then false
    else
      match FindEdge(edges, name)
      case None => false
      case Some(e) =>
        assert name in Heads(edges);
        exists i :: 1 <= i < |e| && HasDep(edges, e[i], target, visited + {name})
  }

  /** `p` is a walk along the edges: each name is followed by one of its direct dependencies. */
  predicate IsPath(edges: seq<seq<string>>, p: seq<string>)
  {
    |p| >= 1 && forall k :: 0 <= k < |p| - 1 ==> p[k + 1] in Succ(edges, p[k])
  }

  /** `target` is `name` or a transitive dependency of it. */
  ghost predicate Reachable(edges: seq<seq<string>>, name: string, target: string)
  {
    exists p :: IsPath(edges, p) && p[0] == name && p[|p| - 1] == target
  }

  /** Whatever `hasDep` finds is reachable. */
  lemma {:induction false} HasDepSound(edges: seq<seq<string>>, name: string, target: string, visited: set<string>)
    requires HasDep(edges, name, target, visited)
    ensures Reachable(edges, name, target)
    decreases Heads(edges) - visited
  {
    if name == target {
      assert IsPath(edges, [name]);
    } else {
      var next := HasDepNext(edges, name, target, visited);
      HasDepSound(edges, next, target, visited + {name});
      var q :| IsPath(edges, q) && q[0] == next && q[|q| - 1] == target;
      Prepend(edges, name, q);
      assert ([name] + q)[0] == name;
    }
  }

  /** When `hasDep` holds for a name other than the target, some direct dependency of it has the target. */
  lemma HasDepNext(edges: seq<seq<string>>, name: string, target: string, visited: set<string>)
    returns (next: string)
    requires name != target && HasDep(edges, name, target, visited)
    ensures name in Heads(edges) && name !in visited
    ensures next in Succ(edges, name) && HasDep(edges, next, target, visited + {name})
  {
    var e := FindEdge(edges, name).value;
    assert name in Heads(edges);
    var i :| 1 <= i < |e| && HasDep(edges, e[i], target, visited + {name});
    assert e[1..][i - 1] == e[i];
    next := e[i];
  }

  /** A walk can be extended at its start by a name that has the walk's first name as a direct dependency. */
  lemma Prepend(edges: seq<seq<string>>, name: string, q: seq<string>)
    requires IsPath(edges, q) && q[0] in Succ(edges, name)
    ensures IsPath(edges, [name] + q) && ([name] + q)[|q|] == q[|q| - 1]
  {
    var p := [name] + q;
    forall k | 0 <= k < |p| - 1 ensures p[k + 1] in Succ(edges, p[k]) {
      if k > 0 {
        assert p[k] == q[k - 1] && p[k + 1] == q[k];
      }
    }
  }

  /**
   * `hasDep` finds every target at the end of a path without repeated names whose names
   * before the target are not in `visited`.
   */
  lemma {:induction false} HasDepComplete(edges: seq<seq<string>>, p: seq<string>, visited: set<string>)
    requires IsPath(edges, p) && Distinct(p)
    requires forall k :: 0 <= k < |p| - 1 ==> p[k] !in visited
    ensures HasDep(edges, p[0], p[|p| - 1], visited)
    decreases |p|
  {
    var name, target := p[0], p[|p| - 1];
    if name != target {
      assert |p| >= 2;
      assert p[1] in Succ(edges, name);
      var e := FindEdge(edges, name).value;
      var j :| 0 <= j < |e[1..]| && e[1..][j] == p[1];
      var q := p[1..];
      assert IsPath(edges, q) by {
        forall k | 0 <= k < |q| - 1 ensures q[k + 1] in Succ(edges, q[k]) {
          assert q[k] == p[k + 1] && q[k + 1] == p[k + 2];
        }
      }
      assert Distinct(q) by {
        forall a, b | 0 <= a < b < |q| ensures q[a] != q[b] {
          assert q[a] == p[a + 1] && q[b] == p[b + 1];
        }
      }
      forall k | 0 <= k < |q| - 1 ensures q[k] !in visited + {name} {
        assert q[k] == p[k + 1];
        assert p[0] != p[k + 1];
      }
      HasDepComplete(edges, q, visited + {name});
      assert q[|q| - 1] == target;
      assert e[j + 1] == p[1];
      assert HasDep(edges, e[j + 1], target, visited + {name});
    }
  }

  /** A walk with a repeated name can be cut short: some walk between the same ends has none. */
  lemma {:induction false} Shorten(edges: seq<seq<string>>, p: seq<string>)
    requires IsPath(edges, p)
    ensures exists q :: IsPath(edges, q) && Distinct(q) && q[0] == p[0] && q[|q| - 1] == p[|p| - 1]
    decreases |p|
  {
    if !Distinct(p) {
      var i, j :| 0 <= i < j < |p| && p[i] == p[j];
      CutLoop(edges, p, i, j);
      Shorten(edges, p[..i] + p[j..]);
    }
  }

  /** Cutting out the loop between two occurrences of a name leaves a walk between the same ends. */
  lemma CutLoop(edges: seq<seq<string>>, p: seq<string>, i: nat, j: nat)
    requires IsPath(edges, p)
    requires i < j < |p| && p[i] == p[j]
    ensures var q := p[..i] + p[j..];
      IsPath(edges, q) && |q| < |p| && q[0] == p[0] && q[|q| - 1] == p[|p| - 1]
  {
    var q := p[..i] + p[j..];
    assert forall k :: 0 <= k < i ==> q[k] == p[k];
    assert forall k :: i <= k < |q| ==> q[k] == p[k - i + j];
    forall k | 0 <= k < |q| - 1 ensures q[k + 1] in Succ(edges, q[k]) {
      if k + 1 < i {
        assert q[k + 1] in Succ(edges, p[k]);
      } else if k + 1 == i {
        assert q[k + 1] == p[i];
      } else {
        assert q[k + 1] == p[k + 1 - i + j];
      }
    }
  }

  /** With nothing visited, `hasDep(name, target)` holds exactly when `target` is reachable from `name`. */
  lemma HasDepIffReachable(edges: seq<seq<string>>, name: string, target: string)
    ensures HasDep(edges, name, target, {}) <==> Reachable(edges, name, target)
  {
    if HasDep(edges, name, target, {}) {
      HasDepSound(edges, name, target, {});
    }
    if Reachable(edges, name, target) {
      var p :| IsPath(edges, p) && p[0] == name && p[|p| - 1] == target;
      Shorten(edges, p);
      var q :| IsPath(edges, q) && Distinct(q) && q[0] == name && q[|q| - 1] == target;
      HasDepComplete(edges, q, {});
    }
  }
}
