/** The two depth-first path enumerations of the in-memory knowledge graph:
    `find_path` (all simple paths between two entities, bounded by depth) and
    `_find_multi_hop_paths` (every walk out of a start entity, bounded by hops).
    Each is specified by a pair of mutually recursive functions that follow the
    recursion of the source, and carried out by a search object whose fields are
    the variables the source's nested `dfs` closes over. */
module GraphPaths {
  import opened Sequences

  /** Out-neighbours in adjacency order: `adjacency.get(id, [])`. */
  function Successors(adj: map<string, seq<string>>, id: string): seq<string> {
    if id in adj then adj[id] else []
  }

  predicate Edge(adj: map<string, seq<string>>, a: string, b: string) {
    b in Successors(adj, a)
  }

  /** Every consecutive pair of `p` is an edge. */
  predicate Linked(adj: map<string, seq<string>>, p: seq<string>)
    decreases |p|
  {
    |p| <= 1 || (Linked(adj, p[..|p| - 1]) && Edge(adj, p[|p| - 2], p[|p| - 1]))
  }

  /** A path in the sense of `find_path`: from `s` to `e`, along edges, no entity twice. */
  ghost predicate SimplePath(adj: map<string, seq<string>>, s: string, e: string, p: seq<string>) {
    |p| >= 1 && p[0] == s && p[|p| - 1] == e && Linked(adj, p) && Distinct(p)
  }

  /** A path in the sense of `_find_multi_hop_paths`: from `s`, along edges, no entity
      twice except that the last one may already be on the path. */
  ghost predicate HopWalk(adj: map<string, seq<string>>, s: string, p: seq<string>) {
    |p| >= 1 && p[0] == s && Linked(adj, p) && Distinct(p[..|p| - 1])
  }

  // ---------------------------------------------------------------------------
  // Facts about Linked and Distinct
  // ---------------------------------------------------------------------------

  lemma {:induction false} LinkedAt(adj: map<string, seq<string>>, p: seq<string>, i: nat)
    requires Linked(adj, p) && i + 1 < |p|
    ensures Edge(adj, p[i], p[i + 1])
    decreases |p|
  {
    if i + 2 < |p| {
      var q := p[..|p| - 1];
      LinkedAt(adj, q, i);
      assert q[i] == p[i] && q[i + 1] == p[i + 1];
    }
  }

  lemma LinkedSnoc(adj: map<string, seq<string>>, p: seq<string>, n: string)
    requires Linked(adj, p) && |p| >= 1 && Edge(adj, p[|p| - 1], n)
    ensures Linked(adj, p + [n])
  {
    assert (p + [n])[..|p|] == p;
  }

  lemma {:induction false} LinkedPrefix(adj: map<string, seq<string>>, p: seq<string>, k: nat)
    requires Linked(adj, p) && k <= |p|
    ensures Linked(adj, p[..k])
    decreases |p| - k
  {
    if k < |p| {
      LinkedPrefix(adj, p, k + 1);
      var q := p[..k + 1];
      assert q[..|q| - 1] == p[..k];
    } else {
      assert p[..k] == p;
    }
  }

  lemma DistinctSnoc(p: seq<string>, n: string)
    requires Distinct(p) && n !in p
    ensures Distinct(p + [n])
  {
  }

  lemma DistinctLast(p: seq<string>, k: nat)
    requires Distinct(p) && 1 <= k <= |p|
    ensures p[k - 1] !in Elems(p[..k - 1])
  {
  }

  lemma DistinctPrefix(p: seq<string>, k: nat)
    requires Distinct(p) && k <= |p|
    ensures Distinct(p[..k])
  {
  }

  // ---------------------------------------------------------------------------
  // find_path
  // ---------------------------------------------------------------------------

  /** Calls left before the depth bound stops the search. */
  function Budget(bound: int, depth: nat): nat {
    if depth > bound then 0 else bound - depth + 1
  }

  /** Paths recorded by `dfs(current, target, path, depth)` with the given visited set. */
  function PathsFrom(adj: map<string, seq<string>>, target: string, maxDepth: int,
                     current: string, path: seq<string>, depth: nat, visited: set<string>): seq<seq<string>>
    decreases Budget(maxDepth, depth), 1, 0
  {
    if depth > maxDepth then []
    else if current == target then [path]
    else if current in visited then []
    else PathsAmong(adj, target, maxDepth, Successors(adj, current), path, depth, visited + {current})
  }

  /** Paths recorded by the loop over the neighbours `ns` of the last entity of `path`. */
  function PathsAmong(adj: map<string, seq<string>>, target: string, maxDepth: int,
                      ns: seq<string>, path: seq<string>, depth: nat, visited: set<string>): seq<seq<string>>
    requires depth <= maxDepth
    decreases Budget(maxDepth, depth), 0, |ns|
  {
    if ns == [] then []
    else PathsFrom(adj, target, maxDepth, ns[0], path + [ns[0]], depth + 1, visited)
         + PathsAmong(adj, target, maxDepth, ns[1..], path, depth, visited)
  }

  /** The result of `find_path(start, end, max_depth)` over adjacency `adj`. */
  function AllPaths(adj: map<string, seq<string>>, start: string, end: string, maxDepth: int): seq<seq<string>> {
    PathsFrom(adj, end, maxDepth, start, [start], 0, {})
  }

  /** State of the search at a call of `dfs`: `path` ends in `current`, has one more
      entity than the depth, and the visited set is exactly the entities before
      `current`, none twice and none the target. */
  ghost predicate PathState(adj: map<string, seq<string>>, target: string,
                            current: string, path: seq<string>, depth: nat, visited: set<string>) {
    |path| == depth + 1 && path[|path| - 1] == current && Linked(adj, path)
    && Distinct(path[..|path| - 1]) && visited == Elems(path[..|path| - 1]) && target !in visited
  }

  /** What every recorded path satisfies, relative to the path it was grown from. */
  ghost predicate FoundFrom(adj: map<string, seq<string>>, target: string, maxDepth: int,
                            path: seq<string>, q: seq<string>) {
    1 <= |path| <= |q| <= maxDepth + 1 && q[..|path|] == path && q[|q| - 1] == target
    && Linked(adj, q) && Distinct(q)
  }

  lemma {:induction false} PathsFromSound(adj: map<string, seq<string>>, target: string, maxDepth: int,
                                          current: string, path: seq<string>, depth: nat, visited: set<string>)
    requires PathState(adj, target, current, path, depth, visited)
    ensures forall q :: q in PathsFrom(adj, target, maxDepth, current, path, depth, visited) ==>
                          FoundFrom(adj, target, maxDepth, path, q)
    decreases Budget(maxDepth, depth), 1, 0
  {
    if depth > maxDepth {
    } else if current == target {
      assert path == path[..|path| - 1] + [current];
      DistinctSnoc(path[..|path| - 1], current);
    } else if current in visited {
    } else {
      assert path == path[..|path| - 1] + [current];
      DistinctSnoc(path[..|path| - 1], current);
      var ns := Successors(adj, current);
      assert forall n :: n in ns ==> Edge(adj, current, n);
      PathsAmongSound(adj, target, maxDepth, ns, path, depth, visited + {current});
    }
  }

  lemma {:induction false} PathsAmongSound(adj: map<string, seq<string>>, target: string, maxDepth: int,
                                           ns: seq<string>, path: seq<string>, depth: nat, visited: set<string>)
    requires depth <= maxDepth && |path| == depth + 1 && Linked(adj, path) && Distinct(path)
    requires visited == Elems(path) && target !in visited
    requires forall n :: n in ns ==> Edge(adj, path[|path| - 1], n)
    ensures forall q :: q in PathsAmong(adj, target, maxDepth, ns, path, depth, visited) ==>
                          FoundFrom(adj, target, maxDepth, path, q)
    decreases Budget(maxDepth, depth), 0, |ns|
  {
    if ns != [] {
      assert ns[0] in ns;
      assert forall m :: m in ns[1..] ==> m in ns;
      PathsBlockSound(adj, target, maxDepth, ns[0], path, depth, visited);
      PathsAmongSound(adj, target, maxDepth, ns[1..], path, depth, visited);
    }
  }

  /** The paths recorded below one neighbour `n`. */
  lemma {:induction false} PathsBlockSound(adj: map<string, seq<string>>, target: string, maxDepth: int,
                                           n: string, path: seq<string>, depth: nat, visited: set<string>)
    requires depth <= maxDepth && |path| == depth + 1 && Linked(adj, path) && Distinct(path)
    requires visited == Elems(path) && target !in visited
    requires Edge(adj, path[|path| - 1], n)
    ensures forall q :: q in PathsFrom(adj, target, maxDepth, n, path + [n], depth + 1, visited) ==>
                          FoundFrom(adj, target, maxDepth, path, q)
    decreases Budget(maxDepth, depth), 0, 0
  {
    var np := path + [n];
    assert np[..|np| - 1] == path;
    LinkedSnoc(adj, path, n);
    PathsFromSound(adj, target, maxDepth, n, np, depth + 1, visited);
    forall q | q in PathsFrom(adj, target, maxDepth, n, np, depth + 1, visited)
      ensures FoundFrom(adj, target, maxDepth, path, q)
    {
      assert q[..|np|][..|path|] == path;
    }
  }

  lemma {:induction false} PathsAmongContains(adj: map<string, seq<string>>, target: string, maxDepth: int,
                                              ns: seq<string>, path: seq<string>, depth: nat, visited: set<string>,
                                              n: string, q: seq<string>)
    requires depth <= maxDepth && n in ns
    requires q in PathsFrom(adj, target, maxDepth, n, path + [n], depth + 1, visited)
    ensures q in PathsAmong(adj, target, maxDepth, ns, path, depth, visited)
    decreases |ns|
  {
    if ns[0] != n {
      PathsAmongContains(adj, target, maxDepth, ns[1..], path, depth, visited, n, q);
    }
  }

  /** One step of the completeness argument for `find_path`: the search at
      `current` goes on to the next entity of the path it is to find. */
  lemma PathStep(adj: map<string, seq<string>>, target: string, maxDepth: int,
                 current: string, path: seq<string>, depth: nat, visited: set<string>, r: seq<string>)
    requires |path| == depth + 1 && path[|path| - 1] == current
    requires visited == Elems(path[..|path| - 1])
    requires r != [] && Linked(adj, path + r) && Distinct(path + r)
    requires (path + r)[|path + r| - 1] == target && |path + r| <= maxDepth + 1
    ensures current != target && current !in visited && depth < maxDepth
    ensures Edge(adj, current, r[0])
    ensures Elems(path) == visited + {current}
    ensures (path + [r[0]]) + r[1..] == path + r
    ensures (path + [r[0]])[..|path|] == path
  {
    PathFresh(path, r);
    PathEdge(adj, path, r);
    assert path == path[..|path| - 1] + [current];
  }

  lemma {:induction false} PathsFromComplete(adj: map<string, seq<string>>, target: string, maxDepth: int,
                                             current: string, path: seq<string>, depth: nat, visited: set<string>,
                                             r: seq<string>)
    requires |path| == depth + 1 && path[|path| - 1] == current
    requires visited == Elems(path[..|path| - 1])
    requires Linked(adj, path + r) && Distinct(path + r)
    requires (path + r)[|path + r| - 1] == target && |path + r| <= maxDepth + 1
    ensures path + r in PathsFrom(adj, target, maxDepth, current, path, depth, visited)
    decreases |r|
  {
    if r == [] {
      assert path + r == path;
    } else {
      PathStep(adj, target, maxDepth, current, path, depth, visited, r);
      var n := r[0];
      var np := path + [n];
      PathsFromComplete(adj, target, maxDepth, n, np, depth + 1, visited + {current}, r[1..]);
      PathsAmongContains(adj, target, maxDepth, Successors(adj, current), path, depth,
                         visited + {current}, n, path + r);
    }
  }

  /** `find_path` returns exactly the simple paths from `start` to `end` with at most
      `maxDepth` edges (as a sequence it may hold a path more than once, once per
      duplicated edge). */
  lemma FindPathExact(adj: map<string, seq<string>>, start: string, end: string, maxDepth: int)
    ensures forall p :: p in AllPaths(adj, start, end, maxDepth) <==>
                          SimplePath(adj, start, end, p) && |p| <= maxDepth + 1
  {
    PathsFromSound(adj, end, maxDepth, start, [start], 0, {});
    forall p | SimplePath(adj, start, end, p) && |p| <= maxDepth + 1
      ensures p in AllPaths(adj, start, end, maxDepth)
    {
      assert [start] + p[1..] == p;
      PathsFromComplete(adj, end, maxDepth, start, [start], 0, {}, p[1..]);
    }
    forall p | p in AllPaths(adj, start, end, maxDepth)
      ensures SimplePath(adj, start, end, p)
    {
      assert p[..1] == [start];
    }
  }

  lemma {:induction false} PathsAmongShallow(adj: map<string, seq<string>>, target: string, maxDepth: int,
                                             ns: seq<string>, path: seq<string>, depth: nat, visited: set<string>)
    requires depth == maxDepth
    ensures PathsAmong(adj, target, maxDepth, ns, path, depth, visited) == []
    decreases |ns|
  {
    if ns != [] {
      PathsAmongShallow(adj, target, maxDepth, ns[1..], path, depth, visited);
    }
  }

  /** With depth bound 0 the only path is the start itself, when it is the target. */
  lemma FindPathDepthZero(adj: map<string, seq<string>>, start: string, end: string)
    ensures AllPaths(adj, start, end, 0) == if start == end then [[start]] else []
  {
    if start != end {
      PathsAmongShallow(adj, end, 0, Successors(adj, start), [start], 0, {} + {start});
    }
  }

  /** On the two-cycle A -> B -> A the search stops and finds the one path. */
  lemma FindPathOnCycle()
    ensures AllPaths(map["A" := ["B"], "B" := ["A"]], "A", "B", 3) == [["A", "B"]]
  {
    var adj := map["A" := ["B"], "B" := ["A"]];
    var visited: set<string> := {} + {"A"};
    assert Successors(adj, "A") == ["B"];
    assert ["A"] + ["B"] == ["A", "B"];
    assert PathsFrom(adj, "B", 3, "B", ["A", "B"], 1, visited) == [["A", "B"]];
    assert ["B"][1..] == [];
    assert PathsAmong(adj, "B", 3, [], ["A"], 0, visited) == [];
    assert PathsAmong(adj, "B", 3, ["B"], ["A"], 0, visited) == [["A", "B"]];
  }

  /** A duplicated relation yields the same path twice. */
  lemma FindPathDuplicateEdge()
    ensures AllPaths(map["A" := ["B", "B"]], "A", "B", 1) == [["A", "B"], ["A", "B"]]
  {
    var adj := map["A" := ["B", "B"]];
    var visited: set<string> := {} + {"A"};
    assert Successors(adj, "A") == ["B", "B"];
    assert ["A"] + ["B"] == ["A", "B"];
    var one := PathsFrom(adj, "B", 1, "B", ["A", "B"], 1, visited);
    assert one == [["A", "B"]];
    assert ["B", "B"][1..] == ["B"] && ["B"][1..] == [];
    assert PathsAmong(adj, "B", 1, [], ["A"], 0, visited) == [];
    assert PathsAmong(adj, "B", 1, ["B"], ["A"], 0, visited) == one;
    assert PathsAmong(adj, "B", 1, ["B", "B"], ["A"], 0, visited) == one + one;
  }

  /** How many ways the adjacency lists spell out `p`: the product, over its edges,
      of how often the next entity is listed after the previous one. */
  function Multiplicity(adj: map<string, seq<string>>, p: seq<string>): nat
    decreases |p|
  {
    if |p| <= 1 then 1 else Count(Successors(adj, p[0]), p[1]) * Multiplicity(adj, p[1..])
  }

  /** Every path recorded below `path` extends it. */
  lemma {:induction false} PathsFromPrefix(adj: map<string, seq<string>>, target: string, maxDepth: int,
                                           current: string, path: seq<string>, depth: nat, visited: set<string>)
    ensures forall q :: q in PathsFrom(adj, target, maxDepth, current, path, depth, visited) ==>
                          |path| <= |q| && q[..|path|] == path
    decreases Budget(maxDepth, depth), 1, 0
  {
    if depth <= maxDepth && current != target && current !in visited {
      PathsAmongPrefix(adj, target, maxDepth, Successors(adj, current), path, depth, visited + {current});
    }
  }

  /** Every path recorded by the loop over `ns` extends `path` by one of `ns`. */
  lemma {:induction false} PathsAmongPrefix(adj: map<string, seq<string>>, target: string, maxDepth: int,
                                            ns: seq<string>, path: seq<string>, depth: nat, visited: set<string>)
    requires depth <= maxDepth
    ensures forall q :: q in PathsAmong(adj, target, maxDepth, ns, path, depth, visited) ==>
                          |path| < |q| && q[|path|] in ns && q[..|path|] == path
    decreases Budget(maxDepth, depth), 0, |ns|
  {
    if ns != [] {
      var np := path + [ns[0]];
      PathsFromPrefix(adj, target, maxDepth, ns[0], np, depth + 1, visited);
      PathsAmongPrefix(adj, target, maxDepth, ns[1..], path, depth, visited);
      forall q | q in PathsFrom(adj, target, maxDepth, ns[0], np, depth + 1, visited)
        ensures |path| < |q| && q[|path|] in ns && q[..|path|] == path
      {
        assert q[..|np|][..|path|] == path && q[..|np|][|path|] == ns[0];
      }
      assert forall m :: m in ns[1..] ==> m in ns;
    }
  }

  /** A path through `n` is not recorded below a different neighbour `m`. */
  lemma OtherNeighbourMisses(adj: map<string, seq<string>>, target: string, maxDepth: int,
                             path: seq<string>, depth: nat, visited: set<string>, m: string, n: string,
                             q: seq<string>)
    requires m != n && |path| < |q| && q[..|path| + 1] == path + [n]
    ensures Count(PathsFrom(adj, target, maxDepth, m, path + [m], depth + 1, visited), q) == 0
  {
    PathsFromPrefix(adj, target, maxDepth, m, path + [m], depth + 1, visited);
    assert q[..|path| + 1] != path + [m] by {
      assert q[..|path| + 1][|path|] == n;
    }
  }

  /** The loop over `ns` records a path through `n` once per occurrence of `n` in `ns`. */
  lemma {:induction false} PathsAmongCount(adj: map<string, seq<string>>, target: string, maxDepth: int,
                                           ns: seq<string>, path: seq<string>, depth: nat, visited: set<string>,
                                           n: string, q: seq<string>)
    requires depth <= maxDepth
    requires |path| < |q| && q[..|path| + 1] == path + [n]
    ensures Count(PathsAmong(adj, target, maxDepth, ns, path, depth, visited), q)
            == Count(ns, n) * Count(PathsFrom(adj, target, maxDepth, n, path + [n], depth + 1, visited), q)
    decreases |ns|
  {
    if ns == [] {
      assert Count(ns, n) == 0;
    } else {
      var m := ns[0];
      var c := Count(PathsFrom(adj, target, maxDepth, n, path + [n], depth + 1, visited), q);
      var head := PathsFrom(adj, target, maxDepth, m, path + [m], depth + 1, visited);
      var rest := PathsAmong(adj, target, maxDepth, ns[1..], path, depth, visited);
      assert PathsAmong(adj, target, maxDepth, ns, path, depth, visited) == head + rest;
      PathsAmongCount(adj, target, maxDepth, ns[1..], path, depth, visited, n, q);
      CountAppend(head, rest, q);
      assert ns == [m] + ns[1..];
      CountCons(m, ns[1..], n);
      if m != n {
        OtherNeighbourMisses(adj, target, maxDepth, path, depth, visited, m, n, q);
      }
      CountStep(Count(head + rest, q), Count(head, q), Count(rest, q), Count(ns[1..], n), Count(ns, n), c, m == n);
    }
  }

  /** The arithmetic of one step of `PathsAmongCount`. */
  lemma CountStep(total: int, hc: int, rc: int, kn: int, cn: int, c: int, hit: bool)
    requires total == hc + rc && rc == kn * c
    requires cn == (if hit then 1 else 0) + kn && hc == (if hit then c else 0)
    ensures total == cn * c
  {
    if hit {
      assert (1 + kn) * c == c + kn * c;
    }
  }

  /** From a search state on the way to a simple path `path + r`, the search records
      that path as many times as the adjacency lists spell out the rest of it. */
  lemma {:induction false} PathsFromCount(adj: map<string, seq<string>>, target: string, maxDepth: int,
                                          current: string, path: seq<string>, depth: nat, visited: set<string>,
                                          r: seq<string>)
    requires |path| == depth + 1 && path[|path| - 1] == current
    requires visited == Elems(path[..|path| - 1])
    requires Linked(adj, path + r) && Distinct(path + r)
    requires (path + r)[|path + r| - 1] == target && |path + r| <= maxDepth + 1
    ensures Count(PathsFrom(adj, target, maxDepth, current, path, depth, visited), path + r)
            == Multiplicity(adj, [current] + r)
    decreases |r|
  {
    if r == [] {
      assert path + r == path;
      assert [path][..0] == [];
    } else {
      PathStep(adj, target, maxDepth, current, path, depth, visited, r);
      var n := r[0];
      var np := path + [n];
      assert np[..|np| - 1] == path;
      PathsFromCount(adj, target, maxDepth, n, np, depth + 1, visited + {current}, r[1..]);
      assert (path + r)[..|path| + 1] == np;
      PathsAmongCount(adj, target, maxDepth, Successors(adj, current), path, depth, visited + {current},
                      n, path + r);
      assert PathsFrom(adj, target, maxDepth, current, path, depth, visited)
             == PathsAmong(adj, target, maxDepth, Successors(adj, current), path, depth, visited + {current});
      var cr := [current] + r;
      assert cr[0] == current && cr[1] == n && cr[1..] == r;
      assert r == [n] + r[1..];
      assert Multiplicity(adj, cr) == Count(Successors(adj, current), n) * Multiplicity(adj, r);
    }
  }

  /** `find_path` returns every simple path within the depth bound once per way the
      adjacency lists spell it out: a relation added twice doubles the paths through it. */
  lemma FindPathMultiplicity(adj: map<string, seq<string>>, start: string, end: string, maxDepth: int,
                             p: seq<string>)
    requires SimplePath(adj, start, end, p) && |p| <= maxDepth + 1
    ensures Count(AllPaths(adj, start, end, maxDepth), p) == Multiplicity(adj, p)
  {
    var r := p[1..];
    assert [start] + r == p;
    assert [start][..0] == [];
    PathsFromCount(adj, end, maxDepth, start, [start], 0, {}, r);
  }

  /** A direct connection appears once per relation listed from `s` to `t`. */
  lemma FindPathDirectCount(adj: map<string, seq<string>>, s: string, t: string, maxDepth: int)
    requires s != t && maxDepth >= 1
    ensures Count(AllPaths(adj, s, t, maxDepth), [s, t]) == Count(Successors(adj, s), t)
  {
    if Edge(adj, s, t) {
      var p := [s, t];
      assert p[..1] == [s];
      FindPathMultiplicity(adj, s, t, maxDepth, p);
      assert p[1..] == [t];
    } else {
      FindPathExact(adj, s, t, maxDepth);
    }
  }

  // ---------------------------------------------------------------------------
  // _find_multi_hop_paths
  // ---------------------------------------------------------------------------

  function HopBudget(maxHops: int, depth: nat): nat {
    if depth >= maxHops then 0 else maxHops - depth
  }

  /** Paths recorded by `dfs(current, path, depth)` with the given visited set. */
  function HopsFrom(adj: map<string, seq<string>>, maxHops: int,
                    current: string, path: seq<string>, depth: nat, visited: set<string>): seq<seq<string>>
    decreases HopBudget(maxHops, depth), 1, 0
  {
    if depth >= maxHops then []
    else if current in visited then []
    else HopsAmong(adj, maxHops, Successors(adj, current), path, depth, visited + {current})
  }

  /** Paths recorded by the loop over neighbours `ns`: each extended path is recorded
      before the search descends into it. */
  function HopsAmong(adj: map<string, seq<string>>, maxHops: int,
                     ns: seq<string>, path: seq<string>, depth: nat, visited: set<string>): seq<seq<string>>
    requires depth < maxHops
    decreases HopBudget(maxHops, depth), 0, |ns|
  {
    if ns == [] then []
    else
      var np := path + [ns[0]];
      [np] + HopsFrom(adj, maxHops, ns[0], np, depth + 1, visited)
      + HopsAmong(adj, maxHops, ns[1..], path, depth, visited)
  }

  /** The result of `_find_multi_hop_paths(start, max_hops)` over adjacency `adj`. */
  function HopPaths(adj: map<string, seq<string>>, start: string, maxHops: int): seq<seq<string>> {
    HopsFrom(adj, maxHops, start, [start], 0, {})
  }

  /** Every recorded path strictly extends the path it was grown from. */
  lemma {:induction false} HopsFromExtend(adj: map<string, seq<string>>, maxHops: int,
                                          current: string, path: seq<string>, depth: nat, visited: set<string>)
    ensures forall q :: q in HopsFrom(adj, maxHops, current, path, depth, visited) ==>
                          |q| > |path| && q[..|path|] == path
    decreases HopBudget(maxHops, depth), 1, 0
  {
    if depth < maxHops && current !in visited {
      HopsAmongExtend(adj, maxHops, Successors(adj, current), path, depth, visited + {current});
    }
  }

  lemma {:induction false} HopsAmongExtend(adj: map<string, seq<string>>, maxHops: int,
                                           ns: seq<string>, path: seq<string>, depth: nat, visited: set<string>)
    requires depth < maxHops
    ensures forall q :: q in HopsAmong(adj, maxHops, ns, path, depth, visited) ==>
                          |q| > |path| && q[..|path|] == path
    decreases HopBudget(maxHops, depth), 0, |ns|
  {
    if ns != [] {
      var np := path + [ns[0]];
      HopsFromExtend(adj, maxHops, ns[0], np, depth + 1, visited);
      HopsAmongExtend(adj, maxHops, ns[1..], path, depth, visited);
      forall q | q in HopsFrom(adj, maxHops, ns[0], np, depth + 1, visited)
        ensures q[..|path|] == path
      {
        assert q[..|np|][..|path|] == path;
      }
    }
  }

  /** State of the multi-hop search at a call of `dfs`. */
  ghost predicate HopState(adj: map<string, seq<string>>, current: string, path: seq<string>,
                           depth: nat, visited: set<string>) {
    |path| == depth + 1 && path[|path| - 1] == current && Linked(adj, path)
    && Distinct(path[..|path| - 1]) && visited == Elems(path[..|path| - 1])
  }

  ghost predicate HopFoundFrom(adj: map<string, seq<string>>, maxHops: int, path: seq<string>, q: seq<string>) {
    1 <= |path| < |q| <= maxHops + 1 && q[..|path|] == path && Linked(adj, q) && Distinct(q[..|q| - 1])
  }

  lemma {:induction false} HopsFromSound(adj: map<string, seq<string>>, maxHops: int,
                                         current: string, path: seq<string>, depth: nat, visited: set<string>)
    requires HopState(adj, current, path, depth, visited)
    ensures forall q :: q in HopsFrom(adj, maxHops, current, path, depth, visited) ==>
                          HopFoundFrom(adj, maxHops, path, q)
    decreases HopBudget(maxHops, depth), 1, 0
  {
    if depth < maxHops && current !in visited {
      assert path == path[..|path| - 1] + [current];
      DistinctSnoc(path[..|path| - 1], current);
      var ns := Successors(adj, current);
      assert forall n :: n in ns ==> Edge(adj, current, n);
      HopsAmongSound(adj, maxHops, ns, path, depth, visited + {current});
    }
  }

  lemma {:induction false} HopsAmongSound(adj: map<string, seq<string>>, maxHops: int,
                                          ns: seq<string>, path: seq<string>, depth: nat, visited: set<string>)
    requires depth < maxHops && |path| == depth + 1 && Linked(adj, path) && Distinct(path)
    requires visited == Elems(path)
    requires forall n :: n in ns ==> Edge(adj, path[|path| - 1], n)
    ensures forall q :: q in HopsAmong(adj, maxHops, ns, path, depth, visited) ==>
                          HopFoundFrom(adj, maxHops, path, q)
    decreases HopBudget(maxHops, depth), 0, |ns|
  {
    if ns != [] {
      assert ns[0] in ns;
      assert forall m :: m in ns[1..] ==> m in ns;
      HopsBlockSound(adj, maxHops, ns[0], path, depth, visited);
      HopsAmongSound(adj, maxHops, ns[1..], path, depth, visited);
    }
  }

  /** The paths recorded for one neighbour `n`: `path + [n]` and those below it. */
  lemma {:induction false} HopsBlockSound(adj: map<string, seq<string>>, maxHops: int,
                                          n: string, path: seq<string>, depth: nat, visited: set<string>)
    requires depth < maxHops && |path| == depth + 1 && Linked(adj, path) && Distinct(path)
    requires visited == Elems(path) && Edge(adj, path[|path| - 1], n)
    ensures HopFoundFrom(adj, maxHops, path, path + [n])
    ensures forall q :: q in HopsFrom(adj, maxHops, n, path + [n], depth + 1, visited) ==>
                          HopFoundFrom(adj, maxHops, path, q)
    decreases HopBudget(maxHops, depth), 0, 0
  {
    var np := path + [n];
    assert np[..|np| - 1] == path;
    assert np[..|path|] == path;
    LinkedSnoc(adj, path, n);
    HopsFromSound(adj, maxHops, n, np, depth + 1, visited);
    forall q | q in HopsFrom(adj, maxHops, n, np, depth + 1, visited)
      ensures HopFoundFrom(adj, maxHops, path, q)
    {
      assert q[..|np|][..|path|] == path;
    }
  }

  lemma {:induction false} HopsAmongContains(adj: map<string, seq<string>>, maxHops: int,
                                             ns: seq<string>, path: seq<string>, depth: nat, visited: set<string>,
                                             n: string, q: seq<string>)
    requires depth < maxHops && n in ns
    requires q == path + [n] || q in HopsFrom(adj, maxHops, n, path + [n], depth + 1, visited)
    ensures q in HopsAmong(adj, maxHops, ns, path, depth, visited)
    decreases |ns|
  {
    if ns[0] != n {
      HopsAmongContains(adj, maxHops, ns[1..], path, depth, visited, n, q);
    }
  }

  /** One step of the completeness argument for `_find_multi_hop_paths`. */
  lemma HopStep(adj: map<string, seq<string>>, maxHops: int,
                current: string, path: seq<string>, depth: nat, visited: set<string>, r: seq<string>)
    requires |path| == depth + 1 && path[|path| - 1] == current
    requires visited == Elems(path[..|path| - 1])
    requires |r| >= 1 && Linked(adj, path + r) && Distinct((path + r)[..|path + r| - 1])
    requires |path + r| <= maxHops + 1
    ensures current !in visited && depth < maxHops
    ensures Edge(adj, current, r[0])
    ensures Elems(path) == visited + {current}
    ensures (path + [r[0]]) + r[1..] == path + r
    ensures (path + [r[0]])[..|path|] == path
  {
    HopFresh(path, r);
    PathEdge(adj, path, r);
    assert path == path[..|path| - 1] + [current];
  }

  lemma PathFresh(path: seq<string>, r: seq<string>)
    requires |path| >= 1 && |r| >= 1 && Distinct(path + r)
    ensures path[|path| - 1] !in Elems(path[..|path| - 1])
    ensures path[|path| - 1] != r[|r| - 1]
  {
    var p := path + r;
    assert p[|path| - 1] == path[|path| - 1] && p[|p| - 1] == r[|r| - 1];
    assert path[..|path| - 1] == p[..|path| - 1];
    DistinctLast(p, |path|);
  }

  lemma HopFresh(path: seq<string>, r: seq<string>)
    requires |path| >= 1 && |r| >= 1 && Distinct((path + r)[..|path + r| - 1])
    ensures path[|path| - 1] !in Elems(path[..|path| - 1])
  {
    var init := (path + r)[..|path + r| - 1];
    assert path[..|path| - 1] == init[..|path| - 1] && init[|path| - 1] == path[|path| - 1];
    DistinctLast(init, |path|);
  }

  lemma PathEdge(adj: map<string, seq<string>>, path: seq<string>, r: seq<string>)
    requires |path| >= 1 && |r| >= 1 && Linked(adj, path + r)
    ensures Edge(adj, path[|path| - 1], r[0])
  {
    var p := path + r;
    assert p[|path| - 1] == path[|path| - 1] && p[|path|] == r[0];
    LinkedAt(adj, p, |path| - 1);
  }

  lemma {:induction false} HopsFromComplete(adj: map<string, seq<string>>, maxHops: int,
                                            current: string, path: seq<string>, depth: nat, visited: set<string>,
                                            r: seq<string>)
    requires |path| == depth + 1 && path[|path| - 1] == current
    requires visited == Elems(path[..|path| - 1])
    requires |r| >= 1 && Linked(adj, path + r) && Distinct((path + r)[..|path + r| - 1])
    requires |path + r| <= maxHops + 1
    ensures path + r in HopsFrom(adj, maxHops, current, path, depth, visited)
    decreases |r|
  {
    HopStep(adj, maxHops, current, path, depth, visited, r);
    var n := r[0];
    var np := path + [n];
    if |r| == 1 {
      assert path + r == np;
    } else {
      HopsFromComplete(adj, maxHops, n, np, depth + 1, visited + {current}, r[1..]);
    }
    HopsAmongContains(adj, maxHops, Successors(adj, current), path, depth, visited + {current}, n, path + r);
  }

  /** `_find_multi_hop_paths` returns exactly the walks out of `start` with between one
      and `maxHops` hops that repeat no entity before their last; none at all when
      `maxHops <= 0`. */
  lemma HopPathsExact(adj: map<string, seq<string>>, start: string, maxHops: int)
    ensures forall p :: p in HopPaths(adj, start, maxHops) <==>
                          HopWalk(adj, start, p) && 2 <= |p| <= maxHops + 1
    ensures maxHops <= 0 ==> HopPaths(adj, start, maxHops) == []
  {
    HopsFromSound(adj, maxHops, start, [start], 0, {});
    forall p | HopWalk(adj, start, p) && 2 <= |p| <= maxHops + 1
      ensures p in HopPaths(adj, start, maxHops)
    {
      assert [start] + p[1..] == p;
      HopsFromComplete(adj, maxHops, start, [start], 0, {}, p[1..]);
    }
    forall p | p in HopPaths(adj, start, maxHops)
      ensures HopWalk(adj, start, p)
    {
      assert p[..1] == [start];
    }
  }

  /** The path at index `i` of `out`, when it is longer than `base + 1` entities, has
      the path it extends by one entity somewhere before it. */
  ghost predicate ParentBefore(out: seq<seq<string>>, i: nat, base: nat)
    requires i < |out|
  {
    |out[i]| > base + 1 ==> exists j :: 0 <= j < i && out[j] == out[i][..|out[i]| - 1]
  }

  /** Paths are recorded in pre-order: every path longer than `base + 1` entities
      comes after the path it extends. */
  ghost predicate PreOrder(out: seq<seq<string>>, base: nat) {
    forall i :: 0 <= i < |out| ==> ParentBefore(out, i, base)
  }

  lemma {:induction false} HopsFromPreOrder(adj: map<string, seq<string>>, maxHops: int,
                                            current: string, path: seq<string>, depth: nat, visited: set<string>)
    ensures PreOrder(HopsFrom(adj, maxHops, current, path, depth, visited), |path|)
    decreases HopBudget(maxHops, depth), 1, 0
  {
    if depth < maxHops && current !in visited {
      HopsAmongPreOrder(adj, maxHops, Successors(adj, current), path, depth, visited + {current});
    }
  }

  lemma PreOrderConcat(a: seq<seq<string>>, b: seq<seq<string>>, base: nat)
    requires PreOrder(a, base) && PreOrder(b, base)
    ensures PreOrder(a + b, base)
  {
    var out := a + b;
    forall i | 0 <= i < |out|
      ensures ParentBefore(out, i, base)
    {
      if i < |a| {
        assert out[i] == a[i] && ParentBefore(a, i, base);
        if |out[i]| > base + 1 {
          var j :| 0 <= j < i && a[j] == a[i][..|a[i]| - 1];
          assert out[j] == a[j];
        }
      } else {
        var k := i - |a|;
        assert out[i] == b[k] && ParentBefore(b, k, base);
        if |out[i]| > base + 1 {
          var j :| 0 <= j < k && b[j] == b[k][..|b[k]| - 1];
          assert out[j + |a|] == b[j];
        }
      }
    }
  }

  lemma PreOrderHead(np: seq<string>, f: seq<seq<string>>, base: nat)
    requires |np| == base + 1 && PreOrder(f, base + 1)
    requires forall q :: q in f ==> |q| > |np| && q[..|np|] == np
    ensures PreOrder([np] + f, base)
  {
    var out := [np] + f;
    forall i | 0 <= i < |out|
      ensures ParentBefore(out, i, base)
    {
      if i > 0 && |out[i]| > base + 1 {
        var q := f[i - 1];
        assert out[i] == q && q in f;
        assert ParentBefore(f, i - 1, base + 1);
        if |q| > |np| + 1 {
          var j :| 0 <= j < i - 1 && f[j] == q[..|q| - 1];
          assert out[j + 1] == f[j];
        } else {
          assert q[..|q| - 1] == q[..|np|];
          assert out[0] == np;
        }
      }
    }
  }

  lemma {:induction false} HopsAmongPreOrder(adj: map<string, seq<string>>, maxHops: int,
                                             ns: seq<string>, path: seq<string>, depth: nat, visited: set<string>)
    requires depth < maxHops
    ensures PreOrder(HopsAmong(adj, maxHops, ns, path, depth, visited), |path|)
    decreases HopBudget(maxHops, depth), 0, |ns|
  {
    if ns != [] {
      var np := path + [ns[0]];
      var f := HopsFrom(adj, maxHops, ns[0], np, depth + 1, visited);
      var rest := HopsAmong(adj, maxHops, ns[1..], path, depth, visited);
      HopsFromPreOrder(adj, maxHops, ns[0], np, depth + 1, visited);
      HopsFromExtend(adj, maxHops, ns[0], np, depth + 1, visited);
      PreOrderHead(np, f, |path|);
      HopsAmongPreOrder(adj, maxHops, ns[1..], path, depth, visited);
      PreOrderConcat([np] + f, rest, |path|);
    }
  }

  /** Every recorded path of two or more hops comes after the path it extends. */
  lemma HopPathsPreOrder(adj: map<string, seq<string>>, start: string, maxHops: int)
    ensures PreOrder(HopPaths(adj, start, maxHops), 1)
  {
    HopsFromPreOrder(adj, maxHops, start, [start], 0, {});
  }

  lemma SeqAssoc(a: seq<seq<string>>, b: seq<seq<string>>, c: seq<seq<string>>)
    ensures a + (b + c) == (a + b) + c
  {
  }

  lemma PathsAmongStep(adj: map<string, seq<string>>, target: string, maxDepth: int,
                       ns: seq<string>, k: nat, path: seq<string>, depth: nat, visited: set<string>)
    requires depth <= maxDepth && k < |ns|
    ensures PathsAmong(adj, target, maxDepth, ns[k..], path, depth, visited)
            == PathsFrom(adj, target, maxDepth, ns[k], path + [ns[k]], depth + 1, visited)
               + PathsAmong(adj, target, maxDepth, ns[k + 1..], path, depth, visited)
  {
    assert ns[k..][1..] == ns[k + 1..];
  }

  lemma HopsAmongStep(adj: map<string, seq<string>>, maxHops: int,
                      ns: seq<string>, k: nat, path: seq<string>, depth: nat, visited: set<string>)
    requires depth < maxHops && k < |ns|
    ensures HopsAmong(adj, maxHops, ns[k..], path, depth, visited)
            == [path + [ns[k]]] + (HopsFrom(adj, maxHops, ns[k], path + [ns[k]], depth + 1, visited)
               + HopsAmong(adj, maxHops, ns[k + 1..], path, depth, visited))
  {
    assert ns[k..][1..] == ns[k + 1..];
  }

  // ---------------------------------------------------------------------------
  // The searches, as the source carries them out
  // ---------------------------------------------------------------------------

  /** The variables `find_path`'s inner `dfs` shares: the list of found paths, the
      visited set and the path buffer it appends to and pops from. */
  class PathSearch {
    const adjacency: map<string, seq<string>>
    const target: string
    const maxDepth: int
    var path: seq<string>
    var visited: set<string>
    var paths: seq<seq<string>>

    constructor (adjacency: map<string, seq<string>>, start: string, target: string, maxDepth: int)
      ensures this.adjacency == adjacency && this.target == target && this.maxDepth == maxDepth
      ensures path == [start] && visited == {} && paths == []
    {
      this.adjacency := adjacency;
      this.target := target;
      this.maxDepth := maxDepth;
      path := [start];
      visited := {};
      paths := [];
    }

    /** `dfs(current, target, path, depth)`: records the paths below `current` and
        leaves the path buffer and the visited set as it found them. */
    method Dfs(current: string, depth: nat)
      modifies this
      ensures path == old(path) && visited == old(visited)
      ensures paths == old(paths) + PathsFrom(adjacency, target, maxDepth, current, old(path), depth, old(visited))
      decreases Budget(maxDepth, depth), 1
    {
      if depth > maxDepth {
        return;
      }
      if current == target {
        paths := paths + [path];
        return;
      }
      if current in visited {
        return;
      }
      visited := visited + {current};
      var ns := Successors(adjacency, current);
      var k := 0;
      ghost var total := old(paths) + PathsFrom(adjacency, target, maxDepth, current, old(path), depth, old(visited));
      assert ns[0..] == ns;
      while k < |ns|
        invariant 0 <= k <= |ns|
        invariant path == old(path) && visited == old(visited) + {current}
        invariant paths + PathsAmong(adjacency, target, maxDepth, ns[k..], path, depth, visited) == total
      {
        PathsAmongStep(adjacency, target, maxDepth, ns, k, path, depth, visited);
        ghost var before := paths;
        var saved := path;
        path := path + [ns[k]];
        Dfs(ns[k], depth + 1);
        assert path == saved + [ns[k]];
        path := saved;
        SeqAssoc(before, PathsFrom(adjacency, target, maxDepth, ns[k], saved + [ns[k]], depth + 1, visited),
                 PathsAmong(adjacency, target, maxDepth, ns[k + 1..], saved, depth, visited));
        k := k + 1;
      }
      visited := visited - {current};
    }
  }

  /** The variables `_find_multi_hop_paths`'s inner `dfs` shares: the found paths and
      the visited set (the path itself is passed by value). */
  class HopSearch {
    const adjacency: map<string, seq<string>>
    const maxHops: int
    var visited: set<string>
    var paths: seq<seq<string>>

    constructor (adjacency: map<string, seq<string>>, maxHops: int)
      ensures this.adjacency == adjacency && this.maxHops == maxHops
      ensures visited == {} && paths == []
    {
      this.adjacency := adjacency;
      this.maxHops := maxHops;
      visited := {};
      paths := [];
    }

    /** `dfs(current, path, depth)`: records every extension of `path` below `current`
        and leaves the visited set as it found it. */
    method Dfs(current: string, path: seq<string>, depth: nat)
      modifies this
      ensures visited == old(visited)
      ensures paths == old(paths) + HopsFrom(adjacency, maxHops, current, path, depth, old(visited))
      decreases HopBudget(maxHops, depth), 1
    {
      if depth >= maxHops {
        return;
      }
      if current in visited {
        return;
      }
      visited := visited + {current};
      var ns := Successors(adjacency, current);
      var k := 0;
      ghost var total := old(paths) + HopsFrom(adjacency, maxHops, current, path, depth, old(visited));
      assert ns[0..] == ns;
      while k < |ns|
        invariant 0 <= k <= |ns|
        invariant visited == old(visited) + {current}
        invariant paths + HopsAmong(adjacency, maxHops, ns[k..], path, depth, visited) == total
      {
        HopsAmongStep(adjacency, maxHops, ns, k, path, depth, visited);
        ghost var before := paths;
        var newPath := path + [ns[k]];
        paths := paths + [newPath];
        Dfs(ns[k], newPath, depth + 1);
        SeqAssoc(before + [newPath], HopsFrom(adjacency, maxHops, ns[k], newPath, depth + 1, visited),
                 HopsAmong(adjacency, maxHops, ns[k + 1..], path, depth, visited));
        SeqAssoc(before, [newPath], HopsFrom(adjacency, maxHops, ns[k], newPath, depth + 1, visited)
                 + HopsAmong(adjacency, maxHops, ns[k + 1..], path, depth, visited));
        k := k + 1;
      }
      visited := visited - {current};
    }
  }
}
