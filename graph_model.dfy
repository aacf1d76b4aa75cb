/** The in-memory knowledge graph: entities keyed by id (in insertion order, as a
    Python dict keeps them), the list of relations, and the adjacency lists that
    `add_relation` keeps in step with the relations. */
module GraphModel {
  import opened Wrappers
  import opened Sequences
  import opened Values
  import opened GraphPaths

  datatype Entity = Entity(id: string, name: string, entityType: string, properties: Value)

  datatype Relation = Relation(id: string, sourceId: string, targetId: string, relationType: string,
                               properties: Value, weight: real)

  /** A value view of the graph: `order` lists the keys of `entities` in insertion order. */
  datatype GraphState = GraphState(entities: map<string, Entity>, order: seq<string>,
                                   relations: seq<Relation>, adjacency: map<string, seq<string>>)

  function EmptyGraph(): GraphState {
    GraphState(map[], [], [], map[])
  }

  /** Targets of the relations out of `s`, in the order the relations were added. */
  function TargetsFrom(rels: seq<Relation>, s: string): (ts: seq<string>)
    ensures |ts| <= |rels|
  {
    if rels == [] then []
    else
      var last := rels[|rels| - 1];
      TargetsFrom(rels[..|rels| - 1], s) + (if last.sourceId == s then [last.targetId] else [])
  }

  /** `s` is the source or the target of some relation. */
  predicate Endpoint(rels: seq<Relation>, s: string) {
    exists i :: 0 <= i < |rels| && (rels[i].sourceId == s || rels[i].targetId == s)
  }

  /** The invariant the graph's operations keep: the entity order lists each key once,
      each entity is stored under its own id, the adjacency has a list exactly for the
      entities and the relation endpoints, and each list holds the targets of the
      relations out of its key, in order. */
  ghost predicate Consistent(g: GraphState) {
    Distinct(g.order)
    && (forall k :: k in g.entities <==> k in g.order)
    && (forall k :: k in g.entities ==> g.entities[k].id == k)
    && (forall s :: s in g.adjacency <==> s in g.entities || Endpoint(g.relations, s))
    && (forall s :: s in g.adjacency ==> g.adjacency[s] == TargetsFrom(g.relations, s))
  }

  /** `add_entity`: store under the id (a known id keeps its place) and give the id an
      adjacency list unless it has one. */
  function AddEntityS(g: GraphState, e: Entity): GraphState {
    GraphState(g.entities[e.id := e],
               if e.id in g.entities then g.order else g.order + [e.id],
               g.relations,
               if e.id in g.adjacency then g.adjacency else g.adjacency[e.id := []])
  }

  function EnsureKey(adj: map<string, seq<string>>, k: string): (r: map<string, seq<string>>)
    ensures k in r && r.Keys == adj.Keys + {k}
    ensures forall s :: s in adj ==> r[s] == adj[s]
  {
    if k in adj then adj else adj[k := []]
  }

  /** `add_relation`: append the relation, give both endpoints an adjacency list and
      append the target to the source's list. */
  function AddRelationS(g: GraphState, r: Relation): GraphState {
    var adj := EnsureKey(EnsureKey(g.adjacency, r.sourceId), r.targetId);
    GraphState(g.entities, g.order, g.relations + [r],
               adj[r.sourceId := adj[r.sourceId] + [r.targetId]])
  }

  lemma EmptyConsistent()
    ensures Consistent(EmptyGraph())
  {
  }

  lemma {:induction false} TargetsFromNotSource(rels: seq<Relation>, s: string)
    requires !Endpoint(rels, s)
    ensures TargetsFrom(rels, s) == []
  {
    if rels != [] {
      var init := rels[..|rels| - 1];
      assert forall i :: 0 <= i < |init| ==> init[i] == rels[i];
      TargetsFromNotSource(init, s);
    }
  }

  lemma TargetsFromSnoc(rels: seq<Relation>, r: Relation, s: string)
    ensures TargetsFrom(rels + [r], s) == TargetsFrom(rels, s) + (if r.sourceId == s then [r.targetId] else [])
  {
    assert (rels + [r])[..|rels|] == rels;
  }

  lemma EndpointSnoc(rels: seq<Relation>, r: Relation, s: string)
    ensures Endpoint(rels + [r], s) <==> Endpoint(rels, s) || r.sourceId == s || r.targetId == s
  {
    var rs := rels + [r];
    if Endpoint(rels, s) {
      var i :| 0 <= i < |rels| && (rels[i].sourceId == s || rels[i].targetId == s);
      assert rs[i] == rels[i];
    }
    if r.sourceId == s || r.targetId == s {
      assert rs[|rels|] == r;
    }
    if Endpoint(rs, s) {
      var i :| 0 <= i < |rs| && (rs[i].sourceId == s || rs[i].targetId == s);
      if i < |rels| {
        assert rs[i] == rels[i];
      }
    }
  }

  /** `add_entity` keeps the invariant. */
  lemma AddEntityConsistent(g: GraphState, e: Entity)
    requires Consistent(g)
    ensures Consistent(AddEntityS(g, e))
  {
    if e.id !in g.adjacency {
      TargetsFromNotSource(g.relations, e.id);
    }
    if e.id !in g.entities {
      DistinctSnoc(g.order, e.id);
    }
  }

  /** `add_relation` keeps the invariant. */
  lemma AddRelationConsistent(g: GraphState, r: Relation)
    requires Consistent(g)
    ensures Consistent(AddRelationS(g, r))
  {
    var g' := AddRelationS(g, r);
    forall s
      ensures s in g'.adjacency <==> s in g'.entities || Endpoint(g'.relations, s)
    {
      EndpointSnoc(g.relations, r, s);
    }
    forall s | s in g'.adjacency
      ensures g'.adjacency[s] == TargetsFrom(g'.relations, s)
    {
      TargetsFromSnoc(g.relations, r, s);
      if s !in g.adjacency {
        TargetsFromNotSource(g.relations, s);
      }
    }
  }

  /** `add_entity` leaves every entity's out-neighbours as they were: a known id keeps
      its adjacency list, a new one gets an empty list. */
  lemma AddEntityKeepsEdges(g: GraphState, e: Entity, s: string)
    ensures Successors(AddEntityS(g, e).adjacency, s) == Successors(g.adjacency, s)
  {
  }

  /** `add_relation` adds exactly one out-neighbour, at the end of the source's list. */
  lemma AddRelationEdges(g: GraphState, r: Relation, s: string)
    ensures Successors(AddRelationS(g, r).adjacency, s)
            == Successors(g.adjacency, s) + (if s == r.sourceId then [r.targetId] else [])
  {
  }

  /** Adding the same entity twice is the same as adding it once. */
  lemma AddEntityIdempotent(g: GraphState, e: Entity)
    ensures AddEntityS(AddEntityS(g, e), e) == AddEntityS(g, e)
  {
  }

  /** Number of relations from `s` to `t`. */
  function CountRelations(rels: seq<Relation>, s: string, t: string): nat {
    if rels == [] then 0
    else
      var last := rels[|rels| - 1];
      CountRelations(rels[..|rels| - 1], s, t) + (if last.sourceId == s && last.targetId == t then 1 else 0)
  }

  lemma {:induction false} CountTargets(rels: seq<Relation>, s: string, t: string)
    ensures Count(TargetsFrom(rels, s), t) == CountRelations(rels, s, t)
  {
    if rels != [] {
      var init := rels[..|rels| - 1];
      var last := rels[|rels| - 1];
      CountTargets(init, s, t);
      var extra := if last.sourceId == s then [last.targetId] else [];
      CountAppend(TargetsFrom(init, s), extra, t);
    }
  }

  /** In a consistent graph `t` occurs among the out-neighbours of `s` once per
      relation from `s` to `t`: a duplicated relation is a duplicated edge. */
  lemma NeighbourMultiplicity(g: GraphState, s: string, t: string)
    requires Consistent(g)
    ensures Count(Successors(g.adjacency, s), t) == CountRelations(g.relations, s, t)
  {
    CountTargets(g.relations, s, t);
    if s !in g.adjacency {
      TargetsFromNotSource(g.relations, s);
    }
  }

  /** In a consistent graph there is an edge from `s` to `t` exactly when some
      relation goes from `s` to `t`. */
  lemma EdgeIffRelation(g: GraphState, s: string, t: string)
    requires Consistent(g)
    ensures Edge(g.adjacency, s, t) <==>
            exists i :: 0 <= i < |g.relations| && g.relations[i].sourceId == s && g.relations[i].targetId == t
  {
    NeighbourMultiplicity(g, s, t);
    CountRelationsPositive(g.relations, s, t);
  }

  lemma {:induction false} CountRelationsPositive(rels: seq<Relation>, s: string, t: string)
    ensures CountRelations(rels, s, t) > 0 <==>
            exists i :: 0 <= i < |rels| && rels[i].sourceId == s && rels[i].targetId == t
  {
    if rels != [] {
      var init := rels[..|rels| - 1];
      CountRelationsPositive(init, s, t);
      if exists i :: 0 <= i < |init| && init[i].sourceId == s && init[i].targetId == t {
        var i :| 0 <= i < |init| && init[i].sourceId == s && init[i].targetId == t;
        assert rels[i] == init[i];
      }
      if exists i :: 0 <= i < |rels| && rels[i].sourceId == s && rels[i].targetId == t {
        var i :| 0 <= i < |rels| && rels[i].sourceId == s && rels[i].targetId == t;
        if i < |init| {
          assert init[i] == rels[i];
        }
      }
    }
  }

  /** `get_neighbors` over a list of ids: the stored entities, skipping unknown ids. */
  function NeighbourEntities(entities: map<string, Entity>, ids: seq<string>): (es: seq<Entity>)
    ensures |es| <= |ids|
  {
    if ids == [] then []
    else
      var last := ids[|ids| - 1];
      NeighbourEntities(entities, ids[..|ids| - 1]) + (if last in entities then [entities[last]] else [])
  }

  /** `get_neighbors(id)`. */
  function Neighbours(g: GraphState, id: string): seq<Entity> {
    NeighbourEntities(g.entities, Successors(g.adjacency, id))
  }

  /** An entity is a neighbour exactly when it is stored under an id in the list. */
  lemma {:induction false} NeighbourEntitiesIff(entities: map<string, Entity>, ids: seq<string>, e: Entity)
    ensures e in NeighbourEntities(entities, ids) <==> exists n :: n in ids && n in entities && entities[n] == e
  {
    if ids != [] {
      var init := ids[..|ids| - 1];
      var last := ids[|ids| - 1];
      NeighbourEntitiesIff(entities, init, e);
      assert forall n :: n in ids <==> n in init || n == last by {
        assert ids == init + [last];
      }
    }
  }

  /** In a consistent graph every neighbour of `id` is the target of a relation out of
      `id` and is stored under its own id. */
  lemma NeighbourHasRelation(g: GraphState, id: string, e: Entity)
    requires Consistent(g) && e in Neighbours(g, id)
    ensures e.id in g.entities && g.entities[e.id] == e
    ensures exists i :: 0 <= i < |g.relations| && g.relations[i].sourceId == id && g.relations[i].targetId == e.id
  {
    NeighbourEntitiesIff(g.entities, Successors(g.adjacency, id), e);
    var n :| n in Successors(g.adjacency, id) && n in g.entities && g.entities[n] == e;
    EdgeIffRelation(g, id, n);
  }

  /** The knowledge graph object: the fields `add_entity` and `add_relation` update. */
  class KnowledgeGraph {
    var entities: map<string, Entity>
    var order: seq<string>
    var relations: seq<Relation>
    var adjacency: map<string, seq<string>>

    function State(): GraphState
      reads this
    {
      GraphState(entities, order, relations, adjacency)
    }

    ghost predicate Valid()
      reads this
    {
      Consistent(State())
    }

    constructor ()
      ensures State() == EmptyGraph() && Valid()
    {
      entities := map[];
      order := [];
      relations := [];
      adjacency := map[];
    }

    method AddEntity(e: Entity)
      modifies this
      ensures State() == AddEntityS(old(State()), e)
      ensures old(Valid()) ==> Valid()
    {
      if e.id !in entities {
        order := order + [e.id];
      }
      entities := entities[e.id := e];
      if e.id !in adjacency {
        adjacency := adjacency[e.id := []];
      }
      if old(Valid()) {
        AddEntityConsistent(old(State()), e);
      }
    }

    method AddRelation(r: Relation)
      modifies this
      ensures State() == AddRelationS(old(State()), r)
      ensures old(Valid()) ==> Valid()
    {
      relations := relations + [r];
      if r.sourceId !in adjacency {
        adjacency := adjacency[r.sourceId := []];
      }
      if r.targetId !in adjacency {
        adjacency := adjacency[r.targetId := []];
      }
      adjacency := adjacency[r.sourceId := adjacency[r.sourceId] + [r.targetId]];
      if old(Valid()) {
        AddRelationConsistent(old(State()), r);
      }
    }

    /** `find_path`: every simple path from `startId` to `endId` with at most `maxDepth`
        edges, in depth-first order. */
    method FindPath(startId: string, endId: string, maxDepth: int) returns (paths: seq<seq<string>>)
      ensures paths == AllPaths(adjacency, startId, endId, maxDepth)
    {
      var search := new PathSearch(adjacency, startId, endId, maxDepth);
      search.Dfs(startId, 0);
      paths := search.paths;
    }
  }
}
