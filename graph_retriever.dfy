/** The in-memory graph retriever: name resolution, relation labelling, the
    one-hop and multi-hop retrievals, the loader over a parsed graph snapshot,
    and the factory that picks a retriever by name. */
module GraphRetriever {
  import opened Wrappers
  import opened Sequences
  import opened Strings
  import opened Values
  import opened GraphPaths
  import opened GraphModel

  // ---------------------------------------------------------------------------
  // First-match searches
  // ---------------------------------------------------------------------------

  /** The first entity along `ids` whose name is `name`. */
  function FirstNamed(entities: map<string, Entity>, ids: seq<string>, name: string): Option<Entity>
    decreases |ids|
  {
    if ids == [] then None
    else if ids[0] in entities && entities[ids[0]].name == name then Some(entities[ids[0]])
    else FirstNamed(entities, ids[1..], name)
  }

  /** `_find_entity_by_name`: the first entity, in insertion order, with that name. */
  function FindEntityByName(g: GraphState, name: string): Option<Entity> {
    FirstNamed(g.entities, g.order, name)
  }

  /** Whether the entity stored under `ids[i]` has the given name. */
  predicate NamedAt(entities: map<string, Entity>, ids: seq<string>, i: int, name: string)
    requires 0 <= i < |ids|
  {
    ids[i] in entities && entities[ids[i]].name == name
  }

  /** The search finds the entity of the first id whose entity has the name, and
      nothing exactly when there is none. */
  lemma {:induction false} FirstNamedIsFirst(entities: map<string, Entity>, ids: seq<string>, name: string)
    ensures FirstNamed(entities, ids, name).None? <==>
            forall i :: 0 <= i < |ids| ==> !NamedAt(entities, ids, i, name)
    ensures FirstNamed(entities, ids, name).Some? ==>
            exists i :: 0 <= i < |ids| && NamedAt(entities, ids, i, name)
              && FirstNamed(entities, ids, name).value == entities[ids[i]]
              && forall j :: 0 <= j < i ==> !NamedAt(entities, ids, j, name)
    decreases |ids|
  {
    if ids != [] {
      var tail := ids[1..];
      FirstNamedIsFirst(entities, tail, name);
      forall i | 0 < i < |ids| ensures NamedAt(entities, ids, i, name) == NamedAt(entities, tail, i - 1, name) {
        assert ids[i] == tail[i - 1];
      }
      if !NamedAt(entities, ids, 0, name) && FirstNamed(entities, tail, name).Some? {
        var i :| 0 <= i < |tail| && NamedAt(entities, tail, i, name)
                 && FirstNamed(entities, tail, name).value == entities[tail[i]]
                 && forall j :: 0 <= j < i ==> !NamedAt(entities, tail, j, name);
        assert NamedAt(entities, ids, i + 1, name) && ids[i + 1] == tail[i];
        forall j | 0 <= j < i + 1 ensures !NamedAt(entities, ids, j, name) {
          if j > 0 {
            assert !NamedAt(entities, tail, j - 1, name);
          }
        }
      }
    }
  }

  /** A resolved name belongs to the entity it resolves to. */
  lemma FindEntityByNameNamed(g: GraphState, name: string)
    ensures FindEntityByName(g, name).Some? ==> FindEntityByName(g, name).value.name == name
  {
    FirstNamedIsFirst(g.entities, g.order, name);
  }

  /** The type of the first relation from `s` to `t`. */
  function RelationBetween(rels: seq<Relation>, s: string, t: string): Option<string>
    decreases |rels|
  {
    if rels == [] then None
    else if rels[0].sourceId == s && rels[0].targetId == t then Some(rels[0].relationType)
    else RelationBetween(rels[1..], s, t)
  }

  predicate Links(rels: seq<Relation>, i: int, s: string, t: string)
    requires 0 <= i < |rels|
  {
    rels[i].sourceId == s && rels[i].targetId == t
  }

  /** `_get_relation_between`: the label is the type of the first relation from `s`
      to `t`, and there is none exactly when no relation goes from `s` to `t`. */
  lemma {:induction false} RelationBetweenIsFirst(rels: seq<Relation>, s: string, t: string)
    ensures RelationBetween(rels, s, t).None? <==> forall i :: 0 <= i < |rels| ==> !Links(rels, i, s, t)
    ensures RelationBetween(rels, s, t).Some? ==>
            exists i :: 0 <= i < |rels| && Links(rels, i, s, t)
              && RelationBetween(rels, s, t).value == rels[i].relationType
              && forall j :: 0 <= j < i ==> !Links(rels, j, s, t)
    decreases |rels|
  {
    if rels != [] {
      var tail := rels[1..];
      RelationBetweenIsFirst(tail, s, t);
      forall i | 0 < i < |rels| ensures Links(rels, i, s, t) == Links(tail, i - 1, s, t) {
        assert rels[i] == tail[i - 1];
      }
      if !Links(rels, 0, s, t) && RelationBetween(tail, s, t).Some? {
        var i :| 0 <= i < |tail| && Links(tail, i, s, t)
                 && RelationBetween(tail, s, t).value == tail[i].relationType
                 && forall j :: 0 <= j < i ==> !Links(tail, j, s, t);
        assert rels[i + 1] == tail[i] && Links(rels, i + 1, s, t);
        forall j | 0 <= j < i + 1 ensures !Links(rels, j, s, t) {
          if j > 0 {
            assert !Links(tail, j - 1, s, t);
          }
        }
      }
    }
  }

  /** In a consistent graph every neighbour has a relation label. */
  lemma NeighbourLabelled(g: GraphState, s: string, e: Entity)
    requires Consistent(g) && e in Neighbours(g, s)
    ensures RelationBetween(g.relations, s, e.id).Some?
  {
    NeighbourHasRelation(g, s, e);
    RelationBetweenIsFirst(g.relations, s, e.id);
    var i :| 0 <= i < |g.relations| && g.relations[i].sourceId == s && g.relations[i].targetId == e.id;
    assert Links(g.relations, i, s, e.id);
  }

  // ---------------------------------------------------------------------------
  // One-hop retrieval
  // ---------------------------------------------------------------------------

  /** One record of `retrieve`. */
  datatype Fact = Fact(sourceEntity: string, targetEntity: string, relation: Option<string>, properties: Value)

  function FactAbout(g: GraphState, e: Entity, n: Entity): Fact {
    Fact(e.name, n.name, RelationBetween(g.relations, e.id, n.id), n.properties)
  }

  /** The records for seed entity `e` and its neighbours `ns`, in order. */
  function FactsFor(g: GraphState, e: Entity, ns: seq<Entity>): (fs: seq<Fact>)
    ensures |fs| == |ns|
    ensures forall k :: 0 <= k < |ns| ==> fs[k] == FactAbout(g, e, ns[k])
  {
    if ns == [] then []
    else FactsFor(g, e, ns[..|ns| - 1]) + [FactAbout(g, e, ns[|ns| - 1])]
  }

  /** The records one seed name contributes: none when it names no entity. */
  function SeedFacts(g: GraphState, name: string): seq<Fact> {
    match FindEntityByName(g, name)
    case None => []
    case Some(e) => FactsFor(g, e, Neighbours(g, e.id))
  }

  /** The result of `retrieve(query, names)`. */
  function RetrieveSpec(g: GraphState, names: seq<string>): seq<Fact> {
    Gather(n => SeedFacts(g, n), names)
  }

  /** Seeds are handled independently and their records come out in seed order. */
  lemma RetrieveConcat(g: GraphState, a: seq<string>, b: seq<string>)
    ensures RetrieveSpec(g, a + b) == RetrieveSpec(g, a) + RetrieveSpec(g, b)
  {
    GatherConcat(n => SeedFacts(g, n), a, b);
  }

  /** A seed that names no entity is skipped without affecting the others. */
  lemma RetrieveSkipsUnresolved(g: GraphState, a: seq<string>, x: string, b: seq<string>)
    requires FindEntityByName(g, x).None?
    ensures RetrieveSpec(g, a + [x] + b) == RetrieveSpec(g, a + b)
  {
    GatherSkip(n => SeedFacts(g, n), a, x, b);
  }

  /** A resolved seed contributes one record per neighbour entity, in adjacency
      order: from the seed's name to the neighbour's name, labelled with the first
      relation between them (always present in a consistent graph) and carrying the
      neighbour's properties. */
  lemma SeedFactsShape(g: GraphState, name: string)
    requires Consistent(g) && FindEntityByName(g, name).Some?
    ensures var e := FindEntityByName(g, name).value;
      var ns := Neighbours(g, e.id);
      var fs := SeedFacts(g, name);
      e.name == name && |fs| == |ns| &&
      forall k :: 0 <= k < |fs| ==>
        fs[k].sourceEntity == name && fs[k].targetEntity == ns[k].name
        && fs[k].relation.Some? && fs[k].relation == RelationBetween(g.relations, e.id, ns[k].id)
        && fs[k].properties == ns[k].properties
  {
    FindEntityByNameNamed(g, name);
    var e := FindEntityByName(g, name).value;
    var ns := Neighbours(g, e.id);
    forall k | 0 <= k < |ns| ensures RelationBetween(g.relations, e.id, ns[k].id).Some? {
      NeighbourLabelled(g, e.id, ns[k]);
    }
  }

  // ---------------------------------------------------------------------------
  // Multi-hop retrieval
  // ---------------------------------------------------------------------------

  /** One record of `multi_hop_retrieve`. */
  datatype HopRecord = HopRecord(startEntity: string, path: seq<string>, hopCount: int)

  function HopRecords(name: string, paths: seq<seq<string>>): (rs: seq<HopRecord>)
    ensures |rs| == |paths|
    ensures forall k :: 0 <= k < |paths| ==> rs[k] == HopRecord(name, paths[k], |paths[k]| - 1)
  {
    if paths == [] then []
    else HopRecords(name, paths[..|paths| - 1]) + [HopRecord(name, paths[|paths| - 1], |paths[|paths| - 1]| - 1)]
  }

  function SeedHops(g: GraphState, name: string, maxHops: int): seq<HopRecord> {
    match FindEntityByName(g, name)
    case None => []
    case Some(e) => HopRecords(e.name, HopPaths(g.adjacency, e.id, maxHops))
  }

  /** The result of `multi_hop_retrieve(names, max_hops)`. */
  function MultiHopSpec(g: GraphState, names: seq<string>, maxHops: int): seq<HopRecord> {
    Gather(n => SeedHops(g, n, maxHops), names)
  }

  /** Seeds are handled independently and their records come out in seed order. */
  lemma MultiHopConcat(g: GraphState, a: seq<string>, b: seq<string>, maxHops: int)
    ensures MultiHopSpec(g, a + b, maxHops) == MultiHopSpec(g, a, maxHops) + MultiHopSpec(g, b, maxHops)
  {
    GatherConcat(n => SeedHops(g, n, maxHops), a, b);
  }

  /** A seed that names no entity contributes nothing. */
  lemma MultiHopSkipsUnresolved(g: GraphState, a: seq<string>, x: string, b: seq<string>, maxHops: int)
    requires FindEntityByName(g, x).None?
    ensures MultiHopSpec(g, a + [x] + b, maxHops) == MultiHopSpec(g, a + b, maxHops)
  {
    GatherSkip(n => SeedHops(g, n, maxHops), a, x, b);
  }

  /** Every multi-hop record starts at the entity its seed names, follows edges,
      repeats no entity before its last, and has `hop_count == len(path) - 1`
      between 1 and `max_hops`; with `max_hops <= 0` there are none. */
  lemma MultiHopShape(g: GraphState, names: seq<string>, maxHops: int)
    ensures forall r :: r in MultiHopSpec(g, names, maxHops) ==>
      r.hopCount == |r.path| - 1 && 1 <= r.hopCount <= maxHops
      && FindEntityByName(g, r.startEntity).Some?
      && HopWalk(g.adjacency, FindEntityByName(g, r.startEntity).value.id, r.path)
    ensures maxHops <= 0 ==> MultiHopSpec(g, names, maxHops) == []
  {
    if maxHops <= 0 && MultiHopSpec(g, names, maxHops) != [] {
      var r := MultiHopSpec(g, names, maxHops)[0];
      GatherFrom(n => SeedHops(g, n, maxHops), names, r);
      var name :| name in names && r in SeedHops(g, name, maxHops);
      SeedHopsShape(g, name, maxHops, r);
      assert false;
    }
    forall r | r in MultiHopSpec(g, names, maxHops)
      ensures r.hopCount == |r.path| - 1 && 1 <= r.hopCount <= maxHops
      ensures FindEntityByName(g, r.startEntity).Some?
      ensures HopWalk(g.adjacency, FindEntityByName(g, r.startEntity).value.id, r.path)
    {
      GatherFrom(n => SeedHops(g, n, maxHops), names, r);
      var name :| name in names && r in SeedHops(g, name, maxHops);
      SeedHopsShape(g, name, maxHops, r);
    }
  }

  lemma SeedHopsShape(g: GraphState, name: string, maxHops: int, r: HopRecord)
    requires r in SeedHops(g, name, maxHops)
    ensures r.hopCount == |r.path| - 1 && 1 <= r.hopCount <= maxHops
    ensures FindEntityByName(g, r.startEntity).Some?
    ensures HopWalk(g.adjacency, FindEntityByName(g, r.startEntity).value.id, r.path)
  {
    var e := FindEntityByName(g, name).value;
    FindEntityByNameNamed(g, name);
    var ps := HopPaths(g.adjacency, e.id, maxHops);
    HopPathsExact(g.adjacency, e.id, maxHops);
    var k :| 0 <= k < |ps| && HopRecords(e.name, ps)[k] == r;
    assert ps[k] in ps;
  }

  // ---------------------------------------------------------------------------
  // Loading a parsed snapshot
  // ---------------------------------------------------------------------------

  /** An entity record of the snapshot; a field is None when its key is absent. */
  datatype EntityRecord = EntityRecord(id: Option<string>, name: Option<string>, entityType: Option<string>,
                                       properties: Option<Value>)

  datatype RelationRecord = RelationRecord(id: Option<string>, source: Option<string>, target: Option<string>,
                                           relationType: Option<string>, properties: Option<Value>,
                                           weight: Option<real>)

  /** The parsed snapshot: its `entities` and `relations` lists, when present. */
  datatype Snapshot = Snapshot(entities: Option<seq<EntityRecord>>, relations: Option<seq<RelationRecord>>)

  /** The entity a record builds, or None when `id`, `name` or `type` is missing;
      `properties` defaults to an empty dictionary. */
  function ToEntity(r: EntityRecord): (e: Option<Entity>)
    ensures e.Some? <==> r.id.Some? && r.name.Some? && r.entityType.Some?
    ensures e.Some? ==> e.value.id == r.id.value && e.value.name == r.name.value
                        && e.value.entityType == r.entityType.value
                        && e.value.properties == r.properties.GetOr(Dict([]))
  {
    if r.id.Some? && r.name.Some? && r.entityType.Some? then
      Some(Entity(r.id.value, r.name.value, r.entityType.value, r.properties.GetOr(Dict([]))))
    else None
  }

  /** The relation a record builds, or None when `id`, `source`, `target` or `type`
      is missing; `properties` defaults to an empty dictionary and `weight` to 1.0. */
  function ToRelation(r: RelationRecord): (rel: Option<Relation>)
    ensures rel.Some? <==> r.id.Some? && r.source.Some? && r.target.Some? && r.relationType.Some?
    ensures rel.Some? ==> rel.value.id == r.id.value && rel.value.sourceId == r.source.value
                          && rel.value.targetId == r.target.value && rel.value.relationType == r.relationType.value
                          && rel.value.properties == r.properties.GetOr(Dict([]))
                          && rel.value.weight == r.weight.GetOr(1.0)
  {
    if r.id.Some? && r.source.Some? && r.target.Some? && r.relationType.Some? then
      Some(Relation(r.id.value, r.source.value, r.target.value, r.relationType.value,
                    r.properties.GetOr(Dict([])), r.weight.GetOr(1.0)))
    else None
  }

  /** The graph after a load, and whether every record was taken. */
  datatype LoadOutcome = LoadOutcome(graph: GraphState, complete: bool)

  /** Adds entity records in order, stopping at the first malformed one. */
  function LoadEntities(g: GraphState, recs: seq<EntityRecord>): LoadOutcome
    decreases |recs|
  {
    if recs == [] then LoadOutcome(g, true)
    else match ToEntity(recs[0])
      case None => LoadOutcome(g, false)
      case Some(e) => LoadEntities(AddEntityS(g, e), recs[1..])
  }

  /** Adds relation records in order, stopping at the first malformed one. */
  function LoadRelations(g: GraphState, recs: seq<RelationRecord>): LoadOutcome
    decreases |recs|
  {
    if recs == [] then LoadOutcome(g, true)
    else match ToRelation(recs[0])
      case None => LoadOutcome(g, false)
      case Some(r) => LoadRelations(AddRelationS(g, r), recs[1..])
  }

  /** `_load_graph_data` over a parsed snapshot: entities first, then relations;
      a malformed record ends the load and what was added before it stays. */
  function LoadSpec(g: GraphState, data: Snapshot): GraphState {
    var es := LoadEntities(g, data.entities.GetOr([]));
    if es.complete then LoadRelations(es.graph, data.relations.GetOr([])).graph else es.graph
  }

  lemma {:induction false} LoadEntitiesConsistent(g: GraphState, recs: seq<EntityRecord>)
    requires Consistent(g)
    ensures Consistent(LoadEntities(g, recs).graph)
    decreases |recs|
  {
    if recs != [] && ToEntity(recs[0]).Some? {
      AddEntityConsistent(g, ToEntity(recs[0]).value);
      LoadEntitiesConsistent(AddEntityS(g, ToEntity(recs[0]).value), recs[1..]);
    }
  }

  lemma {:induction false} LoadRelationsConsistent(g: GraphState, recs: seq<RelationRecord>)
    requires Consistent(g)
    ensures Consistent(LoadRelations(g, recs).graph)
    decreases |recs|
  {
    if recs != [] && ToRelation(recs[0]).Some? {
      AddRelationConsistent(g, ToRelation(recs[0]).value);
      LoadRelationsConsistent(AddRelationS(g, ToRelation(recs[0]).value), recs[1..]);
    }
  }

  /** Loading keeps the graph invariant, whatever the snapshot holds. */
  lemma LoadConsistent(g: GraphState, data: Snapshot)
    requires Consistent(g)
    ensures Consistent(LoadSpec(g, data))
  {
    LoadEntitiesConsistent(g, data.entities.GetOr([]));
    LoadRelationsConsistent(LoadEntities(g, data.entities.GetOr([])).graph, data.relations.GetOr([]));
  }

  /** A malformed entity record ends the load: the records before it are all added,
      none after it, and no relation is loaded. */
  lemma {:induction false} LoadEntitiesAbort(g: GraphState, good: seq<EntityRecord>, bad: EntityRecord,
                                             rest: seq<EntityRecord>)
    requires forall r :: r in good ==> ToEntity(r).Some?
    requires ToEntity(bad).None?
    ensures LoadEntities(g, good).complete
    ensures LoadEntities(g, good + [bad] + rest) == LoadOutcome(LoadEntities(g, good).graph, false)
    decreases |good|
  {
    var all := good + [bad] + rest;
    if good == [] {
      assert all[0] == bad;
    } else {
      assert good[0] in good;
      assert all[0] == good[0] && all[1..] == good[1..] + [bad] + rest;
      assert forall r :: r in good[1..] ==> r in good;
      LoadEntitiesAbort(AddEntityS(g, ToEntity(good[0]).value), good[1..], bad, rest);
    }
  }

  /** A malformed relation record ends the load the same way. */
  lemma {:induction false} LoadRelationsAbort(g: GraphState, good: seq<RelationRecord>, bad: RelationRecord,
                                              rest: seq<RelationRecord>)
    requires forall r :: r in good ==> ToRelation(r).Some?
    requires ToRelation(bad).None?
    ensures LoadRelations(g, good).complete
    ensures LoadRelations(g, good + [bad] + rest) == LoadOutcome(LoadRelations(g, good).graph, false)
    decreases |good|
  {
    var all := good + [bad] + rest;
    if good == [] {
      assert all[0] == bad;
    } else {
      assert good[0] in good;
      assert all[0] == good[0] && all[1..] == good[1..] + [bad] + rest;
      assert forall r :: r in good[1..] ==> r in good;
      LoadRelationsAbort(AddRelationS(g, ToRelation(good[0]).value), good[1..], bad, rest);
    }
  }

  /** The relations complete records build, in order. */
  function RelationsOf(recs: seq<RelationRecord>): (rs: seq<Relation>)
    requires forall r :: r in recs ==> ToRelation(r).Some?
    ensures |rs| == |recs|
    decreases |recs|
  {
    if recs == [] then []
    else
      assert recs[0] in recs;
      [ToRelation(recs[0]).value] + RelationsOf(recs[1..])
  }

  /** When every relation record is complete, the load takes them all and appends
      each built relation, in order. */
  lemma {:induction false} LoadRelationsAll(g: GraphState, recs: seq<RelationRecord>)
    requires forall r :: r in recs ==> ToRelation(r).Some?
    ensures LoadRelations(g, recs).complete
    ensures LoadRelations(g, recs).graph.relations == g.relations + RelationsOf(recs)
    decreases |recs|
  {
    if recs != [] {
      assert recs[0] in recs;
      var r := ToRelation(recs[0]).value;
      var g' := AddRelationS(g, r);
      assert g'.relations == g.relations + [r];
      LoadRelationsAll(g', recs[1..]);
      assert g.relations + ([r] + RelationsOf(recs[1..])) == g'.relations + RelationsOf(recs[1..]);
    }
  }

  /** The inner loop of `retrieve`: one record per neighbour of `e`. */
  method AppendFacts(g: GraphState, e: Entity, results: seq<Fact>) returns (out: seq<Fact>)
    ensures out == results + FactsFor(g, e, Neighbours(g, e.id))
  {
    var ns := Neighbours(g, e.id);
    out := results;
    for m := 0 to |ns|
      invariant out == results + FactsFor(g, e, ns[..m])
    {
      assert ns[..m + 1][..m] == ns[..m];
      out := out + [Fact(e.name, ns[m].name, RelationBetween(g.relations, e.id, ns[m].id), ns[m].properties)];
    }
    assert ns[..|ns|] == ns;
  }

  /** The inner loop of `multi_hop_retrieve`: one record per path. */
  method AppendHops(name: string, paths: seq<seq<string>>, results: seq<HopRecord>) returns (out: seq<HopRecord>)
    ensures out == results + HopRecords(name, paths)
  {
    out := results;
    for m := 0 to |paths|
      invariant out == results + HopRecords(name, paths[..m])
    {
      assert paths[..m + 1][..m] == paths[..m];
      out := out + [HopRecord(name, paths[m], |paths[m]| - 1)];
    }
    assert paths[..|paths|] == paths;
  }

  // ---------------------------------------------------------------------------
  // The retriever object
  // ---------------------------------------------------------------------------

  class InMemoryGraphRetriever {
    const graph: KnowledgeGraph

    ghost predicate Valid()
      reads this, graph
    {
      graph.Valid()
    }

    /** `InMemoryGraphRetriever(config)`: an empty graph, loaded from the snapshot when
        the configuration names a graph file and that file parsed (`data`). */
    constructor (data: Option<Snapshot>)
      ensures fresh(graph) && Valid()
      ensures graph.State() == match data case None => EmptyGraph() case Some(d) => LoadSpec(EmptyGraph(), d)
    {
      graph := new KnowledgeGraph();
      new;
      if data.Some? {
        LoadGraphData(data.value);
      }
    }

    /** `_load_graph_data`, from the point where the file has been parsed: the
        records are added in order and the first one lacking a field ends the load. */
    method LoadGraphData(data: Snapshot)
      modifies graph
      ensures graph.State() == LoadSpec(old(graph.State()), data)
      ensures old(graph.Valid()) ==> graph.Valid()
    {
      var complete := LoadEntityRecords(data.entities.GetOr([]));
      if complete {
        complete := LoadRelationRecords(data.relations.GetOr([]));
      }
    }

    /** The entity loop of `_load_graph_data`; false when a record lacked a field. */
    method LoadEntityRecords(recs: seq<EntityRecord>) returns (complete: bool)
      modifies graph
      ensures LoadOutcome(graph.State(), complete) == LoadEntities(old(graph.State()), recs)
      ensures old(graph.Valid()) ==> graph.Valid()
    {
      ghost var g0 := graph.State();
      var k := 0;
      while k < |recs|
        invariant 0 <= k <= |recs|
        invariant LoadEntities(graph.State(), recs[k..]) == LoadEntities(g0, recs)
        invariant old(graph.Valid()) ==> graph.Valid()
      {
        assert recs[k..][1..] == recs[k + 1..];
        var e := ToEntity(recs[k]);
        if e.None? {
          return false;
        }
        graph.AddEntity(e.value);
        k := k + 1;
      }
      return true;
    }

    /** The relation loop of `_load_graph_data`; false when a record lacked a field. */
    method LoadRelationRecords(recs: seq<RelationRecord>) returns (complete: bool)
      modifies graph
      ensures LoadOutcome(graph.State(), complete) == LoadRelations(old(graph.State()), recs)
      ensures old(graph.Valid()) ==> graph.Valid()
    {
      ghost var g0 := graph.State();
      var k := 0;
      while k < |recs|
        invariant 0 <= k <= |recs|
        invariant LoadRelations(graph.State(), recs[k..]) == LoadRelations(g0, recs)
        invariant old(graph.Valid()) ==> graph.Valid()
      {
        assert recs[k..][1..] == recs[k + 1..];
        var r := ToRelation(recs[k]);
        if r.None? {
          return false;
        }
        graph.AddRelation(r.value);
        k := k + 1;
      }
      return true;
    }

    /** `retrieve(query, entities, limit=...)`: one record per resolved seed and
        neighbour; neither the query text nor a limit changes the result. */
    method Retrieve(query: string, names: seq<string>, limit: Option<int>) returns (results: seq<Fact>)
      ensures results == RetrieveSpec(graph.State(), names)
    {
      var g := graph.State();
      results := [];
      for k := 0 to |names|
        invariant results == RetrieveSpec(g, names[..k])
      {
        assert names[..k + 1][..k] == names[..k];
        var found := FindEntityByName(g, names[k]);
        if found.Some? {
          results := AppendFacts(g, found.value, results);
        } else {
          assert SeedFacts(g, names[k]) == [];
        }

      }
      assert names[..|names|] == names;
    }

    /** `_find_multi_hop_paths(start_id, max_hops)`. */
    method FindMultiHopPaths(startId: string, maxHops: int) returns (paths: seq<seq<string>>)
      ensures paths == HopPaths(graph.adjacency, startId, maxHops)
    {
      var search := new HopSearch(graph.adjacency, maxHops);
      search.Dfs(startId, [startId], 0);
      paths := search.paths;
    }

    /** `multi_hop_retrieve(start_entities, max_hops)`: no relation-type filter. */
    method MultiHopRetrieve(names: seq<string>, maxHops: int) returns (results: seq<HopRecord>)
      ensures results == MultiHopSpec(graph.State(), names, maxHops)
    {
      var g := graph.State();
      results := [];
      for k := 0 to |names|
        invariant results == MultiHopSpec(g, names[..k], maxHops)
      {
        assert names[..k + 1][..k] == names[..k];
        var found := FindEntityByName(g, names[k]);
        if found.Some? {
          var paths := FindMultiHopPaths(found.value.id, maxHops);
          results := AppendHops(found.value.name, paths, results);
        } else {
          assert SeedHops(g, names[k], maxHops) == [];
        }

      }
      assert names[..|names|] == names;
    }
  }

  // ---------------------------------------------------------------------------
  // The factory
  // ---------------------------------------------------------------------------

  datatype RetrieverKind = Neo4jRetriever | InMemoryRetriever

  /** `GraphRetrieverFactory.create_retriever`: the type name is compared after
      lower-casing; any other name is rejected. */
  function CreateRetriever(retrieverType: string): (r: Result<RetrieverKind>)
    ensures r == Success(Neo4jRetriever) <==> Lower(retrieverType) == "neo4j"
    ensures r == Success(InMemoryRetriever) <==> Lower(retrieverType) == "memory"
    ensures r.Failure? <==> Lower(retrieverType) != "neo4j" && Lower(retrieverType) != "memory"
  {
    if Lower(retrieverType) == "neo4j" then Success(Neo4jRetriever)
    else if Lower(retrieverType) == "memory" then Success(InMemoryRetriever)
    else Failure("不支持的图检索器类型: " + retrieverType)
  }

  /** The choice ignores case: names equal up to case choose the same kind. */
  lemma CreateRetrieverIgnoresCase(a: string, b: string)
    requires Lower(a) == Lower(b)
    ensures CreateRetriever(a).Success? <==> CreateRetriever(b).Success?
    ensures CreateRetriever(a).Success? ==> CreateRetriever(a) == CreateRetriever(b)
  {
  }
}
