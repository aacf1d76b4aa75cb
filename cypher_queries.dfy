/** The Cypher text the Neo4j retriever sends: the one-hop retrieval query and the
    variable-length multi-hop query. Only the text is modelled; running it is not. */
module CypherQueries {
  import opened Wrappers
  import opened Strings

  /** The retrieval query up to its `LIMIT` value. */
  const RetrievalHead: string :=
    "\n        MATCH (e:Entity)-[r]->(related:Entity)\n        WHERE e.name IN $entities\n        RETURN e, r, related\n        LIMIT "

  /** What every query ends with: the newline and indentation before the closing quotes. */
  const QueryTail: string := "\n        "

  /** The multi-hop query up to the relationship pattern's type filter. */
  const MultiHopHead: string := "\n        MATCH path = (start:Entity)-["

  /** The multi-hop query after its hop bound. */
  const MultiHopTail: string :=
    "]->(end:Entity)\n        WHERE start.name IN $start_entities\n        RETURN path, start, end, length(path) as hop_count\n        ORDER BY hop_count\n        "

  /** Each piece of a five-part concatenation is the slice at its offset. */
  lemma FiveParts(a: string, b: string, c: string, d: string, e: string)
    ensures var q := a + b + c + d + e;
      var i, j, k := |a|, |a| + |b|, |a| + |b| + |c|;
      q[..i] == a && q[i..j] == b && q[j..k] == c && q[k..|q| - |e|] == d && q[|q| - |e|..] == e
  {
  }

  /** `_build_retrieval_query`: the `limit` keyword, 10 when absent, is the only
      variable part, and it can be read back from the text. */
  function RetrievalQuery(limit: Option<int>): (q: string)
    ensures |q| > |RetrievalHead| + |QueryTail|
    ensures q[..|RetrievalHead|] == RetrievalHead && q[|q| - |QueryTail|..] == QueryTail
    ensures ParseInt(q[|RetrievalHead|..|q| - |QueryTail|]) == limit.GetOr(10)
  {
    var digits := IntToString(limit.GetOr(10));
    ParseIntToString(limit.GetOr(10));
    FiveParts(RetrievalHead, "", "", digits, QueryTail);
    RetrievalHead + digits + QueryTail
  }

  /** Two limits give the same query exactly when they are the same limit, with an
      absent limit counting as 10. */
  lemma RetrievalQueryInjective(a: Option<int>, b: Option<int>)
    ensures RetrievalQuery(a) == RetrievalQuery(b) <==> a.GetOr(10) == b.GetOr(10)
  {
  }

  /** The `:TYPE1:TYPE2` filter; empty when no types, or an empty list, are given. */
  function RelationFilter(types: Option<seq<string>>): (f: string)
    ensures f == "" <==> types.None? || types.value == []
    ensures f != "" ==> f[0] == ':' && f[1..] == Join(types.value, ":")
  {
    if types.Some? && types.value != [] then ":" + Join(types.value, ":") else ""
  }

  /** The filter names exactly the given types, in order, when no type name holds
      a colon: splitting its text after the leading colon gives them back. */
  lemma RelationFilterLists(types: seq<string>)
    requires types != []
    requires forall t :: t in types ==> ':' !in t
    ensures Split(RelationFilter(Some(types))[1..], ':') == types
  {
    SplitJoin(types, ':');
  }

  /** `_build_multi_hop_query`: the pattern `[<filter>*1..<max_hops>]`, from which
      the filter and the hop bound can be read back. */
  function MultiHopQuery(maxHops: int, types: Option<seq<string>>): (q: string)
    ensures var f := RelationFilter(types);
      var lo := |MultiHopHead| + |f| + |"*1.."|;
      lo < |q| - |MultiHopTail|
      && q[..|MultiHopHead|] == MultiHopHead
      && q[|MultiHopHead|..|MultiHopHead| + |f|] == f
      && q[|MultiHopHead| + |f|..lo] == "*1.."
      && ParseInt(q[lo..|q| - |MultiHopTail|]) == maxHops
      && q[|q| - |MultiHopTail|..] == MultiHopTail
  {
    var f := RelationFilter(types);
    var digits := IntToString(maxHops);
    ParseIntToString(maxHops);
    FiveParts(MultiHopHead, f, "*1..", digits, MultiHopTail);
    MultiHopHead + f + "*1.." + digits + MultiHopTail
  }

  /** No type list and an empty one build the same query. */
  lemma MultiHopNoFilter(maxHops: int)
    ensures MultiHopQuery(maxHops, None) == MultiHopQuery(maxHops, Some([]))
  {
  }

  /** For a fixed filter, different hop bounds give different queries. */
  lemma MultiHopQueryInjective(a: int, b: int, types: Option<seq<string>>)
    ensures MultiHopQuery(a, types) == MultiHopQuery(b, types) <==> a == b
  {
  }
}
