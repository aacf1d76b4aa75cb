# Agent-LuoTianyi knowledge core, modelled in Dafny

This project models the knowledge and prompt core of Agent-LuoTianyi, a chat agent for the virtual singer Luo Tianyi. It covers these parts:

- **The in-memory knowledge graph.** Entities are stored by id in insertion order. Relations are kept in an append-only list. An adjacency map lists each id's targets in order, with duplicates kept. On top of this sit the bounded, cycle-safe depth-first path search and the multi-hop search.
- **The in-memory graph retriever.** It does one-hop retrieval and multi-hop retrieval, resolves names and labels relations by first match, and loads records one by one from a parsed snapshot. The retriever factory switches on the retriever type, ignoring case.
- **The Cypher text** that the Neo4j retriever sends.
- **The dictionary and text helpers:** `merge_dict`, `safe_get`, `validate_config` and `split_text_chunks`.
- **The ingestion decisions of the knowledge builder:**
  - which handler a file suffix selects;
  - which category a file is filed under;
  - what text is taken from a record;
  - whether a record is stored;
  - the text of song and event entries.
- **The knowledge document records:** `Document`, `KnowledgeDocument`, `to_document` and `from_dict`.
- **The prompt template registry:**
  - adding, removing, getting, listing and describing templates;
  - the lookup failure when rendering;
  - loading templates from a directory;
  - choosing a template from an intent.

Some parts update state in place: the knowledge graph, the two depth-first searches, the loader, the retrieval loops, `validate_config`, `split_text_chunks`, `_extract_content`, the song and event text builders, and the template registry. These are classes and methods with loops. Each method is proved equal to a specification function of the old state or the inputs. The remaining parts are pure: the query builders, the lookups and the record construction. They are datatypes and functions.

Python values are the datatype `Values.Value`. A dictionary is a sequence of entries in insertion order. `None`, truthiness, `str()` and `repr()` are modelled explicitly.

## Model

| member | source | states |
|---|---|---|
| GraphModel.KnowledgeGraph.constructor | src/knowledge/graph_retriever.py:51-55 | a new graph has no entities, relations or adjacency lists, and satisfies the adjacency invariant |
| GraphModel.KnowledgeGraph.AddEntity | src/knowledge/graph_retriever.py:57-65 | the entity is stored under its id, overwriting; an adjacency list is created only when missing; the invariant is kept |
| GraphModel.KnowledgeGraph.AddRelation | src/knowledge/graph_retriever.py:67-81 | exactly one relation is appended; both endpoints get adjacency keys; the target is appended once to the source's list; the invariant is kept |
| GraphModel.AddEntityConsistent | src/knowledge/graph_retriever.py:57-65 | adding an entity keeps the invariant: every adjacency list equals the targets of the relations out of that id, in order |
| GraphModel.AddRelationConsistent | src/knowledge/graph_retriever.py:67-81 | adding a relation keeps that invariant, and adjacency keys exist for every entity and every relation endpoint |
| GraphModel.AddEntityKeepsEdges | src/knowledge/graph_retriever.py:63-65 | re-adding an entity leaves every neighbour list as it was |
| GraphModel.AddRelationEdges | src/knowledge/graph_retriever.py:73-81 | only the source's neighbour list changes, by the target appended once |
| GraphModel.AddEntityIdempotent | src/knowledge/graph_retriever.py:57-65 | adding the same entity twice is the same as adding it once |
| GraphModel.EmptyConsistent | src/knowledge/graph_retriever.py:51-55 | the empty graph satisfies the invariant |
| GraphModel.NeighbourMultiplicity | src/knowledge/graph_retriever.py:67-81 | the occurrences of `t` in the list of `s` equal the number of relations from `s` to `t` |
| GraphModel.EdgeIffRelation | src/knowledge/graph_retriever.py:67-81 | `t` is a neighbour of `s` exactly when some relation goes from `s` to `t` |
| GraphModel.NeighbourEntitiesIff | src/knowledge/graph_retriever.py:83-93 | `get_neighbors` returns the entities of the listed ids that have an entity record, and only those |
| GraphModel.NeighbourHasRelation | src/knowledge/graph_retriever.py:83-93 | every neighbour returned is a stored entity reached by some relation |
| GraphModel.KnowledgeGraph.FindPath | src/knowledge/graph_retriever.py:95-131 | the depth-first search returns exactly the reference list of paths for the current adjacency |
| GraphPaths.PathSearch.Dfs | src/knowledge/graph_retriever.py:110-128 | the shared path buffer and the visited set are restored on return; the found paths are appended in order |
| GraphPaths.FindPathExact | src/knowledge/graph_retriever.py:95-131 | a path is returned exactly when it starts at the start, ends at the end, follows edges, repeats no id and has at most `max_depth + 1` ids |
| GraphPaths.FindPathDepthZero | src/knowledge/graph_retriever.py:111-116 | with depth 0 the result is `[[start]]` when start equals end, and `[]` otherwise |
| GraphPaths.FindPathOnCycle | src/knowledge/graph_retriever.py:118-128 | on the cycle A→B→A with depth 3 the search terminates and returns `[[A, B]]` |
| GraphPaths.FindPathMultiplicity | src/knowledge/graph_retriever.py:110-128 | every simple path within the depth bound is returned as many times as the product, over its edges, of how often the next id is listed in the previous id's adjacency list |
| GraphPaths.FindPathDirectCount | src/knowledge/graph_retriever.py:118-128 | for distinct ids and depth at least 1, the direct path `[s, t]` is returned once per occurrence of `t` in the adjacency list of `s` |
| GraphPaths.FindPathDuplicateEdge | src/knowledge/graph_retriever.py:123-126 | a duplicated edge gives the path twice |
| GraphPaths.PathsFromSound | src/knowledge/graph_retriever.py:110-128 | every path found from a search state extends the current path into a simple path to the target |
| GraphPaths.PathsFromComplete | src/knowledge/graph_retriever.py:110-128 | every simple extension of the current path that reaches the target within the depth bound is found |
| GraphPaths.HopSearch.Dfs | src/knowledge/graph_retriever.py:491-505 | the visited set is restored on return; the paths found are appended in pre-order |
| GraphPaths.HopPathsExact | src/knowledge/graph_retriever.py:477-508 | a path is returned exactly when it starts at the start id, has 2 to `max_hops + 1` ids, follows edges, and repeats no id except possibly the last; `max_hops <= 0` gives none |
| GraphPaths.HopPathsPreOrder | src/knowledge/graph_retriever.py:500-503 | every path of more than two ids comes after its one-shorter prefix |
| GraphPaths.HopsFromSound | src/knowledge/graph_retriever.py:491-505 | every path found extends the current path by a walk within the hop bound |
| GraphPaths.HopsFromComplete | src/knowledge/graph_retriever.py:491-505 | every such walk from the current path is found |
| GraphRetriever.FirstNamedIsFirst | src/knowledge/graph_retriever.py:448-460 | name resolution gives the first entity with that exact name in insertion order, or nothing when no entity has the name |
| GraphRetriever.FindEntityByNameNamed | src/knowledge/graph_retriever.py:457-459 | a resolved entity has the name asked for |
| GraphRetriever.RelationBetweenIsFirst | src/knowledge/graph_retriever.py:462-475 | the label is the type of the first relation from the source to the target, or nothing when there is none |
| GraphRetriever.NeighbourLabelled | src/knowledge/graph_retriever.py:404-411 | under the adjacency invariant every neighbour of a retrieved entity has a relation label, so it is never `None` |
| GraphRetriever.FactsFor | src/knowledge/graph_retriever.py:406-413 | one record per neighbour, in adjacency order, carrying both names, the label and the neighbour's properties |
| GraphRetriever.InMemoryGraphRetriever.Retrieve | src/knowledge/graph_retriever.py:383-415 | the loop returns the seed-by-seed concatenation of the neighbour records, whatever `limit` is |
| GraphRetriever.RetrieveConcat | src/knowledge/graph_retriever.py:397-413 | retrieval of two seed lists is the concatenation of their results: seeds are processed independently and in order |
| GraphRetriever.RetrieveSkipsUnresolved | src/knowledge/graph_retriever.py:399-401 | a seed that resolves to no entity contributes nothing and does not affect the others |
| GraphRetriever.SeedFactsShape | src/knowledge/graph_retriever.py:404-413 | every record of a resolved seed names it as source, names a neighbour as target, and has a label |
| GraphRetriever.InMemoryGraphRetriever.FindMultiHopPaths | src/knowledge/graph_retriever.py:477-508 | the search returns exactly the reference hop paths of the graph's adjacency |
| GraphRetriever.InMemoryGraphRetriever.MultiHopRetrieve | src/knowledge/graph_retriever.py:417-446 | the loop returns the seed-by-seed concatenation of hop records, with no relation-type filter |
| GraphRetriever.HopRecords | src/knowledge/graph_retriever.py:438-444 | one record per path, in order, with `hop_count = len(path) - 1` |
| GraphRetriever.MultiHopConcat | src/knowledge/graph_retriever.py:430-444 | multi-hop results of two seed lists concatenate |
| GraphRetriever.MultiHopSkipsUnresolved | src/knowledge/graph_retriever.py:431-433 | an unresolved seed contributes nothing |
| GraphRetriever.MultiHopShape | src/knowledge/graph_retriever.py:417-446 | every record's hop count is its path length minus one, between 1 and `max_hops`, and its path is a walk from the resolved seed; `max_hops <= 0` gives no records |
| GraphRetriever.ToEntity | src/knowledge/graph_retriever.py:357-363 | an entity record converts exactly when `id`, `name` and `type` are present; missing properties become `{}` |
| GraphRetriever.ToRelation | src/knowledge/graph_retriever.py:367-375 | a relation record converts exactly when `id`, `source`, `target` and `type` are present; missing properties become `{}` and a missing weight 1.0 |
| GraphRetriever.InMemoryGraphRetriever.LoadEntityRecords | src/knowledge/graph_retriever.py:357-364 | the entity loop adds records in order until the first malformed one and reports whether it got through; the invariant is kept |
| GraphRetriever.InMemoryGraphRetriever.LoadRelationRecords | src/knowledge/graph_retriever.py:367-376 | the relation loop does the same for relations |
| GraphRetriever.InMemoryGraphRetriever.LoadGraphData | src/knowledge/graph_retriever.py:351-381 | entities are loaded first, then relations only if every entity converted; what was added before an abort is kept |
| GraphRetriever.InMemoryGraphRetriever.constructor | src/knowledge/graph_retriever.py:328-340 | the retriever starts from an empty graph and loads the snapshot when one is configured |
| GraphRetriever.LoadEntitiesAbort | src/knowledge/graph_retriever.py:357-381 | the first malformed entity stops the load; the graph is the one built from the records before it |
| GraphRetriever.LoadRelationsAbort | src/knowledge/graph_retriever.py:367-381 | the first malformed relation stops the load in the same way |
| GraphRetriever.LoadRelationsAll | src/knowledge/graph_retriever.py:367-376 | when every relation record is well formed, exactly their relations are appended, in order |
| GraphRetriever.LoadConsistent | src/knowledge/graph_retriever.py:351-381 | loading keeps the adjacency invariant |
| GraphRetriever.CreateRetriever | src/knowledge/graph_retriever.py:515-530 | `neo4j` and `memory`, in any case, select their retriever; any other type fails with the unsupported-type message |
| GraphRetriever.CreateRetrieverIgnoresCase | src/knowledge/graph_retriever.py:525-528 | type names equal up to case select the same retriever |
| CypherQueries.RetrievalQuery | src/knowledge/graph_retriever.py:266-286 | the query is the fixed text with the `limit` keyword, 10 when absent, in the `LIMIT` clause, from which it parses back |
| CypherQueries.RetrievalQueryInjective | src/knowledge/graph_retriever.py:277-284 | two limits build the same query exactly when they are equal, absent counting as 10 |
| CypherQueries.RelationFilter | src/knowledge/graph_retriever.py:303-305 | the filter is empty for no types or an empty list, and otherwise `:` followed by the types joined with `:` |
| CypherQueries.RelationFilterLists | src/knowledge/graph_retriever.py:303-305 | when no type name holds a colon, splitting the filter gives back the types in order |
| CypherQueries.MultiHopQuery | src/knowledge/graph_retriever.py:288-314 | the pattern is `[<filter>*1..<max_hops>]` inside the fixed text, and filter and bound parse back |
| CypherQueries.MultiHopNoFilter | src/knowledge/graph_retriever.py:303-305 | no type list and an empty one build the same query |
| CypherQueries.MultiHopQueryInjective | src/knowledge/graph_retriever.py:307-312 | for one filter, different hop bounds build different queries |
| Helpers.MergeDictGet | src/utils/helpers.py:54-72 | the result's keys are the union of both key sets; a key only in `base` keeps its value; `update` wins a collision unless both values are dictionaries, which are merged recursively |
| Helpers.MergeDictDistinct | src/utils/helpers.py:64-72 | merging into a dictionary yields a dictionary with no repeated key |
| Helpers.MergeIntoEmpty | src/utils/helpers.py:64-72 | `merge_dict({}, u) == u` |
| Helpers.MergeSelf | src/utils/helpers.py:64-72 | `merge_dict(d, d) == d` |
| Helpers.SafeGetPlainKey | src/utils/helpers.py:137-156 | a path without a dot is a lookup with the default for a missing key |
| Helpers.SafeGetStoredNone | src/utils/helpers.py:152-154 | a stored `None` is returned as `None`, not as the default |
| Helpers.SafeGetDescends | src/utils/helpers.py:148-156 | a dotted path descends one key at a time, and gives the default as soon as a step cannot be taken |
| Helpers.ValidateConfig | src/utils/helpers.py:200-222 | the loop returns the missing keys in their original order; a dotted key is missing when `safe_get` gives `None`, a plain key when it is absent |
| Helpers.MissingKeysSpec | src/utils/helpers.py:210-222 | a key is reported exactly when it is required and missing, and the report keeps the order of `required_keys` |
| Helpers.ChunkEnd | src/utils/helpers.py:278-293 | one iteration's `end`: `max_length` on from `start`, pulled back after the last sentence end when the window is not the last |
| Helpers.WindowEndBoundary | src/utils/helpers.py:281-293 | when a sentence end lies after `start` in a window that is not the last, the chunk ends just after the last such one; otherwise after `max_length` characters |
| Helpers.LastSentenceEndIsLast | src/utils/helpers.py:283-290 | the largest of the six `rfind` results is the last sentence end in the window, or -1 when there is none |
| Helpers.RFindLast | src/utils/helpers.py:284-289 | `rfind` finds the last occurrence in the range, or -1 when there is none |
| Helpers.SplitTextChunks | src/utils/helpers.py:260-302 | the loop returns the reference chunk list; a text no longer than `max_length` is returned unchanged as `[text]` |
| Helpers.TextChunksShape | src/utils/helpers.py:271-297 | every chunk is a piece of the text of at most `max_length` characters; for a longer text each is non-empty and stripped |
| Helpers.WindowsAdvance | src/utils/helpers.py:277-300 | window starts strictly increase, so the loop terminates and chunks come out in order of their start |
| Helpers.WindowsCover | src/utils/helpers.py:277-300 | with a positive `max_length`, every position of the text lies in some window |
| Helpers.WindowsSucc | src/utils/helpers.py:277-300 | each window ends where one iteration computes, and the next opens at `max(start + 1, end - overlap)` |
| Helpers.PySliceOccurs | src/utils/helpers.py:295 | `text[start:end]`, clamped as Python clamps it, occurs in the text at the clamped start |
| VectorStore.NewDocument | src/knowledge/vector_store.py:18-44 | the construction fails with `AttributeError` exactly when an id has to be generated and the content is not a string; otherwise the content is kept, `None` or empty metadata becomes `{}`, and a non-empty id is kept, else the generated id is used |
| VectorStore.NewKnowledgeDocument | src/knowledge/vector_store.py:298-333 | the construction succeeds exactly when the content is a string, since the inner document always generates its id; then a missing or false title and source become `""`, tags become `[]`, and the document's metadata is the four named fields followed by the extra keywords |
| VectorStore.KnowledgeMetadataContents | src/knowledge/vector_store.py:324-330 | the metadata holds `category`, `title`, `tags` and `source` equal to the fields, every extra keyword with its value, no `content`, and no repeated key |
| VectorStore.ToDocumentCarriesFields | src/knowledge/vector_store.py:335-341 | the document given back has the knowledge document's content and the generated id, and its metadata holds the category, title, tags and source under their own keys |
| VectorStore.FromDict | src/knowledge/vector_store.py:343-360 | fails exactly when `content` or `category` is missing (`KeyError`, `content` checked first) or the content is not a string (`AttributeError`) |
| VectorStore.FromDictContents | src/knowledge/vector_store.py:353-360 | every key except the five named ones is forwarded as metadata with its value |
| VectorStore.ExtrasGet | src/knowledge/vector_store.py:359 | the forwarded keywords are exactly the entries whose key is not a named parameter |
| VectorStore.ExtrasDistinct | src/knowledge/vector_store.py:359 | the forwarded keywords repeat no key |
| KnowledgeBuilder.Dispatch | src/knowledge/knowledge_builder.py:83-94 | `.json`, `.yaml`/`.yml`, `.csv` and `.txt`/`.md`, compared lower-cased, select their handlers, and any other suffix is skipped |
| KnowledgeBuilder.DispatchIgnoresCase | src/knowledge/knowledge_builder.py:83 | suffixes equal up to case go to the same handler |
| KnowledgeBuilder.InferCategory | src/knowledge/knowledge_builder.py:202-228 | the category is one of the seven inferred ones and never `fanart` |
| KnowledgeBuilder.InferCategoryByRules | src/knowledge/knowledge_builder.py:202-228 | the category is the first matching file-name rule; only when none matches and the data is a dictionary the content rules apply; otherwise `general` |
| KnowledgeBuilder.NameRulesChoice | src/knowledge/knowledge_builder.py:204-211 | the first three file-name rules as the source's ordered chain of tests |
| KnowledgeBuilder.NameRulesTail | src/knowledge/knowledge_builder.py:212-215 | the last three file-name rules as the rest of that chain |
| KnowledgeBuilder.ContentRulesChoice | src/knowledge/knowledge_builder.py:218-225 | the content rules as the source's ordered chain of tests on the lower-cased `str(data)` |
| KnowledgeBuilder.FirstRule | src/knowledge/knowledge_builder.py:204-225 | the first matching rule's category, or nothing when no rule matches |
| KnowledgeBuilder.ExtractContent | src/knowledge/knowledge_builder.py:278-293 | the loops return the string form of the first truthy priority field; otherwise the non-blank string fields as `key: value` lines joined by newlines |
| KnowledgeBuilder.FirstSetField | src/knowledge/knowledge_builder.py:284-286 | nothing exactly when no priority field is present and truthy; a value found is truthy |
| KnowledgeBuilder.ExtractContentEmpty | src/knowledge/knowledge_builder.py:278-293 | the content is empty exactly when no priority field is truthy and no string field is more than white space |
| KnowledgeBuilder.TextParts | src/knowledge/knowledge_builder.py:288-291 | every text part is non-empty, and there is at most one per field |
| KnowledgeBuilder.CallKnowledgeDocument | src/knowledge/knowledge_builder.py:245-252 | the constructor call fails when a forwarded key repeats a named parameter, and then with `TypeError`, or when the content is not a string; otherwise it builds the document |
| KnowledgeBuilder.FirstCollision | src/knowledge/knowledge_builder.py:251 | the colliding keyword reported is a named parameter present among the forwarded entries |
| KnowledgeBuilder.Forwarded | src/knowledge/knowledge_builder.py:251 | the forwarded entries are exactly the item's entries other than `content`, `title` and `tags` |
| KnowledgeBuilder.CollidingItemsNotStored | src/knowledge/knowledge_builder.py:245-264 | as written, an item with a `category` or `source` field is never stored |
| KnowledgeBuilder.TextFilesNeverStored | src/knowledge/knowledge_builder.py:175-252 | as written, no text or markdown file is ever stored |
| KnowledgeBuilder.AddKnowledgeItem | src/knowledge/knowledge_builder.py:240-258 | an item is stored exactly when its extracted content is not empty, with that content, the category and the source |
| KnowledgeBuilder.AddKnowledgeItemMetadata | src/knowledge/knowledge_builder.py:245-255 | a stored item's metadata carries its category and source and every other field of the item with its value |
| KnowledgeBuilder.SongContent | src/knowledge/knowledge_builder.py:322-328 | the song text is the title line followed by the lyrics, album and release-date lines for the keys present, in that order |
| KnowledgeBuilder.EventContent | src/knowledge/knowledge_builder.py:356-362 | the event text is the title line followed by the date, location and description lines for the keys present, in that order |
| KnowledgeBuilder.OptionalLinesNone | src/knowledge/knowledge_builder.py:323-328 | with none of the optional keys present, no line is added |
| KnowledgeBuilder.OptionalLinesEnd | src/knowledge/knowledge_builder.py:323-328 | every added line ends with a newline |
| KnowledgeBuilder.AddEntryAlwaysFails | src/knowledge/knowledge_builder.py:316-337 | as written, every song or event that passes the field check raises `TypeError` |
| KnowledgeBuilder.AddEntry | src/knowledge/knowledge_builder.py:316-337 | an entry is stored exactly when `title` and `content` are present, with its text, its category, its title and `manual_input` as the source |
| KnowledgeBuilder.AddSongKnowledge | src/knowledge/knowledge_builder.py:308-340 | a song is skipped without `title` or `content`; otherwise it is stored under `songs` with the song text |
| KnowledgeBuilder.AddEventKnowledge | src/knowledge/knowledge_builder.py:342-374 | an event is skipped without `title` or `content`; otherwise it is stored under `events` with the event text |
| Prompts.PromptManager.constructor | src/llm/prompt_manager.py:55-67 | the registry starts empty and loads the template directory when one is configured, skipping templates that do not compile |
| Prompts.PromptManager.LoadTemplatesFromDir | src/llm/prompt_manager.py:83-96 | the loop registers the files in order as the reference loading does, skipping a file whose template fails to compile, and keeps the invariant |
| Prompts.LoadFilesCoherent | src/llm/prompt_manager.py:88-96 | after loading, the names are the earlier ones plus the key of every file whose template text is non-empty and compiles, that key being the `name` field or else the stem; other templates are unchanged; the invariant holds |
| Prompts.LoadFilesNonEmpty | src/llm/prompt_manager.py:91-92 | loading never registers an empty template |
| Prompts.LoadFilesLastWins | src/llm/prompt_manager.py:88-93 | a later file that registers a key, its text non-empty and compiling, replaces the earlier template under that key |
| Prompts.LoadFilesSkipsRejected | src/llm/prompt_manager.py:88-96 | a later file that is malformed, has no template text, or does not compile leaves the registry unchanged, so an earlier template under its key survives |
| Prompts.PromptManager.AddTemplate | src/llm/prompt_manager.py:186-194 | when the text compiles, the template is inserted or overwritten under its name; when it does not, the call reports the failure and the registry is unchanged; the invariant is kept |
| Prompts.UpsertCoherent | src/llm/prompt_manager.py:193 | after adding, the name maps to the new template, the names are the old ones plus this one, every other entry is unchanged, and the invariant holds |
| Prompts.PromptManager.RemoveTemplate | src/llm/prompt_manager.py:196-209 | the result is true, and the entry removed, exactly when the name was registered; otherwise nothing changes |
| Prompts.WithoutCoherent | src/llm/prompt_manager.py:205-206 | removal drops exactly that name, keeps every other entry, and keeps the invariant |
| Prompts.Remove | src/llm/prompt_manager.py:206 | deleting a key removes it from the iteration order and keeps the order free of repeats |
| Prompts.PromptManager.GetTemplate | src/llm/prompt_manager.py:98-107 | an unregistered name gives `None`; a registered one gives its template, whose name is that name |
| Prompts.PromptManager.RenderTemplate | src/llm/prompt_manager.py:109-126 | an unregistered name fails with the missing-template message before anything is rendered; a registered one is rendered |
| Prompts.PromptManager.ListTemplates | src/llm/prompt_manager.py:211-217 | the list holds exactly the registered names, once each |
| Prompts.PromptManager.GetTemplateInfo | src/llm/prompt_manager.py:219-236 | an unknown name gives `None`; otherwise the stored name and template text unchanged, and the variables of that text |
| Prompts.SelectTemplateByIntent | src/llm/prompt_manager.py:167-184 | `greeting`, `song_inquiry` and `basic_chat` select themselves; every other intent, `None` included, selects `daily_chat_prompt` |
| Prompts.SelectedTemplates | src/llm/prompt_manager.py:178-184 | every intent selects one of four templates |
| Prompts.ExtractTemplateVariables | src/llm/prompt_manager.py:238-255 | the variables repeat no name; they are exactly the names the placeholder pattern captures, each a non-empty run of word characters |
| Prompts.MatchAt | src/llm/prompt_manager.py:253 | a placeholder match starts with `{{`, ends with `}}` and captures a non-empty word |
| Prompts.PlaceholderMatches | src/llm/prompt_manager.py:253 | the placeholder `{{name}}` matches and captures `name` |
| Prompts.FindAllFrom | src/llm/prompt_manager.py:254 | every captured name is a non-empty run of word characters |
| Prompts.Dedup | src/llm/prompt_manager.py:255 | removing repeats keeps the same names and leaves none twice |

## Left out

- Neo4j access is not part of this model: the driver, its sessions, `retrieve` and `multi_hop_retrieve` of `Neo4jGraphRetriever`, and `close`. These are network I/O against an external database. Only the query text is modelled.
- Reading and parsing files is not part of this model. This covers `_load_graph_data`'s `open` and `json.load`, the knowledge builder's `rglob`, `open`, `yaml` and `pandas`, and the prompt loader's `glob` and `yaml.safe_load`. The loader works on an already-parsed `Snapshot`, and the prompt registry on parsed `TemplateFile` records. A file that cannot be opened or parsed is logged and skipped by the source; that case is not distinguished here.
- GraphRetriever.ToRelation: `weight` is kept as an opaque real. Nothing in the core reads it.
- GraphRetriever.InMemoryGraphRetriever.Retrieve: takes the `query` and `limit` arguments and ignores them, as the source does.
- CypherQueries.RetrievalQuery: an explicit non-integer `limit` is not modelled. Python would format whatever value it is given into the text.
- `GraphNode`, `Entity.__hash__` and the abstract `GraphRetriever` base class have no behaviour of their own and are not modelled.
- Helpers other than `merge_dict`, `safe_get`, `validate_config` and `split_text_chunks` are left out for these reasons:
  - `format_size` and `format_duration` work on floats;
  - `generate_id`, `calculate_hash`, `Timer`, `retry_on_exception`, `get_system_info` and `check_dependencies` depend on randomness, hashing, the clock or the environment;
  - `load_config` and `replace_env_variables` need files and environment variables;
  - `clean_text` depends on Unicode regular-expression classes.
- Strings.Lower: lower-cases ASCII letters only. All keywords compared after lower-casing are ASCII or caseless CJK, so the keyword tests are exact.
- Values.Repr: string literals are always single-quoted and not escaped. This does not change whether a CJK keyword occurs in `str(data)`.
- KnowledgeBuilder.Dispatch: takes the suffix as given. How `pathlib` computes a suffix is not modelled.
- KnowledgeBuilder.InferCategory: takes the file name as a string rather than a path.
- Calls to the vector store and graph store are left out. `add_documents` is an external store, and `_add_to_graph`, `update_knowledge` and `delete_knowledge` are empty stubs. A stored item is returned as the document that would be handed over. Logging is left out.
- The JSON and YAML walkers `_process_json_file` and `_process_yaml_file` are left out. They only iterate parsed data and call `_add_knowledge_item`, which is modelled.
- The CSV walker is also left out. Its `pandas` rows may hold floats such as NaN, which `Values.Value` does not represent.
- `Document._generate_id` (md5 of the content and the clock) is a parameter, `generatedId`. The embedding field is always `None` at construction and is not modelled.
- `ChromaVectorStore` and `VectorStoreFactory` depend on a foreign library and are not modelled.
- Prompts.PromptTemplate: only the name and the text are kept. Jinja is a foreign library. Which texts it compiles is the parameter `compiles`, and `TemplateSyntaxError` is `compiles` returning false. `PromptTemplate.render` is the parameter `render` of `RenderTemplate`.
- The current time used by `build_conversation_prompt` is not modelled.
- Prompts.TemplateFile: the `name` and `template` fields are modelled as strings. Non-string values in the YAML are not modelled.
- Prompts.IsWordChar: the regular expression's `\w` is modelled on ASCII letters, digits and `_`. Non-ASCII word characters in a placeholder are not recognised.
- Prompts.ExtractTemplateVariables: returns the names in order of first occurrence, where `list(set(...))` leaves the order unspecified. The contract states only what holds for every order.
- Nothing in the source runs concurrently. The multimodal code, the LLM client, the conversation manager, the agent, the logger and the driver scripts are not part of this model.

## Findings

| source | as written | input that shows it | evidently intended | confidence | as-written member | corrected member |
|---|---|---|---|---|---|---|
| src/knowledge/knowledge_builder.py:245-252 | `KnowledgeDocument(..., category=category, source=source, **{k: v for k, v in item_data.items() if k not in ["content", "title", "tags"]})` forwards an item's own `category` or `source` field next to the explicit argument of the same name. Python raises `TypeError`, which is caught at line 263, so the item is dropped. | the item that `_process_text_file` builds for any text or markdown file (lines 175-184) always has a `source` field. For example, `{"content": "x", "title": "a", "source": "a.txt"}` is never stored. | forward only the fields that are not named parameters, and store every item with non-empty content | high (not executed) | KnowledgeBuilder.TextFilesNeverStored | KnowledgeBuilder.AddKnowledgeItem |
| src/knowledge/knowledge_builder.py:330-371 | `add_song_knowledge` and `add_event_knowledge` pass `title=` and `content=` by name and again inside `**song_data` / `**event_data`. Every call that passes the required-field check raises `TypeError`, which is not caught. | `add_song_knowledge({"title": "t", "content": "c"})` | pass only the fields that are not named parameters, and store the entry under `songs` or `events` | high (not executed) | KnowledgeBuilder.AddEntryAlwaysFails | KnowledgeBuilder.AddEntry |
