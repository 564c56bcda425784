# Dungeon-master memory core in Dafny

This project models the pure logic of a dungeon-master memory manager. The manager keeps three
stores for an LLM-driven text adventure:

- a bounded working buffer of recent turns;
- an episodic archive searched by similarity;
- a Neo4j entity/relationship graph.

On every turn it builds a context string from the three stores and asks the story model for the
next narration. It then asks an extractor model for the entities and relationships the
narration mentions, and merges them into the graph.

The model covers three source files.

- `llm_client.py`: the brace-depth scan that cuts the first JSON object out of an LLM reply, the
  trailing-comma repair, and the fallback chain of `extract_entities`
  (modules `JsonSpan`, `Extractor`).
- `graph_store.py`:
  - label, relation and key normalisation (`Tokens`);
  - an in-memory graph with the MERGE/MATCH semantics that the Cypher queries encode, and the
    line formatting and de-duplication of the two read queries (`GraphStore`).
- `memory_manager.py`: the working buffer (`WorkingBuffer`), section-wise assembly of the
  context strings (`Context`), and the session operations (`MemoryManager`).

Python values are modelled as a `Json` datatype (`PyJson`). On it:

- `dict.get` returns the last pair with a key.
- Truthiness follows Python.
- A failing attribute access or iteration becomes a `Fault`.

The services are function-typed fields of `MemoryManager.Services`:

- the story model (`narrate`);
- the extractor model (`reply`);
- `json.loads` (`parse`, which returns an `Option`);
- the episodic search (`search`);
- the timestamp formatter (`clock`).

Timestamps are opaque `real` values passed in by the caller. Settings are constants taken from
`config.py`: `EPISODIC_K = 5`, `WORKING_CAPACITY = 6`, `SIMILARITY_THRESHOLD = 0.7`.

Some consequences of the code are easy to miss:

- **Node identity.** `merge_entity` matches a node on label *and* name (`MERGE (n:Label
  {name:$name})`), not on name alone. A typed merge of a name that a relationship has already
  created as an unlabelled node therefore yields two nodes with that name
  (`GraphStore.TypedMergeAfterRelationship`).
- **Property removal.** Attributes are written with `SET`, so a `null` value removes a
  property rather than keeping it (`GraphStore.SetEffect`).
- **The "Entity" label.** It is not a sure sign that the type had no alphanumeric character:
  the type `"entity"` also yields `"Entity"` (`Tokens.NodeLabelEntityWithoutFallback`).
- **The property `name`.** An attribute called `name` never reaches the node, because the
  parameter `$name` is overwritten with the entity name before `SET` runs.

## Model

| member | source | states |
|---|---|---|
| JsonSpan.Find | llm_client.py:81-83 | `str.find`: -1 exactly when the character is absent, otherwise the position of its first occurrence |
| JsonSpan.Scan | llm_client.py:84-93 | the brace loop either stops at the first end where the depth is back to zero, giving a balanced span, or runs off the text with the depth positive at every end |
| JsonSpan.ExtractFirstJson | llm_client.py:80-93 | no `{` gives `""`. A non-empty result is the substring starting at the first `{`, with equal `{`/`}` counts and positive depth at every shorter non-empty prefix. `""` with a `{` present means the depth never returns to zero. |
| JsonSpan.BalancedEndsWithClose | llm_client.py:89-92 | a returned span has at least two characters and ends with `}` |
| JsonSpan.BalancedUnique | llm_client.py:84-92 | from one start there is only one balanced end, so the returned span is well defined |
| JsonSpan.ExtractIsShortest | llm_client.py:84-92 | if the depth is zero at any end after the first `{`, a span is returned and it ends no later than that end |
| JsonSpan.ExtractFromWrapped | llm_client.py:80-93 | a balanced object preceded by brace-free prose is returned exactly, whatever follows it, braces included |
| JsonSpan.DropCommas | llm_client.py:73 | one pass never lengthens the text, and leaves it unchanged when no comma is followed, after optional whitespace, by the closing character |
| JsonSpan.DropCommasFirstMatch | llm_client.py:73 | a pass copies the text before the first match, replaces that match by its closing bracket, and continues as a pass over the rest, so every match met left to right is replaced |
| JsonSpan.DropCommasDeletes | llm_client.py:73 | one `re.sub(",\s*}", "}")` pass only deletes characters: the result's multiset is contained in the input's |
| JsonSpan.DropCommasKeeps | llm_client.py:73 | the pass keeps the count of every character that is neither a comma nor whitespace |
| JsonSpan.DropCommasIdentity | llm_client.py:73 | the pass leaves the text unchanged exactly when no comma is followed, after optional whitespace, by the closing character |
| JsonSpan.Cleanup | llm_client.py:73-74 | the two passes never lengthen the text |
| JsonSpan.CleanupCounts | llm_client.py:73-74 | the cleanup deletes only commas and whitespace: every other character keeps its count and nothing is added |
| JsonSpan.CleanupKeepsBrackets | llm_client.py:73-74 | the cleanup keeps the brace depth and the counts of `[` and `]` |
| JsonSpan.CleanupIdentity | llm_client.py:73-74 | text with no comma before `}` or `]` (modulo whitespace) is unchanged |
| JsonSpan.CleanupNotIdempotent | llm_client.py:73-74 | the cleanup is one left-to-right pass and is not idempotent: `",,}"` becomes `",}"`, then `"}"` |
| PyJson.Lookup | memory_manager.py:107-116 | `dict.get` on parsed JSON: absent exactly when no pair has the key, and otherwise a value paired with that key |
| PyJson.LookupLastPair | memory_manager.py:107-116 | `.get` on an object whose parsed text repeated a key sees the last pair, as `json.loads` keeps it |
| PyJson.Keys | graph_store.py:34 | the keys of a parsed dict: each key once, in the order of its first occurrence, and exactly the keys `.get` finds |
| PyJson.Items | graph_store.py:34 | `dict.items()`: one pair per key in key order, each holding the value `.get` returns for it, the last duplicate's |
| PyJson.ItemsDict | graph_store.py:34 | the items describe the same dict as the parsed pairs |
| PyJson.Iterate | memory_manager.py:106-113 | iterating a list gives its items, a dict its keys as strings in key order, and a string one single-character string per character; iterating `None`, a bool or a number raises `TypeError` |
| Extractor.ParseReply | llm_client.py:66-78 | the result is the empty extraction, or the parse of the span, or the parse of the cleaned span; no span gives the empty extraction |
| Extractor.ExtractEntities | llm_client.py:63-78 | on the extractor's reply: no span gives the empty extraction. Otherwise the span's parse is returned when it parses, the parse of the cleaned span when only that parses, and the empty extraction when neither does. |
| Extractor.NoCloseNoSpan | llm_client.py:80-93 | a reply without `}` yields no span |
| Extractor.TruncatedReplyIsEmpty | llm_client.py:66-68 | a reply cut off before its closing brace yields `{"entities": [], "relationships": []}` for any parser |
| Extractor.WrappedObjectParsed | llm_client.py:66-70 | a balanced object inside prose that parses is returned as parsed |
| Extractor.WrappedObjectRepaired | llm_client.py:71-76 | an object that fails to parse but parses after cleanup is returned as repaired |
| Extractor.UnparsableIsEmpty | llm_client.py:75-78 | when both parse attempts fail the empty extraction is returned |
| Tokens.Title | graph_store.py:36 | ASCII `str.title()`: same length, a letter upper-cased exactly when first or after a non-letter, other characters unchanged |
| Tokens.NodeLabel | graph_store.py:36 | the label is non-empty, all alphanumeric and does not start lower-case. Without an alphanumeric character in the type it is `"Entity"`. Otherwise it is the alphanumeric characters of the type, each upper-cased exactly when it is a letter that starts a run of letters, and lower-cased otherwise. |
| Tokens.TitleKeepsAlnum | graph_store.py:36 | title-casing leaves some alphanumeric character exactly when the type had one |
| Tokens.NodeLabelOfAcronym | graph_store.py:36 | `"NPC"` becomes `"Npc"` |
| Tokens.NodeLabelOfWords | graph_store.py:36 | `"dark elf"` becomes `"DarkElf"` |
| Tokens.NodeLabelFallback | graph_store.py:36 | `"---"` becomes `"Entity"` |
| Tokens.NodeLabelNotIdempotent | graph_store.py:36 | normalising a label again can change it: the label of `"dark elf"` is not its own label |
| Tokens.NodeLabelEntityWithoutFallback | graph_store.py:36 | `"Entity"` also arises from a type with letters (`"entity"`), so it does not mark the fallback |
| Tokens.RelationLabel | graph_store.py:51 | the relation label is non-empty and uses only `A-Z`, digits and `_`. It is `"RELATED"` when the upper-cased input keeps no such character, and otherwise the upper-cased kept characters. |
| Tokens.RelationLabelIdempotent | graph_store.py:51 | normalising a relation label twice equals normalising it once |
| Tokens.SanitizeKeyChars | graph_store.py:34 | a sanitised key has the same length, `' '` and `-` become `_`, every other character is kept, and no space or hyphen remains |
| Tokens.SanitizeKeyIdempotent | graph_store.py:34 | sanitising a key twice equals sanitising it once |
| Tokens.SanitizeAttributes | graph_store.py:34 | the comprehension's keys are exactly the sanitised keys of the items, and none holds a space or a hyphen |
| Tokens.SanitizeAttributesSpec | graph_store.py:34 | every item's sanitised key is present, every key comes from an item, and a key colliding after sanitising holds the value of the last item that produced it |
| GraphStore.AttributePairs | graph_store.py:30 | `(attributes or {}).items()`: a falsy value gives no pairs, a dict gives its items (each key once, at its first position, with its last value), and any other truthy value faults on `.items()` |
| GraphStore.WrittenProps | graph_store.py:34-41 | `SET` writes exactly the sanitised keys other than `name`, which `params["name"] = name` overrides, each with its sanitised value |
| GraphStore.DictAttributesWritten | graph_store.py:30-41 | for a dict of attributes, each written property holds the dict's value for the last of its keys, in `.items()` order, that sanitises to it |
| GraphStore.AttributeCollision | graph_store.py:30-41 | `{"a b": 1, "a-b": 2, "a b": 3}` writes `a_b = 2`: `"a b"` stays first with the value 3 and the later item `"a-b"` wins the collision |
| GraphStore.SetProps | graph_store.py:38-44 | `SET` writes each given key: a null value removes the property, other values replace it, and properties not written are kept |
| GraphStore.SetPropsIdempotent | graph_store.py:38-44 | applying the same `SET` twice equals applying it once |
| GraphStore.MergeEntity | graph_store.py:29-46 | afterwards a node with the normalised label and the name exists. A new node is added only if none matched. Only matching nodes have their properties changed, and only by the sanitised keys. Edges and every other node are untouched, and validity is preserved. |
| GraphStore.MergeEntityIdempotent | graph_store.py:29-46 | merging the same entity twice equals merging it once |
| GraphStore.NamedIndices | graph_store.py:53 | `MERGE (a {name:$src})` binds exactly the nodes with that name, in ascending order |
| GraphStore.EnsureNode | graph_store.py:53 | a name-only MERGE leaves the graph alone when some node has the name, and otherwise appends one unlabelled node with it |
| GraphStore.Endpoints | graph_store.py:53 | both endpoint MERGEs keep the existing nodes, append only unlabelled nodes, and leave both names present |
| GraphStore.PairEdges | graph_store.py:54 | the edge MERGE considers every bound (source, target) pair with the normalised relation |
| GraphStore.AddEdges | graph_store.py:54 | MERGE of edges appends only those not already present, keeps existing edges in place and keeps them distinct |
| GraphStore.MergeRelationship | graph_store.py:49-57 | nodes are those of the endpoint MERGEs. Existing edges stay as a prefix. Afterwards the edges are exactly the old ones plus every labelled edge from a source-named node to a target-named node. Validity is preserved. |
| GraphStore.MergeRelationshipIdempotent | graph_store.py:49-57 | a repeated call adds no node and no edge |
| GraphStore.MissingTargetCreatedBare | graph_store.py:53 | a target name absent before the MERGE exists afterwards only as unlabelled nodes without properties |
| GraphStore.UnlabelledNameGetsNewNode | graph_store.py:42 | a typed merge of a name carried only by unlabelled nodes always appends a new labelled node |
| GraphStore.RelationshipTargetIsBare | graph_store.py:52-57 | after a relationship to a new name, every node with that name is bare and unlabelled |
| GraphStore.TypedMergeAfterRelationship | graph_store.py:42-54 | a relationship to a new name, then a typed merge of that name, leaves two nodes with the name: the bare one and the labelled one |
| GraphStore.MergeEntityGrows | graph_store.py:29-46 | an entity merge keeps every node's label and name and every edge |
| GraphStore.MergeRelationshipGrows | graph_store.py:49-57 | a relationship merge keeps every node and every edge in place |
| GraphStore.MergeRelationshipRelates | graph_store.py:52-57 | afterwards an edge with the normalised relation runs from a node named `src` to a node named `tgt` |
| GraphStore.GrowsKeepsEntity | graph_store.py:42 | later merges never lose an entity node: labels and names stay in place |
| GraphStore.GrowsKeepsRelationship | graph_store.py:54 | later merges never lose a relationship: edges and endpoint names stay in place |
| GraphStore.DisplayLabel | graph_store.py:75 | a missing or empty label is shown as `"Entity"`, and a present label is shown as itself |
| GraphStore.FormatLine | graph_store.py:80 | a row line is the first node's shown label and quoted name, then the relationship type and a space, then the second node's shown label and quoted name |
| GraphStore.FormatLineSeparatesRelations | graph_store.py:80-114 | two rows between the same endpoints with different relationship types give different lines, so de-duplication keeps both |
| GraphStore.FormatLines | graph_store.py:74-80 | one formatted, non-empty line per returned row, in row order |
| GraphStore.AllRows | graph_store.py:66-67 | `MATCH (a)-[r]->(b)` gives one row per edge, in edge order, with both endpoints' first labels and names |
| GraphStore.FetchLines | graph_store.py:60-81 | `LIMIT` keeps the first `min(limit, edges)` rows, and each line formats the row of the edge at that position |
| GraphStore.FetchContext | graph_store.py:60-81 | the summary is `""` exactly when the limit is zero or the graph has no relationships |
| GraphStore.EdgeRows | graph_store.py:95 | an undirected match yields the forward row when the source has the name and the reverse row when the target has it, and nothing else |
| GraphStore.IncidentRowsSpec | graph_store.py:93-98 | the rows for a name are exactly the oriented rows of the edges touching a node with that name, with that name first |
| GraphStore.NameLines | graph_store.py:102-111 | at most `limit_per_entity` non-empty lines are produced per queried name |
| GraphStore.NameLinesSound | graph_store.py:102-111 | every line for a name formats a row of an edge incident to that name, with that name first |
| GraphStore.NameLinesComplete | graph_store.py:102-111 | when a name has no more incident rows than the limit, all of them are listed |
| GraphStore.EntityLinesBound | graph_store.py:102-111 | the concatenated lines number at most names × limit |
| GraphStore.EntityLinesMembers | graph_store.py:101-111 | a line occurs in the concatenation exactly when it occurs among some queried name's lines |
| Seqs.Dedup | graph_store.py:114 | `dict.fromkeys` keeps one copy of each line, drops no line, and keeps first-seen order |
| GraphStore.ContextLines | graph_store.py:99-114 | the output has no duplicate lines, keeps first-seen order, has the same lines as the concatenation, and has at most names × limit lines |
| GraphStore.ContextLinesSound | graph_store.py:99-114 | every output line is an incident row of some queried name, with that name first |
| GraphStore.ContextComplete | graph_store.py:99-114 | every incident row of a queried name under the limit appears in the output |
| GraphStore.ContextForEntities | graph_store.py:85-114 | no names gives `""`; otherwise the result is `""` exactly when the lines gathered for the queried names, at most `limit` per name, are all absent |
| GraphStore.ClearGraph | graph_store.py:116-121 | `DETACH DELETE` of every node leaves no named node and a valid graph |
| GraphStore.ClearedGraphIsSilent | graph_store.py:60-121 | after clearing, both read queries return `""` |
| WorkingBuffer.Capacity | memory_manager.py:22 | `working_capacity or WORKING_CAPACITY`: a positive request is kept and zero falls back to 6 |
| WorkingBuffer.Push | memory_manager.py:121 | an append to `deque(maxlen)` never exceeds capacity. It appends while there is room, drops the oldest turn when full, and always ends with the new turn. |
| WorkingBuffer.PushShape | memory_manager.py:121 | on a buffer within capacity, an append leaves the new turn last, after the old turns minus the oldest one exactly when the buffer was full |
| WorkingBuffer.PushAllKeepsLast | memory_manager.py:23 | after any number of pushes the buffer holds the last `capacity` items of everything pushed, in order |
| WorkingBuffer.PushAllFromEmpty | memory_manager.py:23 | from empty, n pushes leave the last min(n, capacity) turns in push order |
| Context.Parts | memory_manager.py:30-70 | the part list is empty exactly when every section is empty |
| Context.PartsSplit | memory_manager.py:30-70 | the parts of the sections are those of each section, concatenated in section order |
| Context.HeaderAt | memory_manager.py:32-45 | a non-empty section's header appears right after the parts of the sections before it |
| Context.EmptySectionVanishes | memory_manager.py:42-68 | an empty section contributes no header and no line |
| Context.Render | memory_manager.py:70 | all-empty sections give `""`; with non-empty headers the context is `""` exactly when every section is empty |
| Context.FirstPartIsHeader | memory_manager.py:32-70 | a non-empty context starts with a section header |
| MemoryManager.NewSession | memory_manager.py:21-26 | a new manager starts with an empty buffer and the requested or default capacity |
| MemoryManager.EpisodeLimit | memory_manager.py:29 | `EPISODIC_K or 3`: a positive setting is kept and zero falls back to 3 |
| MemoryManager.RelevantHits | memory_manager.py:39-41 | at most k hits are kept, and every kept hit scores at least 0.7 |
| MemoryManager.RelevantHitsSpec | memory_manager.py:39-41 | the kept hits are an order-preserving subsequence of the search results. When fewer than k are kept, every relevant result is kept. |
| MemoryManager.NameOf | memory_manager.py:55 | an entity dict contributes a name exactly when its `name` is a non-empty string. A falsy name contributes nothing, and a non-dict entry faults. |
| MemoryManager.NamesOf | memory_manager.py:55 | the name list succeeds exactly when every entry does. It holds exactly the non-empty names of the entries, in order, and no more names than entries. |
| MemoryManager.NamesOfOne | memory_manager.py:55 | a single entity gives its name, nothing, or its fault |
| MemoryManager.NamesOfConcat | memory_manager.py:55 | the names of two runs of entities are those of the first run followed by those of the second, with repetitions kept; the whole succeeds exactly when both runs do |
| MemoryManager.Listed | memory_manager.py:103-104 | `extracted.get(key, [])` iterated: a missing key gives no items and a list gives its items |
| MemoryManager.EntityNames | memory_manager.py:55 | a non-dict extraction faults on `.get`. Otherwise the names are those of the listed entities, or the fault of iterating them, and every name is non-empty. |
| MemoryManager.WithAnchor | memory_manager.py:58-60 | `"Kael"` is always present. It is appended at the end only if absent, and the extracted names keep their order. |
| MemoryManager.WithAnchorIdempotent | memory_manager.py:58-60 | anchoring twice equals anchoring once |
| MemoryManager.TurnLine | memory_manager.py:35 | a buffer line is `"- Player: "`, the player's words, `" \| DM: "`, then the narration |
| MemoryManager.HitLine | memory_manager.py:45 | a hit line is `"- "` and the hit's text with every newline turned into a space |
| MemoryManager.Preview | memory_manager.py:91 | an episode preview is the first 300 characters with each newline replaced by a space |
| MemoryManager.ExtractionSource | memory_manager.py:49-51 | the extractor sees the player input alone when there are no hits, and otherwise the input, a newline, and the hit texts joined by newlines |
| MemoryManager.HitTexts | memory_manager.py:51 | the hit texts, one per hit, in order |
| MemoryManager.GatherScene | memory_manager.py:39-65 | the scene's hits are the relevant search results, at most k of them. It succeeds exactly when the names can be extracted from the input and hits, and then names them with `"Kael"` anchored. Its facts are the entity context for those names with limit 5. |
| MemoryManager.WorldContext | memory_manager.py:28-70 | the turn context is built exactly when gathering the scene succeeds |
| MemoryManager.SceneEmpty | memory_manager.py:32-70 | the turn context is `""` exactly when the buffer is empty, no hit is relevant and the graph yields no facts |
| MemoryManager.SceneSectionOrder | memory_manager.py:32-70 | the turn context lists the buffer section, then the episodic section, then the graph section |
| MemoryManager.GeneralSections | memory_manager.py:72-92 | the general context has three sections, the last showing at most the 3 latest episodes |
| MemoryManager.GeneralContext | memory_manager.py:72-92 | the general context is `""` exactly when the buffer, the graph summary and the episode list are all empty |
| MemoryManager.GeneralEpisodes | memory_manager.py:87-91 | the episodic section shows the last min(3, n) episodes in order, each as `"- "` plus its 300-character preview |
| MemoryManager.EntityCallOf | memory_manager.py:106-111 | a non-dict entity faults, and an entity is skipped exactly when its name is falsy. Otherwise the call uses its name, its type (default `"Other"`) and its attribute pairs. |
| MemoryManager.RelationCallOf | memory_manager.py:113-118 | a non-dict relationship faults, and a relationship is skipped exactly when source or target is falsy. Otherwise the call uses its source, its relation (default `"RELATED"`) and its target. |
| MemoryManager.EntityStep | memory_manager.py:106-112 | a decoding fault propagates and a skipped entity leaves the graph alone. Otherwise the entity is merged with the decoded arguments and its node is in the graph afterwards. The graph only grows and stays valid. |
| MemoryManager.RelationStep | memory_manager.py:113-119 | a decoding fault propagates and a skipped relationship leaves the graph alone. Otherwise the relationship is merged with the decoded arguments and is in the graph afterwards. The graph only grows and stays valid. |
| MemoryManager.MergeEntities | memory_manager.py:106-112 | the entity loop only grows the graph and keeps it valid, even when it stops at a fault |
| MemoryManager.MergeRelationships | memory_manager.py:113-119 | the relationship loop only grows the graph and keeps it valid, even when it stops at a fault |
| MemoryManager.ApplyExtraction | memory_manager.py:103-119 | a non-dict extraction merges nothing, and any extraction only grows the graph and keeps it valid |
| MemoryManager.EntitiesMergedGrows | memory_manager.py:106-119 | entities merged earlier in the turn are still in the graph after later merges |
| MemoryManager.MergeEntitiesSpec | memory_manager.py:106-112 | the entity loop completes exactly when every entity can be read, and then every named entity has its node. When it stops, the fault is that of an unreadable entity and every earlier entity was readable. |
| MemoryManager.MergeRelationshipsSpec | memory_manager.py:113-119 | the relationship loop completes exactly when every relationship can be read, and then every relationship with both endpoints is in the graph. When it stops, the fault is that of an unreadable relationship and every earlier one was readable. |
| MemoryManager.ApplyExtractionSpec | memory_manager.py:103-119 | a dict extraction updates without fault exactly when both lists iterate and every item in them can be read, and then every entity and relationship is in the graph |
| MemoryManager.EntityTypeDefaultsToOther | memory_manager.py:107-111 | an entity with a name but no type or attributes is merged as type `"Other"` with no attributes |
| MemoryManager.RelationDefaultsToRelated | memory_manager.py:114-118 | a relationship without `relation` is merged as `"RELATED"` |
| MemoryManager.EmptyExtractionChangesNothing | memory_manager.py:103-119 | the empty extraction leaves the graph unchanged |
| MemoryManager.TruncatedReplyMergesNothing | memory_manager.py:102-119 | a truncated extractor reply changes nothing in the graph |
| MemoryManager.EpisodeText | memory_manager.py:100 | an episode text is `"Player: "`, the input, `"\nDM: "`, then the narration |
| MemoryManager.GenerateAndUpdate | memory_manager.py:94-122 | a context fault changes nothing. Otherwise one episode `"Player: …\nDM: …"` is appended, and the graph is the one the extraction of the narration produces. The turn succeeds exactly when that update has no fault, and a fault is that update's. On success the turn is pushed onto the buffer and the narration returned; on a fault the buffer is untouched. Capacity is kept, the graph only grows, and validity is preserved. |
| MemoryManager.GenerateMergesExtraction | memory_manager.py:94-122 | after a successful turn, every entity and relationship extracted from the narration is in the graph |
| MemoryManager.GenerateAppendsOne | memory_manager.py:100-121 | a successful turn adds exactly one episode with the promised text, and the buffer ends with the new turn after the previous turns minus any evicted one |
| MemoryManager.NonDictExtractionOnlyRecords | memory_manager.py:103-104 | when the extractor returns a non-dict, the turn succeeds and the graph is unchanged |
| MemoryManager.QueryLimit | memory_manager.py:131 | `k or EPISODIC_K`: a positive k is kept, and zero falls back to 5 |
| MemoryManager.QueryMemory | memory_manager.py:130-145 | the hits are always the search results. An empty query returns the 50-row graph summary. A non-empty query succeeds exactly when name extraction does, and returns the entity context of the extracted names without `"Kael"`. |
| MemoryManager.QueryWithoutNamesIsBlank | memory_manager.py:137-140 | a non-empty query with no extracted names returns `""` as graph context |
| MemoryManager.QueryMemory2 | memory_manager.py:124-128 | the dump returns the search results, and a graph summary that is `""` exactly when the graph has no relationships |
| MemoryManager.QueryMemoriesAgreeOnEmpty | memory_manager.py:124-145 | an empty query gives the same report from both query functions |
| MemoryManager.ResetMemory | memory_manager.py:153-158 | reset keeps the capacity, empties the buffer and the episodes, and leaves no graph node |
| MemoryManager.ResetIsBlank | memory_manager.py:153-158 | the general context after a reset is `""` |

## Left out

- Embeddings, similarity search and persistence of the episodic store (`vector_store.py`). These are floating-point and file I/O. The search is the `search` oracle, and scores are used only through `>= 0.7`.
- The story model and the extractor model, with their prompts. These are the `narrate` and `reply` oracles. The `.strip()` on the narration is part of `narrate`.
- `json.loads` is the `parse` oracle. The model does not say which texts it accepts.
- The Neo4j driver, sessions and Cypher text. Only the MERGE/MATCH/DELETE semantics the queries encode is modelled. Queries that Neo4j would reject are not modelled: labels starting with a digit, and keys that are not identifiers.
- Property value types: any JSON value is written as given, except that `null` removes the property. Neo4j's rejection of nested maps is not modelled.
- Truthy names, sources and targets that are not strings: the source passes them to Neo4j, and the model reports the `NonStringName` fault instead.
- A non-string `type`, or a non-string `relation`: the source raises in `.title()`/`.upper()`, and the model reports a fault.
- The order of rows that the Neo4j MATCH returns is taken to be edge insertion order. An undirected match on a self-loop is taken to give one row.
- Timestamps: `time.time()` values are caller-supplied `real`s, and `strftime(localtime(...))` is the `clock` oracle.
- Unicode: `str.title`, `isalnum`, `upper` and `\s` are modelled on ASCII only. Python's `\s` includes `\x1c`–`\x1f`, and so does the model.
- Negative `EPISODIC_K`, `k` or `working_capacity`: the model uses natural numbers.
- `close()` in both classes only closes the driver, which is I/O.
- Logging, `main.py` (the REPL, input and output, file deletion), `utils.py` (printing) and environment reading in `config.py`.
- MemoryManager.WorldContext: its contract states only when it succeeds. Its content is stated by `SceneEmpty` and `SceneSectionOrder` over the scene sections.
- GraphStore.NameLines: its contract bounds the line count. Soundness and completeness of the lines are separate lemmas, `NameLinesSound` and `NameLinesComplete`.
