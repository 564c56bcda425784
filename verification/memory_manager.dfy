/** `MemoryManager` (memory_manager.py): the session state (working buffer, episodic
    records, graph) and the operations on it. The episodic search, the extraction model,
    `json.loads`, the story model and timestamp formatting are oracles gathered in
    `Services`; the settings are constants. */
module MemoryManager {
  import opened Wrappers
  import opened Seqs
  import opened Text
  import opened PyJson
  import opened Extractor
  import opened Tokens
  import opened GraphStore
  import opened WorkingBuffer
  import opened Context

  // ---------------------------------------------------------------------------
  // Settings and state

  /** `EPISODIC_K`. */
  const EpisodicK: nat := 5
  /** `SIMILARITY_THRESHOLD`. */
  const SimilarityThreshold: real := 0.7
  /** The player character every scene context asks the graph about. */
  const PlayerName: string := "Kael"
  /** `limit_per_entity` of the entity-context queries. */
  const EntityContextLimit: nat := 5
  /** `limit` of the relationship summaries. */
  const SummaryLimit: nat := 50
  /** How many characters of an episodic record the general context shows. */
  const PreviewLength: nat := 300
  /** How many of the latest episodic records the general context shows. */
  const RecentEpisodes: nat := 3

  /** One working-buffer entry: `{"ts": ..., "player": ..., "dm": ...}`. */
  datatype Turn = Turn(ts: real, player: string, dm: string)

  /** One episodic record: its text and the `ts` of its metadata. */
  datatype Episode = Episode(text: string, ts: real)

  /** One result of the episodic search. */
  datatype Hit = Hit(text: string, score: real)

  /** The services the manager calls. */
  datatype Services = Services(
    search: (seq<Episode>, string, nat) -> seq<Hit>,  // EpisodicStore.query(text, k) over the records
    reply: string -> string,                          // the extraction model's raw reply
    parse: string -> Option<Json>,                    // json.loads
    narrate: (string, string) -> string,              // generate_story(world_context, player_input)
    clock: real -> string)                            // strftime of localtime(ts)

  datatype Session = Session(capacity: nat, buffer: seq<Turn>, episodes: seq<Episode>, graph: Graph)

  /** What every operation keeps true of a session. */
  predicate SessionValid(s: Session) {
    s.capacity > 0 && |s.buffer| <= s.capacity && Valid(s.graph)
  }

  /** `MemoryManager(working_capacity)` over an existing episodic file and graph. */
  function NewSession(requested: nat, episodes: seq<Episode>, g: Graph): (s: Session)
    ensures s.buffer == [] && s.episodes == episodes && s.graph == g
    ensures s.capacity == if requested == 0 then WorkingCapacity else requested
    ensures Valid(g) ==> SessionValid(s)
  {
    Session(Capacity(requested), [], episodes, g)
  }

  // ---------------------------------------------------------------------------
  // Episodic hits

  /** `settings.EPISODIC_K or 3`. */
  function EpisodeLimit(setting: nat): (k: nat)
    ensures k > 0
    ensures setting > 0 ==> k == setting
    ensures setting == 0 ==> k == 3
  {
    if setting == 0 then 3 else setting
  }

  predicate Relevant(h: Hit) {
    h.score >= SimilarityThreshold
  }

  /** The threshold filter followed by `[:k]`. */
  function RelevantHits(hits: seq<Hit>, k: nat): (r: seq<Hit>)
    ensures |r| <= k
    ensures forall i :: 0 <= i < |r| ==> Relevant(r[i])
  {
    Take(Filter(hits, Relevant), k)
  }

  /** The kept hits are an order-preserving selection of the search results; when fewer
      than `k` are kept, every relevant result is among them. */
  lemma RelevantHitsSpec(hits: seq<Hit>, k: nat)
    ensures IsSubseq(RelevantHits(hits, k), hits)
    ensures |RelevantHits(hits, k)| < k ==> forall h :: h in hits && Relevant(h) ==> h in RelevantHits(hits, k)
  {
    var f := Filter(hits, Relevant);
    FilterIsSubseq(hits, Relevant);
    PrefixOfSubseq(f, hits, |RelevantHits(hits, k)|);
    FilterCounts(hits, Relevant);
    forall h | h in hits && Relevant(h) ensures h in f {
      assert multiset(f)[h] == multiset(hits)[h];
    }
  }

  // ---------------------------------------------------------------------------
  // Entity names

  /** What `[e['name'] for e in ... if e.get('name')]` takes from one entity: nothing for a
      missing or falsy name, the name for a string, and a fault for an entity that is not a
      dict or a truthy name that is not a string. */
  function NameOf(e: Json): (r: Result<Option<string>, Fault>)
    ensures r == Ok(None) <==> e.Obj? && !Truthy(GetOr(e.fields, "name", Null))
    ensures forall n :: r == Ok(Some(n)) <==> e.Obj? && GetOr(e.fields, "name", Null) == Str(n) && n != ""
  {
    if !e.Obj? then Err(AttributeError)
    else
      var v := GetOr(e.fields, "name", Null);
      if !Truthy(v) then Ok(None)
      else if v.Str? then Ok(Some(v.s))
      else Err(NonStringName)
  }

  /** The comprehension over all entities, stopping at the first fault. */
  function NamesOf(items: seq<Json>): (r: Result<seq<string>, Fault>)
    ensures r.Ok? <==> forall i :: 0 <= i < |items| ==> NameOf(items[i]).Ok?
    ensures r.Ok? ==> |r.value| <= |items|
    ensures r.Ok? ==> forall n :: n in r.value ==> n != "" && exists i :: 0 <= i < |items| && NameOf(items[i]) == Ok(Some(n))
    ensures r.Ok? ==> forall i, n :: 0 <= i < |items| && NameOf(items[i]) == Ok(Some(n)) ==> n in r.value
  {
    if |items| == 0 then Ok([])
    else
      match NameOf(items[0])
      case Err(f) => Err(f)
      case Ok(o) =>
        var rest := NamesOf(items[1..]);
        assert forall i :: 1 <= i < |items| ==> items[i] == items[1..][i - 1];
        match rest
        case Err(f) => Err(f)
        case Ok(ns) =>
          Ok((if o.Some? then [o.value] else []) + ns)
  }

  /** One entity gives its name, nothing, or its fault. */
  lemma NamesOfOne(e: Json)
    ensures NameOf(e) == Ok(None) ==> NamesOf([e]) == Ok([])
    ensures forall n :: NameOf(e) == Ok(Some(n)) ==> NamesOf([e]) == Ok([n])
    ensures NameOf(e).Err? ==> NamesOf([e]) == Err(NameOf(e).error)
  {
    assert [e][0] == e && [e][1..] == [];
    assert NamesOf([e][1..]) == Ok([]);
    if NameOf(e).Ok? && NameOf(e).value.Some? {
      assert [NameOf(e).value.value] + [] == [NameOf(e).value.value];
    }
  }

  /** The names of two runs of entities are the names of the first run followed by those
      of the second, in order and with repetitions. */
  lemma {:induction false} NamesOfConcat(a: seq<Json>, b: seq<Json>)
    ensures NamesOf(a + b).Ok? <==> NamesOf(a).Ok? && NamesOf(b).Ok?
    ensures NamesOf(a).Ok? && NamesOf(b).Ok? ==> NamesOf(a + b) == Ok(NamesOf(a).value + NamesOf(b).value)
    decreases |a|
  {
    if |a| == 0 {
      assert a + b == b;
      if NamesOf(b).Ok? {
        assert [] + NamesOf(b).value == NamesOf(b).value;
      }
    } else {
      var ab := a + b;
      assert ab[0] == a[0] && ab[1..] == a[1..] + b;
      NamesOfConcat(a[1..], b);
      if NamesOf(a).Ok? && NamesOf(b).Ok? {
        var o := NameOf(a[0]).value;
        var head := if o.Some? then [o.value] else [];
        var x, y := NamesOf(a[1..]).value, NamesOf(b).value;
        assert NamesOf(ab).value == head + (x + y);
        AppendAssoc(head, x, y);
      }
    }
  }

  /** `extracted.get(key, [])`, iterated, on an extraction that is a dict. */
  function Listed(extracted: Json, key: string): (r: Result<seq<Json>, Fault>)
    requires extracted.Obj?
    ensures Lookup(extracted.fields, key) == None ==> r == Ok([])
    ensures forall v :: Lookup(extracted.fields, key) == Some(Arr(v)) ==> r == Ok(v)
  {
    Iterate(GetOr(extracted.fields, key, Arr([])))
  }

  /** The names taken from an extraction: those of its listed entities. */
  function EntityNames(extracted: Json): (r: Result<seq<string>, Fault>)
    ensures !extracted.Obj? ==> r == Err(AttributeError)
    ensures extracted.Obj? && Listed(extracted, "entities").Err? ==> r == Err(Listed(extracted, "entities").error)
    ensures extracted.Obj? && Listed(extracted, "entities").Ok? ==> r == NamesOf(Listed(extracted, "entities").value)
    ensures r.Ok? ==> forall n :: n in r.value ==> n != ""
  {
    if !extracted.Obj? then Err(AttributeError)
    else
      match Listed(extracted, "entities")
      case Err(f) => Err(f)
      case Ok(items) => NamesOf(items)
  }

  /** The player character is added at the end when the extraction did not name it. */
  function WithAnchor(names: seq<string>): (r: seq<string>)
    ensures PlayerName in r
    ensures |names| <= |r| <= |names| + 1 && r[..|names|] == names
    ensures PlayerName in names ==> r == names
  {
    if PlayerName in names then names else names + [PlayerName]
  }

  /** Anchoring twice is anchoring once. */
  lemma WithAnchorIdempotent(names: seq<string>)
    ensures WithAnchor(WithAnchor(names)) == WithAnchor(names)
  {
  }

  // ---------------------------------------------------------------------------
  // Context strings

  const RecentHeader: string := "Recent actions and DM responses:"
  const RelevantHeader: string := "\nRecent relevant events:"
  const SceneFactsHeader: string := "\nRelevant world facts and relationships:"
  const WorldFactsHeader: string := "\nWorld facts and relationships:"
  const EpisodicHeader: string := "\nRecent episodic memory:"

  /** One buffered turn: the player's words, then the narrator's, each after its tag. */
  function TurnLine(t: Turn): (r: string)
    ensures |r| == 17 + |t.player| + |t.dm|
    ensures r[..10] == "- Player: " && r[10..10 + |t.player|] == t.player
    ensures r[10 + |t.player|..17 + |t.player|] == " | DM: " && r[17 + |t.player|..] == t.dm
  {
    "- Player: " + t.player + " | DM: " + t.dm
  }

  function StampedTurnLine(t: Turn, clock: real -> string): string {
    "- [" + clock(t.ts) + "] Player: " + t.player + " | DM: " + t.dm
  }

  /** One recalled episode, flattened onto a single line. */
  function HitLine(h: Hit): (r: string)
    ensures |r| == |h.text| + 2 && r[..2] == "- "
    ensures '\n' !in r
    ensures forall i :: 0 <= i < |h.text| ==> r[i + 2] == if h.text[i] == '\n' then ' ' else h.text[i]
  {
    "- " + ReplaceChar(h.text, '\n', ' ')
  }

  /** `text[:300].replace("\n", " ")`. */
  function Preview(text: string): (r: string)
    ensures |r| == if |text| < PreviewLength then |text| else PreviewLength
    ensures '\n' !in r
    ensures forall i :: 0 <= i < |r| ==> r[i] == if text[i] == '\n' then ' ' else text[i]
  {
    ReplaceChar(Take(text, PreviewLength), '\n', ' ')
  }

  function EpisodeLine(e: Episode): string {
    "- " + Preview(e.text)
  }

  /** A part holding the graph context when there is one. */
  function Optional(text: string): (r: seq<string>)
    ensures r == [] <==> text == ""
  {
    if text == "" then [] else [text]
  }

  function TurnLines(buffer: seq<Turn>): (r: seq<string>)
    ensures |r| == |buffer|
  {
    seq(|buffer|, i requires 0 <= i < |buffer| => TurnLine(buffer[i]))
  }

  function StampedTurnLines(buffer: seq<Turn>, clock: real -> string): (r: seq<string>)
    ensures |r| == |buffer|
  {
    seq(|buffer|, i requires 0 <= i < |buffer| => StampedTurnLine(buffer[i], clock))
  }

  function HitLines(hits: seq<Hit>): (r: seq<string>)
    ensures |r| == |hits|
  {
    seq(|hits|, i requires 0 <= i < |hits| => HitLine(hits[i]))
  }

  function EpisodeLines(episodes: seq<Episode>): (r: seq<string>)
    ensures |r| == |episodes|
    ensures forall i :: 0 <= i < |r| ==> r[i] == EpisodeLine(episodes[i])
  {
    seq(|episodes|, i requires 0 <= i < |episodes| => EpisodeLine(episodes[i]))
  }

  /** The text handed to the extraction model: the player input, followed by the kept hits'
      texts when there are any. */
  function ExtractionSource(input: string, hits: seq<Hit>): (r: string)
    ensures hits == [] ==> r == input
    ensures hits != [] ==> r == input + "\n" + Join(HitTexts(hits), "\n")
    ensures |hits| == 1 ==> r == input + "\n" + hits[0].text
    ensures |input| <= |r| && r[..|input|] == input
  {
    if hits == [] then input
    else input + "\n" + Join(HitTexts(hits), "\n")
  }

  /** The texts of the hits, in order. */
  function HitTexts(hits: seq<Hit>): (r: seq<string>)
    ensures |r| == |hits|
    ensures forall i :: 0 <= i < |hits| ==> r[i] == hits[i].text
  {
    seq(|hits|, i requires 0 <= i < |hits| => hits[i].text)
  }

  /** What `get_world_context` gathers before rendering. */
  datatype Scene = Scene(hits: seq<Hit>, names: seq<string>, facts: string)

  /** Steps 1 to 3 of `get_world_context(player_input)`. */
  function GatherScene(s: Session, svc: Services, input: string): (r: Result<Scene, Fault>)
    requires EdgesInRange(s.graph)
    ensures r.Ok? ==> |r.value.hits| <= EpisodeLimit(EpisodicK)
    ensures r.Ok? ==> forall i :: 0 <= i < |r.value.hits| ==> Relevant(r.value.hits[i])
    ensures r.Ok? ==> PlayerName in r.value.names
    ensures r.Ok? ==> r.value.facts == ContextForEntities(s.graph, r.value.names, EntityContextLimit)
    ensures var k := EpisodeLimit(EpisodicK);
      var hits := RelevantHits(svc.search(s.episodes, input, k), k);
      var names := EntityNames(ExtractEntities(ExtractionSource(input, hits), svc.reply, svc.parse));
      && (r.Ok? <==> names.Ok?)
      && (r.Err? ==> r.error == names.error)
      && (r.Ok? ==> r.value.hits == hits && r.value.names == WithAnchor(names.value))
  {
    var k := EpisodeLimit(EpisodicK);
    var hits := RelevantHits(svc.search(s.episodes, input, k), k);
    var extracted := ExtractEntities(ExtractionSource(input, hits), svc.reply, svc.parse);
    match EntityNames(extracted)
    case Err(f) => Err(f)
    case Ok(names) =>
      var anchored := WithAnchor(names);
      Ok(Scene(hits, anchored, ContextForEntities(s.graph, anchored, EntityContextLimit)))
  }

  /** The three sections of a scene context, in their fixed order. */
  function SceneSections(buffer: seq<Turn>, scene: Scene): seq<Section> {
    [ Section(RecentHeader, TurnLines(buffer)),
      Section(RelevantHeader, HitLines(scene.hits)),
      Section(SceneFactsHeader, Optional(scene.facts)) ]
  }

  /** `get_world_context(player_input)`. */
  function WorldContext(s: Session, svc: Services, input: string): (r: Result<string, Fault>)
    requires EdgesInRange(s.graph)
    ensures r.Ok? <==> GatherScene(s, svc, input).Ok?
  {
    match GatherScene(s, svc, input)
    case Err(f) => Err(f)
    case Ok(scene) => Ok(Render(SceneSections(s.buffer, scene)))
  }

  /** A scene renders to nothing exactly when the buffer is empty, no hit is kept and the
      graph has nothing on the queried names. */
  lemma SceneEmpty(buffer: seq<Turn>, scene: Scene)
    ensures Render(SceneSections(buffer, scene)) == "" <==> buffer == [] && scene.hits == [] && scene.facts == ""
  {
    var sections := SceneSections(buffer, scene);
    assert forall i :: 0 <= i < |sections| ==> sections[i].header != "";
    assert AllEmpty(sections) <==> buffer == [] && scene.hits == [] && scene.facts == "" by {
      assert sections[0].lines == TurnLines(buffer);
      assert sections[1].lines == HitLines(scene.hits);
      assert sections[2].lines == Optional(scene.facts);
    }
  }

  /** The buffer section comes first, then the hits, then the graph facts: the parts are
      the three sections' parts one after another. */
  lemma SceneSectionOrder(buffer: seq<Turn>, scene: Scene)
    ensures var sections := SceneSections(buffer, scene);
      Parts(sections) == SectionParts(sections[0]) + SectionParts(sections[1]) + SectionParts(sections[2])
  {
    var sections := SceneSections(buffer, scene);
    PartsSplit(sections, 1);
    assert Parts(sections[..1]) == SectionParts(sections[0]) by {
      assert sections[..1][1..] == [];
    }
    assert Parts(sections[2..]) == SectionParts(sections[2]) by {
      assert sections[2..][1..] == [];
    }
  }

  /** The sections of `get_world_context2()`: stamped turns, the relationship summary, and
      the latest episodic records. */
  function GeneralSections(s: Session, svc: Services): (r: seq<Section>)
    requires EdgesInRange(s.graph)
    ensures |r| == 3
    ensures |r[2].lines| <= RecentEpisodes
    ensures r[2].lines == EpisodeLines(Last(s.episodes, RecentEpisodes))
  {
    [ Section(RecentHeader, StampedTurnLines(s.buffer, svc.clock)),
      Section(WorldFactsHeader, Optional(FetchContext(s.graph, SummaryLimit))),
      Section(EpisodicHeader, EpisodeLines(Last(s.episodes, RecentEpisodes))) ]
  }

  /** `get_world_context2()`. */
  function GeneralContext(s: Session, svc: Services): (r: string)
    requires EdgesInRange(s.graph)
    ensures r == "" <==> s.buffer == [] && (SummaryLimit == 0 || s.graph.edges == []) && s.episodes == []
  {
    var sections := GeneralSections(s, svc);
    assert AllEmpty(sections) <==> s.buffer == [] && (SummaryLimit == 0 || s.graph.edges == []) && s.episodes == [] by {
      assert sections[0].lines == StampedTurnLines(s.buffer, svc.clock);
      assert sections[1].lines == Optional(FetchContext(s.graph, SummaryLimit));
    }
    Render(sections)
  }

  /** The episodic lines of the general context are the last (at most three) records, in
      order, each a dash and a newline-free preview of at most 300 characters. */
  lemma GeneralEpisodes(s: Session, svc: Services)
    requires EdgesInRange(s.graph)
    ensures var lines := GeneralSections(s, svc)[2].lines;
      var shown := Last(s.episodes, RecentEpisodes);
      && |lines| == (if |s.episodes| < RecentEpisodes then |s.episodes| else RecentEpisodes)
      && shown == s.episodes[|s.episodes| - |lines|..]
      && forall i :: 0 <= i < |lines| ==>
           lines[i] == "- " + Preview(shown[i].text) && |lines[i]| <= 2 + PreviewLength
  {
  }

  // ---------------------------------------------------------------------------
  // Graph updates from an extraction

  /** The graph after some updates, and the fault that stopped them if one did. */
  datatype Applied = Applied(graph: Graph, fault: Option<Fault>)

  /** The arguments of one `merge_entity` call. */
  datatype EntityCall = EntityCall(name: string, typ: string, attrs: seq<(string, Json)>)

  /** How the entity loop reads one entity: `name = ent.get("name")`,
      `typ = ent.get("type", "Other")`, `attrs = ent.get("attributes", {})`; no call when the
      name is falsy. */
  function EntityCallOf(ent: Json): (r: Result<Option<EntityCall>, Fault>)
    ensures !ent.Obj? ==> r == Err(AttributeError)
    ensures ent.Obj? ==> (r == Ok(None) <==> !Truthy(GetOr(ent.fields, "name", Null)))
    ensures r.Ok? && r.value.Some? ==>
              && GetOr(ent.fields, "name", Null) == Str(r.value.value.name)
              && r.value.value.name != ""
              && GetOr(ent.fields, "type", Str("Other")) == Str(r.value.value.typ)
              && AttributePairs(GetOr(ent.fields, "attributes", Obj([]))) == Ok(r.value.value.attrs)
  {
    if !ent.Obj? then Err(AttributeError)
    else
      var name := GetOr(ent.fields, "name", Null);
      var typ := GetOr(ent.fields, "type", Str("Other"));
      var attrs := GetOr(ent.fields, "attributes", Obj([]));
      if !Truthy(name) then Ok(None)
      else
        match AttributePairs(attrs)
        case Err(f) => Err(f)
        case Ok(pairs) =>
          if !typ.Str? then Err(AttributeError)
          else if !name.Str? then Err(NonStringName)
          else Ok(Some(EntityCall(name.s, typ.s, pairs)))
  }

  /** The body of the entity loop for one entity. */
  function EntityStep(g: Graph, ent: Json): (r: Result<Graph, Fault>)
    ensures EntityCallOf(ent).Err? ==> r == Err(EntityCallOf(ent).error)
    ensures EntityCallOf(ent) == Ok(None) ==> r == Ok(g)
    ensures EntityCallOf(ent).Ok? && EntityCallOf(ent).value.Some? ==>
              var c := EntityCallOf(ent).value.value;
              r == Ok(MergeEntity(g, c.name, c.typ, c.attrs)) && HasEntity(r.value, NodeLabel(c.typ), c.name)
    ensures r.Ok? ==> Grows(g, r.value) && (Valid(g) ==> Valid(r.value))
  {
    match EntityCallOf(ent)
    case Err(f) => Err(f)
    case Ok(None) => Ok(g)
    case Ok(Some(c)) =>
      MergeEntityGrows(g, c.name, c.typ, c.attrs);
      Ok(MergeEntity(g, c.name, c.typ, c.attrs))
  }

  /** The arguments of one `merge_relationship` call. */
  datatype RelationCall = RelationCall(src: string, rel: string, tgt: string)

  /** How the relationship loop reads one relationship: `src = r.get("source")`,
      `relname = r.get("relation", "RELATED")`, `tgt = r.get("target")`; no call unless both
      endpoints are truthy. */
  function RelationCallOf(rel: Json): (r: Result<Option<RelationCall>, Fault>)
    ensures !rel.Obj? ==> r == Err(AttributeError)
    ensures rel.Obj? ==>
              (r == Ok(None) <==> !Truthy(GetOr(rel.fields, "source", Null)) || !Truthy(GetOr(rel.fields, "target", Null)))
    ensures r.Ok? && r.value.Some? ==>
              && GetOr(rel.fields, "source", Null) == Str(r.value.value.src)
              && GetOr(rel.fields, "relation", Str("RELATED")) == Str(r.value.value.rel)
              && GetOr(rel.fields, "target", Null) == Str(r.value.value.tgt)
              && r.value.value.src != "" && r.value.value.tgt != ""
  {
    if !rel.Obj? then Err(AttributeError)
    else
      var src := GetOr(rel.fields, "source", Null);
      var relname := GetOr(rel.fields, "relation", Str("RELATED"));
      var tgt := GetOr(rel.fields, "target", Null);
      if !Truthy(src) || !Truthy(tgt) then Ok(None)
      else if !relname.Str? then Err(AttributeError)
      else if !src.Str? || !tgt.Str? then Err(NonStringName)
      else Ok(Some(RelationCall(src.s, relname.s, tgt.s)))
  }

  /** The body of the relationship loop for one relationship. */
  function RelationStep(g: Graph, rel: Json): (r: Result<Graph, Fault>)
    ensures RelationCallOf(rel).Err? ==> r == Err(RelationCallOf(rel).error)
    ensures RelationCallOf(rel) == Ok(None) ==> r == Ok(g)
    ensures RelationCallOf(rel).Ok? && RelationCallOf(rel).value.Some? ==>
              var c := RelationCallOf(rel).value.value;
              r == Ok(MergeRelationship(g, c.src, c.rel, c.tgt)) && HasRelationship(r.value, c.src, c.rel, c.tgt)
    ensures r.Ok? ==> Grows(g, r.value) && (Valid(g) ==> Valid(r.value))
  {
    match RelationCallOf(rel)
    case Err(f) => Err(f)
    case Ok(None) => Ok(g)
    case Ok(Some(c)) =>
      MergeRelationshipGrows(g, c.src, c.rel, c.tgt);
      MergeRelationshipRelates(g, c.src, c.rel, c.tgt);
      Ok(MergeRelationship(g, c.src, c.rel, c.tgt))
  }

  /** `for ent in ents: ...`, stopping at the first fault with the merges made so far. */
  function MergeEntities(g: Graph, items: seq<Json>): (r: Applied)
    ensures Grows(g, r.graph)
    ensures Valid(g) ==> Valid(r.graph)
    decreases |items|
  {
    if |items| == 0 then Applied(g, None)
    else
      match EntityStep(g, items[0])
      case Err(f) => Applied(g, Some(f))
      case Ok(g1) =>
        var r := MergeEntities(g1, items[1..]);
        GrowsTransitive(g, g1, r.graph);
        r
  }

  /** `for r in rels: ...`, stopping at the first fault with the merges made so far. */
  function MergeRelationships(g: Graph, items: seq<Json>): (r: Applied)
    ensures Grows(g, r.graph)
    ensures Valid(g) ==> Valid(r.graph)
    decreases |items|
  {
    if |items| == 0 then Applied(g, None)
    else
      match RelationStep(g, items[0])
      case Err(f) => Applied(g, Some(f))
      case Ok(g1) =>
        var r := MergeRelationships(g1, items[1..]);
        GrowsTransitive(g, g1, r.graph);
        r
  }

  /** Step 5 of `generate_and_update`: a non-dict extraction gives no entities and no
      relationships; otherwise the entities are merged, then the relationships. */
  function ApplyExtraction(g: Graph, extracted: Json): (r: Applied)
    ensures !extracted.Obj? ==> r == Applied(g, None)
    ensures Grows(g, r.graph)
    ensures Valid(g) ==> Valid(r.graph)
  {
    if !extracted.Obj? then Applied(g, None)
    else
      match Listed(extracted, "entities")
      case Err(f) => Applied(g, Some(f))
      case Ok(entItems) =>
        var afterEnts := MergeEntities(g, entItems);
        if afterEnts.fault.Some? then afterEnts
        else
          match Listed(extracted, "relationships")
          case Err(f) => Applied(afterEnts.graph, Some(f))
          case Ok(relItems) =>
            var r := MergeRelationships(afterEnts.graph, relItems);
            GrowsTransitive(g, afterEnts.graph, r.graph);
            r
  }

  /** Every entity of `items` is read without a fault. */
  predicate EntityCallsOk(items: seq<Json>) {
    forall i :: 0 <= i < |items| ==> EntityCallOf(items[i]).Ok?
  }

  /** Every `merge_entity` call read from `items` has its node in `g`. */
  predicate EntitiesMerged(g: Graph, items: seq<Json>) {
    forall i :: 0 <= i < |items| && EntityCallOf(items[i]).Ok? && EntityCallOf(items[i]).value.Some? ==>
      HasEntity(g, NodeLabel(EntityCallOf(items[i]).value.value.typ), EntityCallOf(items[i]).value.value.name)
  }

  /** Every relationship of `items` is read without a fault. */
  predicate RelationCallsOk(items: seq<Json>) {
    forall i :: 0 <= i < |items| ==> RelationCallOf(items[i]).Ok?
  }

  /** Every `merge_relationship` call read from `items` has its relationship in `g`. */
  predicate RelationsMerged(g: Graph, items: seq<Json>) {
    forall i :: 0 <= i < |items| && RelationCallOf(items[i]).Ok? && RelationCallOf(items[i]).value.Some? ==>
      var c := RelationCallOf(items[i]).value.value;
      HasRelationship(g, c.src, c.rel, c.tgt)
  }

  /** Merged entities stay merged as the graph grows. */
  lemma EntitiesMergedGrows(g: Graph, h: Graph, items: seq<Json>)
    requires Grows(g, h) && EntitiesMerged(g, items)
    ensures EntitiesMerged(h, items)
  {
    forall i | 0 <= i < |items| && EntityCallOf(items[i]).Ok? && EntityCallOf(items[i]).value.Some?
      ensures HasEntity(h, NodeLabel(EntityCallOf(items[i]).value.value.typ), EntityCallOf(items[i]).value.value.name)
    {
      var c := EntityCallOf(items[i]).value.value;
      GrowsKeepsEntity(g, h, NodeLabel(c.typ), c.name);
    }
  }

  /** The entity loop stops exactly when an entity cannot be read, with that entity's fault
      and every earlier one read; when it runs through, every call is reflected in the
      graph. */
  lemma {:induction false} MergeEntitiesSpec(g: Graph, items: seq<Json>)
    ensures MergeEntities(g, items).fault.None? <==> EntityCallsOk(items)
    ensures MergeEntities(g, items).fault.None? ==> EntitiesMerged(MergeEntities(g, items).graph, items)
    ensures MergeEntities(g, items).fault.Some? ==>
              exists i :: 0 <= i < |items| && EntityCallOf(items[i]) == Err(MergeEntities(g, items).fault.value)
                && forall j :: 0 <= j < i ==> EntityCallOf(items[j]).Ok?
    decreases |items|
  {
    if |items| > 0 {
      var r := MergeEntities(g, items);
      match EntityStep(g, items[0])
      case Err(f) =>
        assert EntityCallOf(items[0]) == Err(f);
      case Ok(g1) =>
        var rest := items[1..];
        MergeEntitiesSpec(g1, rest);
        assert r == MergeEntities(g1, rest);
        assert forall i :: 1 <= i < |items| ==> items[i] == rest[i - 1];
        if r.fault.None? {
          forall i | 0 <= i < |items| && EntityCallOf(items[i]).Ok? && EntityCallOf(items[i]).value.Some?
            ensures HasEntity(r.graph, NodeLabel(EntityCallOf(items[i]).value.value.typ), EntityCallOf(items[i]).value.value.name)
          {
            var c := EntityCallOf(items[i]).value.value;
            if i == 0 {
              GrowsKeepsEntity(g1, r.graph, NodeLabel(c.typ), c.name);
            } else {
              assert EntityCallOf(rest[i - 1]) == EntityCallOf(items[i]);
            }
          }
        } else {
          var i :| 0 <= i < |rest| && EntityCallOf(rest[i]) == Err(r.fault.value)
            && forall j :: 0 <= j < i ==> EntityCallOf(rest[j]).Ok?;
          assert EntityCallOf(items[i + 1]) == Err(r.fault.value);
          assert forall j :: 0 <= j < i + 1 ==> EntityCallOf(items[j]).Ok? by {
            forall j | 0 <= j < i + 1 ensures EntityCallOf(items[j]).Ok? {
              if j > 0 { assert items[j] == rest[j - 1]; }
            }
          }
        }
    }
  }

  /** The relationship loop stops exactly when a relationship cannot be read, with that
      relationship's fault and every earlier one read; when it runs through, every
      relationship is in the graph. */
  lemma {:induction false} MergeRelationshipsSpec(g: Graph, items: seq<Json>)
    ensures MergeRelationships(g, items).fault.None? <==> RelationCallsOk(items)
    ensures MergeRelationships(g, items).fault.None? ==> RelationsMerged(MergeRelationships(g, items).graph, items)
    ensures MergeRelationships(g, items).fault.Some? ==>
              exists i :: 0 <= i < |items| && RelationCallOf(items[i]) == Err(MergeRelationships(g, items).fault.value)
                && forall j :: 0 <= j < i ==> RelationCallOf(items[j]).Ok?
    decreases |items|
  {
    if |items| > 0 {
      var r := MergeRelationships(g, items);
      match RelationStep(g, items[0])
      case Err(f) =>
        assert RelationCallOf(items[0]) == Err(f);
      case Ok(g1) =>
        var rest := items[1..];
        MergeRelationshipsSpec(g1, rest);
        assert r == MergeRelationships(g1, rest);
        assert forall i :: 1 <= i < |items| ==> items[i] == rest[i - 1];
        if r.fault.None? {
          forall i | 0 <= i < |items| && RelationCallOf(items[i]).Ok? && RelationCallOf(items[i]).value.Some?
            ensures var c := RelationCallOf(items[i]).value.value; HasRelationship(r.graph, c.src, c.rel, c.tgt)
          {
            var c := RelationCallOf(items[i]).value.value;
            if i == 0 {
              GrowsKeepsRelationship(g1, r.graph, c.src, c.rel, c.tgt);
            } else {
              assert RelationCallOf(rest[i - 1]) == RelationCallOf(items[i]);
            }
          }
        } else {
          var i :| 0 <= i < |rest| && RelationCallOf(rest[i]) == Err(r.fault.value)
            && forall j :: 0 <= j < i ==> RelationCallOf(rest[j]).Ok?;
          assert RelationCallOf(items[i + 1]) == Err(r.fault.value);
          assert forall j :: 0 <= j < i + 1 ==> RelationCallOf(items[j]).Ok? by {
            forall j | 0 <= j < i + 1 ensures RelationCallOf(items[j]).Ok? {
              if j > 0 { assert items[j] == rest[j - 1]; }
            }
          }
        }
    }
  }

  /** On a dict extraction the update runs through exactly when both lists can be iterated
      and every entity and relationship in them can be read, and then every one of them is
      in the graph. */
  lemma ApplyExtractionSpec(g: Graph, extracted: Json)
    ensures extracted.Obj? ==>
              var ents := Listed(extracted, "entities");
              var rels := Listed(extracted, "relationships");
              (ApplyExtraction(g, extracted).fault.None? <==>
                 ents.Ok? && EntityCallsOk(ents.value) && rels.Ok? && RelationCallsOk(rels.value))
    ensures extracted.Obj? && ApplyExtraction(g, extracted).fault.None? ==>
              var r := ApplyExtraction(g, extracted);
              && EntitiesMerged(r.graph, Listed(extracted, "entities").value)
              && RelationsMerged(r.graph, Listed(extracted, "relationships").value)
  {
    if extracted.Obj? {
      var r := ApplyExtraction(g, extracted);
      var ents := Listed(extracted, "entities");
      var rels := Listed(extracted, "relationships");
      if ents.Ok? {
        var afterEnts := MergeEntities(g, ents.value);
        MergeEntitiesSpec(g, ents.value);
        if afterEnts.fault.None? && rels.Ok? {
          MergeRelationshipsSpec(afterEnts.graph, rels.value);
          assert r == MergeRelationships(afterEnts.graph, rels.value);
          EntitiesMergedGrows(afterEnts.graph, r.graph, ents.value);
        }
      }
    }
  }

  /** An entity with a name but no `type` and no `attributes` is merged with the type
      `Other` and no properties. */
  lemma EntityTypeDefaultsToOther(fields: seq<(string, Json)>, name: string)
    requires Lookup(fields, "name") == Some(Str(name)) && name != ""
    requires Lookup(fields, "type") == None && Lookup(fields, "attributes") == None
    ensures EntityCallOf(Obj(fields)) == Ok(Some(EntityCall(name, "Other", [])))
  {
  }

  /** A relationship with both endpoints and no `relation` is merged as `RELATED`. */
  lemma RelationDefaultsToRelated(fields: seq<(string, Json)>, src: string, tgt: string)
    requires Lookup(fields, "source") == Some(Str(src)) && src != ""
    requires Lookup(fields, "target") == Some(Str(tgt)) && tgt != ""
    requires Lookup(fields, "relation") == None
    ensures RelationCallOf(Obj(fields)) == Ok(Some(RelationCall(src, "RELATED", tgt)))
  {
  }

  /** The empty extraction merges nothing and raises nothing. */
  lemma EmptyExtractionChangesNothing(g: Graph)
    ensures ApplyExtraction(g, EmptyExtraction) == Applied(g, None)
  {
    var fields := EmptyExtraction.fields;
    assert "relationships" != "entities" by { assert "relationships"[0] != "entities"[0]; }
    assert GetOr(fields, "relationships", Arr([])) == Arr([]);
    assert GetOr(fields, "entities", Arr([])) == Arr([]) by {
      assert Lookup(fields, "entities") == Lookup(fields[..1], "entities");
      assert fields[..1] == [("entities", Arr([]))];
    }
  }

  /** An extraction reply cut off before its first object closes leaves the graph as it was. */
  lemma TruncatedReplyMergesNothing(g: Graph, parse: string -> Option<Json>)
    ensures ApplyExtraction(g, ParseReply("{\"entities\": [{\"name\": \"Goblin\"", parse)) == Applied(g, None)
  {
    TruncatedReplyIsEmpty(parse);
    EmptyExtractionChangesNothing(g);
  }

  // ---------------------------------------------------------------------------
  // Session operations

  /** `f"Player: {player_input}\nDM: {dm_text}"`. */
  function EpisodeText(input: string, dm: string): (r: string)
    ensures |r| == 13 + |input| + |dm|
    ensures r[..8] == "Player: " && r[8..8 + |input|] == input
    ensures r[8 + |input|..13 + |input|] == "\nDM: " && r[13 + |input|..] == dm
  {
    "Player: " + input + "\nDM: " + dm
  }

  /** A session after an operation, and what the operation returned or the fault that
      stopped it. */
  datatype Outcome<T> = Outcome(session: Session, result: Result<T, Fault>)

  /** `generate_and_update(player_input)`, with `epTime` and `turnTime` the two readings of
      `time.time()`. A fault while building the context leaves the session as it was; once
      the story is generated its episodic record is kept even if the graph update then
      faults, and the working buffer only gains the turn when every step succeeded. */
  function GenerateAndUpdate(s: Session, svc: Services, input: string, epTime: real, turnTime: real): (r: Outcome<string>)
    requires EdgesInRange(s.graph)
    ensures WorldContext(s, svc, input).Err? ==> r == Outcome(s, Err(WorldContext(s, svc, input).error))
    ensures WorldContext(s, svc, input).Ok? ==>
              var dm := svc.narrate(WorldContext(s, svc, input).value, input);
              var applied := ApplyExtraction(s.graph, ExtractEntities(dm, svc.reply, svc.parse));
              && r.session.episodes == s.episodes + [Episode(EpisodeText(input, dm), epTime)]
              && r.session.graph == applied.graph
              && (r.result.Ok? <==> applied.fault.None?)
              && (r.result.Ok? ==> r.result.value == dm)
              && (r.result.Err? ==> applied.fault == Some(r.result.error))
    ensures r.result.Ok? ==> r.session.buffer == Push(s.buffer, s.capacity, Turn(turnTime, input, r.result.value))
    ensures r.result.Err? ==> r.session.buffer == s.buffer
    ensures r.session.capacity == s.capacity
    ensures Grows(s.graph, r.session.graph)
    ensures SessionValid(s) ==> SessionValid(r.session)
  {
    match WorldContext(s, svc, input)
    case Err(f) => Outcome(s, Err(f))
    case Ok(context) =>
      var dm := svc.narrate(context, input);
      var episodes := s.episodes + [Episode(EpisodeText(input, dm), epTime)];
      var applied := ApplyExtraction(s.graph, ExtractEntities(dm, svc.reply, svc.parse));
      match applied.fault
      case Some(f) => Outcome(Session(s.capacity, s.buffer, episodes, applied.graph), Err(f))
      case None =>
        var buffer := Push(s.buffer, s.capacity, Turn(turnTime, input, dm));
        Outcome(Session(s.capacity, buffer, episodes, applied.graph), Ok(dm))
  }

  /** A successful turn adds exactly one episodic record and one buffer entry, both at the
      end; the buffer stays within its capacity. */
  lemma GenerateAppendsOne(s: Session, svc: Services, input: string, epTime: real, turnTime: real)
    requires SessionValid(s)
    ensures var r := GenerateAndUpdate(s, svc, input, epTime, turnTime);
      r.result.Ok? ==>
      var dm := r.result.value;
      && |r.session.episodes| == |s.episodes| + 1
      && r.session.episodes[|s.episodes|].text == "Player: " + input + "\nDM: " + dm
      && |r.session.buffer| == (if |s.buffer| < s.capacity then |s.buffer| + 1 else s.capacity)
      && r.session.buffer[|r.session.buffer| - 1] == Turn(turnTime, input, dm)
      && r.session.buffer[..|r.session.buffer| - 1] == (if |s.buffer| < s.capacity then s.buffer else s.buffer[1..])
  {
    var r := GenerateAndUpdate(s, svc, input, epTime, turnTime);
    if r.result.Ok? {
      assert WorldContext(s, svc, input).Ok?;
      PushShape(s.buffer, s.capacity, Turn(turnTime, input, r.result.value));
    }
  }

  /** A completed turn leaves every entity and relationship extracted from the story in
      the graph. */
  lemma GenerateMergesExtraction(s: Session, svc: Services, input: string, epTime: real, turnTime: real)
    requires EdgesInRange(s.graph)
    ensures var r := GenerateAndUpdate(s, svc, input, epTime, turnTime);
      r.result.Ok? ==>
      var x := ExtractEntities(r.result.value, svc.reply, svc.parse);
      x.Obj? ==>
      && Listed(x, "entities").Ok? && EntitiesMerged(r.session.graph, Listed(x, "entities").value)
      && Listed(x, "relationships").Ok? && RelationsMerged(r.session.graph, Listed(x, "relationships").value)
  {
    var r := GenerateAndUpdate(s, svc, input, epTime, turnTime);
    if r.result.Ok? {
      assert WorldContext(s, svc, input).Ok?;
      ApplyExtractionSpec(s.graph, ExtractEntities(r.result.value, svc.reply, svc.parse));
    }
  }

  /** A story whose extraction is not a dict still completes the turn and leaves the graph
      untouched. */
  lemma NonDictExtractionOnlyRecords(s: Session, svc: Services, input: string, epTime: real, turnTime: real)
    requires EdgesInRange(s.graph)
    ensures var w := WorldContext(s, svc, input);
      var r := GenerateAndUpdate(s, svc, input, epTime, turnTime);
      w.Ok? && !ExtractEntities(svc.narrate(w.value, input), svc.reply, svc.parse).Obj? ==>
        r.result.Ok? && r.session.graph == s.graph
  {
  }

  /** `query_memory(q, k)`'s `k or settings.EPISODIC_K`. */
  function QueryLimit(k: nat): (r: nat)
    ensures k > 0 ==> r == k
    ensures k == 0 ==> r == EpisodicK
  {
    if k == 0 then EpisodicK else k
  }

  /** What the memory commands return: the raw search hits and a graph context. */
  datatype Report = Report(episodic: seq<Hit>, graph: string)

  /** `query_memory(q, k)`: the search results unfiltered; for an empty query the
      relationship summary, otherwise the context of the names extracted from the query,
      with no player anchor, and nothing when no name is extracted. */
  function QueryMemory(s: Session, svc: Services, q: string, k: nat): (r: Result<Report, Fault>)
    requires EdgesInRange(s.graph)
    ensures q == "" ==> r == Ok(Report(svc.search(s.episodes, q, QueryLimit(k)), FetchContext(s.graph, SummaryLimit)))
    ensures r.Ok? ==> r.value.episodic == svc.search(s.episodes, q, QueryLimit(k))
    ensures q != "" ==> (r.Ok? <==> EntityNames(ExtractEntities(q, svc.reply, svc.parse)).Ok?)
    ensures q != "" && r.Ok? ==>
              r.value.graph == ContextForEntities(s.graph, EntityNames(ExtractEntities(q, svc.reply, svc.parse)).value, EntityContextLimit)
  {
    var hits := svc.search(s.episodes, q, QueryLimit(k));
    if q == "" then Ok(Report(hits, FetchContext(s.graph, SummaryLimit)))
    else
      match EntityNames(ExtractEntities(q, svc.reply, svc.parse))
      case Err(f) => Err(f)
      case Ok(names) =>
        Ok(Report(hits, if names == [] then "" else ContextForEntities(s.graph, names, EntityContextLimit)))
  }

  /** Unlike the scene context, a query that names nobody shows no graph facts, even about
      the player character. */
  lemma QueryWithoutNamesIsBlank(s: Session, svc: Services, q: string, k: nat)
    requires EdgesInRange(s.graph)
    ensures q != "" && EntityNames(ExtractEntities(q, svc.reply, svc.parse)) == Ok([]) ==>
              QueryMemory(s, svc, q, k) == Ok(Report(svc.search(s.episodes, q, QueryLimit(k)), ""))
  {
  }

  /** `query_memory2(q, k)`: the search results and the relationship summary. */
  function QueryMemory2(s: Session, svc: Services, q: string, k: nat): (r: Report)
    requires EdgesInRange(s.graph)
    ensures r.episodic == svc.search(s.episodes, q, QueryLimit(k))
    ensures r.graph == "" <==> s.graph.edges == []
  {
    Report(svc.search(s.episodes, q, QueryLimit(k)), FetchContext(s.graph, SummaryLimit))
  }

  /** The two commands agree on an empty query. */
  lemma QueryMemoriesAgreeOnEmpty(s: Session, svc: Services, k: nat)
    requires EdgesInRange(s.graph)
    ensures QueryMemory(s, svc, "", k) == Ok(QueryMemory2(s, svc, "", k))
  {
  }

  /** `reset_memory()`: the graph is cleared, the episodic records and the working buffer
      are emptied; the capacity stays. */
  function ResetMemory(s: Session): (r: Session)
    ensures r.capacity == s.capacity && r.buffer == [] && r.episodes == []
    ensures forall n :: !HasName(r.graph, n)
    ensures s.capacity > 0 ==> SessionValid(r)
  {
    Session(s.capacity, [], [], ClearGraph(s.graph))
  }

  /** After a reset the general context is empty. */
  lemma ResetIsBlank(s: Session, svc: Services)
    ensures GeneralContext(ResetMemory(s), svc) == ""
  {
  }
}
