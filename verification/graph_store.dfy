/** `GraphStore` (graph_store.py) over an abstract property graph: the effect of its three
    MERGE queries, of the MATCH queries that read relationships back as text lines, and of
    clearing the store. Nodes are numbered by creation order and relationships are kept in
    creation order, which is also the order in which the MATCH queries are taken to return
    them. */
module GraphStore {
  import opened Wrappers
  import opened Seqs
  import opened Text
  import opened PyJson
  import opened Tokens

  // ---------------------------------------------------------------------------
  // The graph

  /** A node: at most one label (nodes made by `merge_entity` have one, endpoints made by
      `merge_relationship` have none), its `name` property, and its other properties. */
  datatype Node = Node(typeLabel: Option<string>, name: string, props: map<string, Json>)

  /** A directed relationship between the nodes at positions `src` and `tgt`. */
  datatype Edge = Edge(src: nat, rel: string, tgt: nat)

  datatype Graph = Graph(nodes: seq<Node>, edges: seq<Edge>)

  const EmptyGraph: Graph := Graph([], [])

  predicate EdgesInRange(g: Graph) {
    forall e :: e in g.edges ==> e.src < |g.nodes| && e.tgt < |g.nodes|
  }

  /** What the store's queries keep true: every relationship joins two existing nodes, no
      relationship is repeated, and no two nodes share both label and name. */
  predicate Valid(g: Graph) {
    && EdgesInRange(g)
    && Distinct(g.edges)
    && forall i, j :: 0 <= i < j < |g.nodes| ==>
         g.nodes[i].typeLabel != g.nodes[j].typeLabel || g.nodes[i].name != g.nodes[j].name
  }

  predicate HasName(g: Graph, name: string) {
    exists i :: 0 <= i < |g.nodes| && g.nodes[i].name == name
  }

  // ---------------------------------------------------------------------------
  // merge_entity

  /** `(attributes or {}).items()`: a falsy value stands for no attributes, a dict gives its
      items, and any other truthy value has no `.items()`. */
  function AttributePairs(attributes: Json): (r: Result<seq<(string, Json)>, Fault>)
    ensures !Truthy(attributes) ==> r == Ok([])
    ensures attributes.Obj? ==> r == Ok(Items(attributes.fields))
    ensures r.Err? <==> Truthy(attributes) && !attributes.Obj?
  {
    if !Truthy(attributes) then Ok([])
    else if attributes.Obj? then Ok(Items(attributes.fields))
    else Err(AttributeError)
  }

  /** The properties `SET` writes: the sanitised attributes, except that a `name` attribute
      is overridden by the merged name itself and so writes nothing new. */
  function WrittenProps(attrs: seq<(string, Json)>): (r: map<string, Json>)
    ensures forall k :: k in r <==> k != "name" && exists i :: 0 <= i < |attrs| && SanitizeKey(attrs[i].0) == k
    ensures forall k :: k in r ==> r[k] == SanitizeAttributes(attrs)[k]
  {
    SanitizeAttributes(attrs) - {"name"}
  }

  /** For a dict of attributes, a written property holds the dict's value for the last of
      its keys, in `.items()` order, that sanitises to the property's key. */
  lemma DictAttributesWritten(fields: seq<(string, Json)>)
    ensures var items := Items(fields);
      forall i :: 0 <= i < |items| && LastWithKey(items, i) && SanitizeKey(items[i].0) != "name" ==>
        && SanitizeKey(items[i].0) in WrittenProps(items)
        && Lookup(fields, items[i].0) == Some(WrittenProps(items)[SanitizeKey(items[i].0)])
  {
    SanitizeAttributesSpec(Items(fields));
  }

  /** A repeated JSON key keeps the position of its first occurrence and the value of its
      last: `{"a b": 1, "a-b": 2, "a b": 3}` has the items `("a b", 3), ("a-b", 2)`. */
  lemma CollidingItems()
    ensures AttributePairs(Obj([("a b", Num(1.0)), ("a-b", Num(2.0)), ("a b", Num(3.0))]))
         == Ok([("a b", Num(3.0)), ("a-b", Num(2.0))])
  {
    var fields := [("a b", Num(1.0)), ("a-b", Num(2.0)), ("a b", Num(3.0))];
    CollidingKeys();
    assert Lookup(fields, "a b") == Some(Num(3.0));
    assert Lookup(fields, "a-b") == Some(Num(2.0)) by {
      assert "a b" != "a-b" by { assert "a b"[1] != "a-b"[1]; }
      assert fields[..2] == [("a b", Num(1.0)), ("a-b", Num(2.0))];
    }
    assert Items(fields) == [("a b", Num(3.0)), ("a-b", Num(2.0))];
  }

  /** The keys of `{"a b": 1, "a-b": 2, "a b": 3}`, each once, by first occurrence. */
  lemma CollidingKeys()
    ensures Keys([("a b", Num(1.0)), ("a-b", Num(2.0)), ("a b", Num(3.0))]) == ["a b", "a-b"]
  {
    var fields := [("a b", Num(1.0)), ("a-b", Num(2.0)), ("a b", Num(3.0))];
    var ks := KeyList(fields);
    assert "a b" != "a-b" by { assert "a b"[1] != "a-b"[1]; }
    assert ks == ["a b", "a-b", "a b"];
    assert ks[..2] == ["a b", "a-b"];
    assert ks[..2][..1] == ["a b"];
    assert ks[..2][..1][..0] == [];
    assert Dedup(ks[..2][..1]) == ["a b"];
    assert Dedup(ks[..2]) == ["a b", "a-b"];
  }

  /** Keys that collide after sanitising keep the value of the later item. */
  lemma CollidingKeysWritten()
    ensures WrittenProps([("a b", Num(3.0)), ("a-b", Num(2.0))]) == map["a_b" := Num(2.0)]
  {
    var items := [("a b", Num(3.0)), ("a-b", Num(2.0))];
    assert SanitizeKey("a b") == "a_b" && SanitizeKey("a-b") == "a_b";
    var pairs := SanitizedPairs(items);
    assert pairs == [("a_b", Num(3.0)), ("a_b", Num(2.0))];
    assert pairs[..1] == [("a_b", Num(3.0))];
    assert pairs[..1][..0] == [];
    assert DictOf(pairs[..1]) == map["a_b" := Num(3.0)];
    assert DictOf(pairs) == map["a_b" := Num(2.0)];
    assert "a_b" != "name";
  }

  /** With the attributes `{"a b": 1, "a-b": 2, "a b": 3}` the property `a_b` is written
      as 2: the dict keeps `"a b"` first with the value 3, and the later item `"a-b"` wins
      the collision. */
  lemma AttributeCollision()
    ensures var attrs := Obj([("a b", Num(1.0)), ("a-b", Num(2.0)), ("a b", Num(3.0))]);
      AttributePairs(attrs).Ok? && WrittenProps(AttributePairs(attrs).value) == map["a_b" := Num(2.0)]
  {
    CollidingItems();
    CollidingKeysWritten();
  }

  /** `after` is `before` with every key of `w` set: a null value removes the key, any other
      value replaces it, and keys outside `w` keep their values. */
  ghost predicate SetEffect(before: map<string, Json>, after: map<string, Json>, w: map<string, Json>) {
    && (forall k :: k in w ==> (k in after <==> w[k] != Null))
    && (forall k :: k in w && w[k] != Null ==> after[k] == w[k])
    && (forall k :: k !in w ==> (k in after <==> k in before))
    && (forall k :: k !in w && k in before ==> after[k] == before[k])
  }

  /** `SET n.k1 = $k1, n.k2 = $k2, ...` on one node's properties. */
  function SetProps(props: map<string, Json>, w: map<string, Json>): (r: map<string, Json>)
    ensures SetEffect(props, r, w)
  {
    map k | k in props.Keys + w.Keys && !(k in w && w[k] == Null) :: if k in w then w[k] else props[k]
  }

  /** Applying the same `SET` twice is applying it once. */
  lemma SetPropsIdempotent(props: map<string, Json>, w: map<string, Json>)
    ensures SetProps(SetProps(props, w), w) == SetProps(props, w)
  {
    var once := SetProps(props, w);
    var twice := SetProps(once, w);
    assert forall k :: k in twice <==> k in once;
  }

  predicate IsEntity(n: Node, lab: string, name: string) {
    n.typeLabel == Some(lab) && n.name == name
  }

  predicate HasEntity(g: Graph, lab: string, name: string) {
    exists i :: 0 <= i < |g.nodes| && IsEntity(g.nodes[i], lab, name)
  }

  /** `merge_entity(name, typ, attributes)` with the attributes given as their pairs:
      `MERGE (n:<label> {name:$name}) SET ...`. Every node carrying the label and the name is
      updated; when there is none, one such node is created and then updated. */
  function MergeEntity(g: Graph, name: string, typ: string, attrs: seq<(string, Json)>): (r: Graph)
    ensures r.edges == g.edges
    ensures |r.nodes| == |g.nodes| + (if HasEntity(g, NodeLabel(typ), name) then 0 else 1)
    ensures HasEntity(r, NodeLabel(typ), name)
    ensures forall i :: 0 <= i < |g.nodes| ==>
              r.nodes[i].typeLabel == g.nodes[i].typeLabel && r.nodes[i].name == g.nodes[i].name
    ensures forall i :: 0 <= i < |g.nodes| && !IsEntity(g.nodes[i], NodeLabel(typ), name) ==>
              r.nodes[i] == g.nodes[i]
    ensures forall i :: 0 <= i < |g.nodes| && IsEntity(g.nodes[i], NodeLabel(typ), name) ==>
              SetEffect(g.nodes[i].props, r.nodes[i].props, WrittenProps(attrs))
    ensures |r.nodes| > |g.nodes| ==>
              IsEntity(r.nodes[|g.nodes|], NodeLabel(typ), name)
              && SetEffect(map[], r.nodes[|g.nodes|].props, WrittenProps(attrs))
    ensures Valid(g) ==> Valid(r)
  {
    var lab := NodeLabel(typ);
    var w := WrittenProps(attrs);
    if HasEntity(g, lab, name) then
      var nodes := seq(|g.nodes|, i requires 0 <= i < |g.nodes| =>
        if IsEntity(g.nodes[i], lab, name) then g.nodes[i].(props := SetProps(g.nodes[i].props, w))
        else g.nodes[i]);
      var i :| 0 <= i < |g.nodes| && IsEntity(g.nodes[i], lab, name);
      assert IsEntity(nodes[i], lab, name);
      Graph(nodes, g.edges)
    else
      var r := Graph(g.nodes + [Node(Some(lab), name, SetProps(map[], w))], g.edges);
      assert IsEntity(r.nodes[|g.nodes|], lab, name);
      r
  }

  /** Merging the same entity twice is merging it once. */
  lemma MergeEntityIdempotent(g: Graph, name: string, typ: string, attrs: seq<(string, Json)>)
    ensures MergeEntity(MergeEntity(g, name, typ, attrs), name, typ, attrs) == MergeEntity(g, name, typ, attrs)
  {
    var lab := NodeLabel(typ);
    var w := WrittenProps(attrs);
    var once := MergeEntity(g, name, typ, attrs);
    var twice := MergeEntity(once, name, typ, attrs);
    assert |twice.nodes| == |once.nodes|;
    forall i | 0 <= i < |once.nodes| ensures twice.nodes[i] == once.nodes[i] {
      if IsEntity(once.nodes[i], lab, name) {
        SetPropsIdempotent(if i < |g.nodes| then g.nodes[i].props else map[], w);
        SetEffectUnique(once.nodes[i].props, twice.nodes[i].props, SetProps(once.nodes[i].props, w), w);
        if i < |g.nodes| {
          SetEffectUnique(g.nodes[i].props, once.nodes[i].props, SetProps(g.nodes[i].props, w), w);
        } else {
          SetEffectUnique(map[], once.nodes[i].props, SetProps(map[], w), w);
        }
      }
    }
  }

  /** `SetEffect` pins the resulting properties down completely. */
  lemma SetEffectUnique(before: map<string, Json>, a: map<string, Json>, b: map<string, Json>, w: map<string, Json>)
    requires SetEffect(before, a, w) && SetEffect(before, b, w)
    ensures a == b
  {
    assert forall k :: k in a <==> k in b;
  }

  // ---------------------------------------------------------------------------
  // merge_relationship

  /** Positions of the nodes named `name`, in increasing order. */
  function NamedIndices(nodes: seq<Node>, name: string): (r: seq<nat>)
    ensures forall i: nat :: i in r <==> i < |nodes| && nodes[i].name == name
    ensures forall a, b :: 0 <= a < b < |r| ==> r[a] < r[b]
  {
    if |nodes| == 0 then []
    else
      var n := |nodes| - 1;
      var init := NamedIndices(nodes[..n], name);
      assert forall i :: 0 <= i < n ==> nodes[..n][i] == nodes[i];
      forall k | 0 <= k < |init| ensures init[k] < n {
        assert init[k] in init;
      }
      init + (if nodes[n].name == name then [n] else [])
  }

  /** `MERGE (a {name:$name})` on its own: the named nodes if there are any, else one new
      unlabelled node with that name and nothing else. */
  function EnsureNode(g: Graph, name: string): (r: Graph)
    ensures r.edges == g.edges
    ensures HasName(r, name)
    ensures HasName(g, name) ==> r == g
    ensures !HasName(g, name) ==> r.nodes == g.nodes + [Node(None, name, map[])]
    ensures forall n :: HasName(r, n) <==> HasName(g, n) || n == name
    ensures Valid(g) ==> Valid(r)
  {
    if HasName(g, name) then g
    else
      var r := Graph(g.nodes + [Node(None, name, map[])], g.edges);
      assert r.nodes[|g.nodes|].name == name;
      assert forall i :: 0 <= i < |g.nodes| ==> r.nodes[i] == g.nodes[i];
      assert forall n :: HasName(r, n) ==> HasName(g, n) || n == name by {
        forall n | HasName(r, n) ensures HasName(g, n) || n == name {
          var i :| 0 <= i < |r.nodes| && r.nodes[i].name == n;
          if i < |g.nodes| {
            assert g.nodes[i].name == n;
          }
        }
      }
      r
  }

  /** How many nodes `merge_relationship(src, _, tgt)` creates on `g`. */
  function NewEndpoints(g: Graph, src: string, tgt: string): nat {
    (if HasName(g, src) then 0 else 1) + (if HasName(g, tgt) || tgt == src then 0 else 1)
  }

  /** The two `MERGE (x {name: ...})` clauses: the nodes are those of `g` followed by an
      unlabelled, property-free node for each endpoint name no node had. */
  function Endpoints(g: Graph, src: string, tgt: string): (r: Graph)
    ensures r.edges == g.edges
    ensures |r.nodes| == |g.nodes| + NewEndpoints(g, src, tgt)
    ensures r.nodes[..|g.nodes|] == g.nodes
    ensures forall i :: 0 <= i < |g.nodes| ==> r.nodes[i] == g.nodes[i]
    ensures forall i :: |g.nodes| <= i < |r.nodes| ==>
              r.nodes[i].typeLabel == None && r.nodes[i].props == map[]
              && (r.nodes[i].name == src || r.nodes[i].name == tgt) && !HasName(g, r.nodes[i].name)
    ensures HasName(r, src) && HasName(r, tgt)
    ensures Valid(g) ==> Valid(r)
  {
    var g1 := EnsureNode(g, src);
    var r := EnsureNode(g1, tgt);
    assert g1.nodes[..|g.nodes|] == g.nodes;
    assert r.nodes[..|g1.nodes|] == g1.nodes;
    assert HasName(g1, tgt) <==> HasName(g, tgt) || tgt == src;
    assert HasName(r, src);
    r
  }

  /** Every relationship `rel` from a position in `srcs` to a position in `tgts`. */
  function PairEdges(srcs: seq<nat>, rel: string, tgts: seq<nat>): (r: seq<Edge>)
    ensures forall e :: e in r <==> e.src in srcs && e.rel == rel && e.tgt in tgts
  {
    if |srcs| == 0 then []
    else
      var row := seq(|tgts|, j requires 0 <= j < |tgts| => Edge(srcs[0], rel, tgts[j]));
      assert forall j :: 0 <= j < |tgts| ==> row[j] == Edge(srcs[0], rel, tgts[j]);
      row + PairEdges(srcs[1..], rel, tgts)
  }

  /** `MERGE (a)-[r:REL]->(b)` row by row: each relationship not yet present is appended. */
  function AddEdges(edges: seq<Edge>, added: seq<Edge>): (r: seq<Edge>)
    ensures |edges| <= |r| && r[..|edges|] == edges
    ensures forall e :: e in r <==> e in edges || e in added
    ensures Distinct(edges) ==> Distinct(r)
    decreases |added|
  {
    if |added| == 0 then edges
    else
      var next := if added[0] in edges then edges else edges + [added[0]];
      var r := AddEdges(next, added[1..]);
      assert next[..|edges|] == edges;
      assert r[..|edges|] == r[..|next|][..|edges|];
      assert forall e :: e in added ==> e == added[0] || e in added[1..];
      r
  }

  /** Adding relationships that are all present already changes nothing. */
  lemma {:induction false} AddEdgesPresent(edges: seq<Edge>, added: seq<Edge>)
    requires forall e :: e in added ==> e in edges
    ensures AddEdges(edges, added) == edges
    decreases |added|
  {
    if |added| > 0 {
      assert added[0] in edges;
      AddEdgesPresent(edges, added[1..]);
    }
  }

  /** The relationships `merge_relationship(src, rel, tgt)` asks for once its endpoints exist. */
  function WantedEdges(g: Graph, src: string, rel: string, tgt: string): (r: seq<Edge>)
    ensures forall e :: e in r <==>
              e.rel == RelationLabel(rel) && e.src < |g.nodes| && e.tgt < |g.nodes|
              && g.nodes[e.src].name == src && g.nodes[e.tgt].name == tgt
  {
    PairEdges(NamedIndices(g.nodes, src), RelationLabel(rel), NamedIndices(g.nodes, tgt))
  }

  /** `merge_relationship(src, rel, tgt)`: `MERGE (a {name:$src}) MERGE (b {name:$tgt})
      MERGE (a)-[r:REL]->(b)`. The endpoints are matched by name alone, whatever their
      label; a missing endpoint is created unlabelled (once, when both names are the same
      missing name); then every node named `src` gets a relationship to every node named
      `tgt`, unless it has that one already. */
  function MergeRelationship(g: Graph, src: string, rel: string, tgt: string): (r: Graph)
    ensures r.nodes == Endpoints(g, src, tgt).nodes
    ensures |g.edges| <= |r.edges| && r.edges[..|g.edges|] == g.edges
    ensures forall e :: e in r.edges <==>
              e in g.edges
              || (e.rel == RelationLabel(rel) && e.src < |r.nodes| && e.tgt < |r.nodes|
                  && r.nodes[e.src].name == src && r.nodes[e.tgt].name == tgt)
    ensures Valid(g) ==> Valid(r)
  {
    var g2 := Endpoints(g, src, tgt);
    Graph(g2.nodes, AddEdges(g2.edges, WantedEdges(g2, src, rel, tgt)))
  }

  /** Repeating a `merge_relationship` call changes nothing: no node and no relationship is
      added the second time. */
  lemma MergeRelationshipIdempotent(g: Graph, src: string, rel: string, tgt: string)
    ensures MergeRelationship(MergeRelationship(g, src, rel, tgt), src, rel, tgt) == MergeRelationship(g, src, rel, tgt)
  {
    var once := MergeRelationship(g, src, rel, tgt);
    var twice := MergeRelationship(once, src, rel, tgt);
    assert Endpoints(once, src, tgt) == once;
    AddEdgesPresent(once.edges, WantedEdges(once, src, rel, tgt));
  }

  // ---------------------------------------------------------------------------
  // Growth

  /** `h` extends `g`: every node keeps its label and name and every relationship stays,
      in place. */
  predicate Grows(g: Graph, h: Graph) {
    && |g.nodes| <= |h.nodes|
    && (forall i :: 0 <= i < |g.nodes| ==> h.nodes[i].typeLabel == g.nodes[i].typeLabel && h.nodes[i].name == g.nodes[i].name)
    && |g.edges| <= |h.edges| && h.edges[..|g.edges|] == g.edges
  }

  lemma GrowsTransitive(a: Graph, b: Graph, c: Graph)
    requires Grows(a, b) && Grows(b, c)
    ensures Grows(a, c)
  {
    assert c.edges[..|a.edges|] == c.edges[..|b.edges|][..|a.edges|];
  }

  /** `merge_entity` only grows the graph. */
  lemma MergeEntityGrows(g: Graph, name: string, typ: string, attrs: seq<(string, Json)>)
    ensures Grows(g, MergeEntity(g, name, typ, attrs))
  {
  }

  /** `merge_relationship` only grows the graph. */
  lemma MergeRelationshipGrows(g: Graph, src: string, rel: string, tgt: string)
    ensures Grows(g, MergeRelationship(g, src, rel, tgt))
  {
    var r := MergeRelationship(g, src, rel, tgt);
    assert forall i :: 0 <= i < |g.nodes| ==> r.nodes[i] == r.nodes[..|g.nodes|][i];
  }

  /** `g` holds an edge of the relationship type made from `rel`, from a node named `src`
      to a node named `tgt`. */
  predicate HasRelationship(g: Graph, src: string, rel: string, tgt: string) {
    exists e :: e in g.edges && e.rel == RelationLabel(rel) && e.src < |g.nodes| && e.tgt < |g.nodes|
      && g.nodes[e.src].name == src && g.nodes[e.tgt].name == tgt
  }

  /** After `merge_relationship(src, rel, tgt)` the relationship is in the graph. */
  lemma MergeRelationshipRelates(g: Graph, src: string, rel: string, tgt: string)
    ensures HasRelationship(MergeRelationship(g, src, rel, tgt), src, rel, tgt)
  {
    var ends := Endpoints(g, src, tgt);
    var i :| 0 <= i < |ends.nodes| && ends.nodes[i].name == src;
    var j :| 0 <= j < |ends.nodes| && ends.nodes[j].name == tgt;
    var r := MergeRelationship(g, src, rel, tgt);
    var e := Edge(i, RelationLabel(rel), j);
    assert r.nodes == ends.nodes;
    assert e.src < |r.nodes| && e.tgt < |r.nodes| && r.nodes[e.src].name == src && r.nodes[e.tgt].name == tgt;
    assert e in r.edges;
  }

  /** A grown graph still holds every entity the smaller one held. */
  lemma GrowsKeepsEntity(g: Graph, h: Graph, lab: string, name: string)
    requires Grows(g, h) && HasEntity(g, lab, name)
    ensures HasEntity(h, lab, name)
  {
    var i :| 0 <= i < |g.nodes| && IsEntity(g.nodes[i], lab, name);
    assert IsEntity(h.nodes[i], lab, name);
  }

  /** A grown graph still holds every relationship the smaller one held. */
  lemma GrowsKeepsRelationship(g: Graph, h: Graph, src: string, rel: string, tgt: string)
    requires Grows(g, h) && HasRelationship(g, src, rel, tgt)
    ensures HasRelationship(h, src, rel, tgt)
  {
    var e :| e in g.edges && e.rel == RelationLabel(rel) && e.src < |g.nodes| && e.tgt < |g.nodes|
      && g.nodes[e.src].name == src && g.nodes[e.tgt].name == tgt;
    assert e in h.edges[..|g.edges|];
  }

  // ---------------------------------------------------------------------------
  // Reading relationships back

  /** One result row: `labels(a)[0], a.name, type(r), labels(b)[0], b.name`. */
  datatype Row = Row(aLabel: Option<string>, aName: string, rel: string, bLabel: Option<string>, bName: string)

  function RowOf(g: Graph, a: nat, rel: string, b: nat): Row
    requires a < |g.nodes| && b < |g.nodes|
  {
    Row(g.nodes[a].typeLabel, g.nodes[a].name, rel, g.nodes[b].typeLabel, g.nodes[b].name)
  }

  /** `labels(x)[0] or "Entity"`: an unlabelled node is shown as `Entity`. */
  function DisplayLabel(lab: Option<string>): (r: string)
    ensures r != ""
    ensures lab.Some? && lab.value != "" ==> r == lab.value
    ensures lab.None? || lab == Some("") ==> r == "Entity"
  {
    match lab
    case Some(l) => if l == "" then "Entity" else l
    case None => "Entity"
  }

  /** `f"{a_type} '{a_name}' {rel} {b_type} '{b_name}'"`. */
  function FormatLine(row: Row): (r: string)
    ensures r != ""
    ensures var head := DisplayLabel(row.aLabel) + " '" + row.aName + "' ";
      |head| <= |r| && r[..|head|] == head
    ensures var tail := DisplayLabel(row.bLabel) + " '" + row.bName + "'";
      |tail| <= |r| && r[|r| - |tail|..] == tail
    ensures var head := DisplayLabel(row.aLabel) + " '" + row.aName + "' ";
      var tail := DisplayLabel(row.bLabel) + " '" + row.bName + "'";
      && |r| == |head| + |row.rel| + 1 + |tail|
      && r[|head|..|head| + |row.rel|] == row.rel
      && r[|head| + |row.rel|] == ' '
  {
    DisplayLabel(row.aLabel) + " '" + row.aName + "' " + row.rel + " "
      + DisplayLabel(row.bLabel) + " '" + row.bName + "'"
  }

  /** Two rows between the same endpoints but of different relationship types give
      different lines, so de-duplicating lines never merges them. */
  lemma FormatLineSeparatesRelations(x: Row, y: Row)
    requires x.aLabel == y.aLabel && x.aName == y.aName && x.bLabel == y.bLabel && x.bName == y.bName
    requires x.rel != y.rel
    ensures FormatLine(x) != FormatLine(y)
  {
    var head := DisplayLabel(x.aLabel) + " '" + x.aName + "' ";
    var lx, ly := FormatLine(x), FormatLine(y);
    if |x.rel| == |y.rel| {
      assert lx[|head|..|head| + |x.rel|] != ly[|head|..|head| + |y.rel|];
    } else {
      assert |lx| != |ly|;
    }
  }

  function FormatLines(rows: seq<Row>): (r: seq<string>)
    ensures |r| == |rows|
    ensures forall k :: 0 <= k < |rows| ==> r[k] == FormatLine(rows[k])
  {
    seq(|rows|, k requires 0 <= k < |rows| => FormatLine(rows[k]))
  }

  /** `MATCH (a)-[r]->(b)`: one row per relationship, read from source to target. */
  function AllRows(g: Graph): (r: seq<Row>)
    requires EdgesInRange(g)
    ensures |r| == |g.edges|
    ensures forall k :: 0 <= k < |r| ==>
              r[k] == RowOf(g, g.edges[k].src, g.edges[k].rel, g.edges[k].tgt)
  {
    seq(|g.edges|, k requires 0 <= k < |g.edges| =>
      assert g.edges[k] in g.edges;
      RowOf(g, g.edges[k].src, g.edges[k].rel, g.edges[k].tgt))
  }

  /** The lines of `fetch_context(limit)`: the first `limit` relationships, one line each. */
  function FetchLines(g: Graph, limit: nat): (r: seq<string>)
    requires EdgesInRange(g)
    ensures |r| == if limit < |g.edges| then limit else |g.edges|
    ensures forall k :: 0 <= k < |r| ==>
              r[k] == FormatLine(RowOf(g, g.edges[k].src, g.edges[k].rel, g.edges[k].tgt))
  {
    FormatLines(Take(AllRows(g), limit))
  }

  /** `fetch_context(limit)`: the lines joined by newlines; empty exactly when there is no
      relationship or the limit is zero. */
  function FetchContext(g: Graph, limit: nat): (r: string)
    requires EdgesInRange(g)
    ensures r == "" <==> limit == 0 || |g.edges| == 0
  {
    Join(FetchLines(g, limit), "\n")
  }

  /** The rows relationship `e` contributes to `MATCH (a {name: n})-[r]-(b)`: read forwards
      when its source is named `n`, backwards when its target is, and once only when it
      joins a node to itself. */
  function EdgeRows(g: Graph, e: Edge, n: string): (r: seq<Row>)
    requires e.src < |g.nodes| && e.tgt < |g.nodes|
    ensures forall row :: row in r ==> row.aName == n
    ensures forall row :: row in r ==> row == RowOf(g, e.src, e.rel, e.tgt) || row == RowOf(g, e.tgt, e.rel, e.src)
    ensures g.nodes[e.src].name == n ==> RowOf(g, e.src, e.rel, e.tgt) in r
    ensures g.nodes[e.tgt].name == n ==> RowOf(g, e.tgt, e.rel, e.src) in r
  {
    (if g.nodes[e.src].name == n then [RowOf(g, e.src, e.rel, e.tgt)] else [])
      + (if g.nodes[e.tgt].name == n && e.src != e.tgt then [RowOf(g, e.tgt, e.rel, e.src)] else [])
  }

  /** Rows of `MATCH (a {name: n})-[r]-(b)` over the relationships `es`, in their order. */
  function IncidentRowsOf(g: Graph, es: seq<Edge>, n: string): (r: seq<Row>)
    requires forall e :: e in es ==> e.src < |g.nodes| && e.tgt < |g.nodes|
    ensures forall row :: row in r ==> row.aName == n
    ensures forall row :: row in r ==> exists e :: e in es && row in EdgeRows(g, e, n)
    ensures forall e :: e in es ==> forall row :: row in EdgeRows(g, e, n) ==> row in r
  {
    if |es| == 0 then []
    else
      var rest := IncidentRowsOf(g, es[1..], n);
      assert forall e :: e in es ==> e == es[0] || e in es[1..];
      EdgeRows(g, es[0], n) + rest
  }

  /** Every row of `MATCH (a {name: n})-[r]-(b)`. */
  function IncidentRows(g: Graph, n: string): (r: seq<Row>)
    requires EdgesInRange(g)
    ensures forall row :: row in r ==> row.aName == n
  {
    IncidentRowsOf(g, g.edges, n)
  }

  /** Each relationship touching a node named `n` appears among `n`'s rows, read from that
      node; and each of `n`'s rows comes from such a relationship. */
  lemma IncidentRowsSpec(g: Graph, n: string)
    requires EdgesInRange(g)
    ensures forall e :: e in g.edges && g.nodes[e.src].name == n ==>
              RowOf(g, e.src, e.rel, e.tgt) in IncidentRows(g, n)
    ensures forall e :: e in g.edges && g.nodes[e.tgt].name == n ==>
              RowOf(g, e.tgt, e.rel, e.src) in IncidentRows(g, n)
    ensures forall row :: row in IncidentRows(g, n) ==>
              exists e :: e in g.edges
                && (row == RowOf(g, e.src, e.rel, e.tgt) || row == RowOf(g, e.tgt, e.rel, e.src))
  {
    var rows := IncidentRows(g, n);
    forall row | row in rows
      ensures exists e :: e in g.edges
                && (row == RowOf(g, e.src, e.rel, e.tgt) || row == RowOf(g, e.tgt, e.rel, e.src))
    {
      var e :| e in g.edges && row in EdgeRows(g, e, n);
    }
  }

  /** A line is the rendering of one of `n`'s rows, which reads from a node named `n`. */
  predicate LineOf(g: Graph, line: string, n: string)
    requires EdgesInRange(g)
  {
    exists row :: row in IncidentRows(g, n) && row.aName == n && line == FormatLine(row)
  }

  /** The lines one query of `get_context_for_entities` yields for `n`: the first `limit`
      of `n`'s rows, rendered. */
  function NameLines(g: Graph, n: string, limit: nat): (r: seq<string>)
    requires EdgesInRange(g)
    ensures |r| <= limit
    ensures forall line :: line in r ==> line != ""
  {
    FormatLines(Take(IncidentRows(g, n), limit))
  }

  /** Each of `n`'s lines renders one of `n`'s rows. */
  lemma NameLinesSound(g: Graph, n: string, limit: nat)
    requires EdgesInRange(g)
    ensures forall line :: line in NameLines(g, n, limit) ==> LineOf(g, line, n)
  {
    var rows := Take(IncidentRows(g, n), limit);
    var r := NameLines(g, n, limit);
    forall line | line in r ensures LineOf(g, line, n) {
      var k :| 0 <= k < |r| && r[k] == line;
      assert rows[k] in IncidentRows(g, n);
    }
  }

  /** When `n` has no more rows than the limit, every one of them is rendered. */
  lemma NameLinesComplete(g: Graph, n: string, limit: nat)
    requires EdgesInRange(g)
    requires |IncidentRows(g, n)| <= limit
    ensures forall row :: row in IncidentRows(g, n) ==> FormatLine(row) in NameLines(g, n, limit)
  {
    var rows := Take(IncidentRows(g, n), limit);
    var r := NameLines(g, n, limit);
    forall row | row in IncidentRows(g, n) ensures FormatLine(row) in r {
      var k :| 0 <= k < |rows| && rows[k] == row;
      assert r[k] == FormatLine(row);
    }
  }

  /** One more query allows `limit` more lines. */
  lemma BoundStep(n: nat, limit: nat)
    requires n > 0
    ensures n * limit == limit + (n - 1) * limit
  {
  }

  /** The lines of all the per-name queries, in query order, before de-duplication: at most
      `limit` for each queried name. */
  function EntityLines(g: Graph, names: seq<string>, limit: nat): (r: seq<string>)
    requires EdgesInRange(g)
    ensures |names| == 0 ==> r == []
  {
    if |names| == 0 then []
    else NameLines(g, names[0], limit) + EntityLines(g, names[1..], limit)
  }

  /** At most `limit` lines for each queried name. */
  lemma {:induction false} EntityLinesBound(g: Graph, names: seq<string>, limit: nat)
    requires EdgesInRange(g)
    ensures |EntityLines(g, names, limit)| <= |names| * limit
  {
    if |names| > 0 {
      EntityLinesBound(g, names[1..], limit);
      BoundStep(|names|, limit);
    }
  }

  /** A line is among the per-name lines exactly when one of the queried names yields it. */
  lemma {:induction false} EntityLinesMembers(g: Graph, names: seq<string>, limit: nat)
    requires EdgesInRange(g)
    ensures forall line :: line in EntityLines(g, names, limit) <==>
              exists i :: 0 <= i < |names| && line in NameLines(g, names[i], limit)
  {
    if |names| > 0 {
      EntityLinesMembers(g, names[1..], limit);
      assert forall i :: 1 <= i < |names| ==> names[i] == names[1..][i - 1];
      assert forall i :: 0 <= i < |names| - 1 ==> names[1..][i] == names[i + 1];
    }
  }

  /** `list(dict.fromkeys(lines))` over the per-name lines. */
  function ContextLines(g: Graph, names: seq<string>, limit: nat): (r: seq<string>)
    requires EdgesInRange(g)
    ensures Distinct(r)
    ensures forall line :: line in r <==> line in EntityLines(g, names, limit)
    ensures forall i, j :: 0 <= i < j < |r| ==>
              IndexOf(EntityLines(g, names, limit), r[i]) < IndexOf(EntityLines(g, names, limit), r[j])
    ensures |r| <= |names| * limit
  {
    EntityLinesBound(g, names, limit);
    Dedup(EntityLines(g, names, limit))
  }

  /** Every shown line renders a row read from a node whose name was queried. */
  lemma ContextLinesSound(g: Graph, names: seq<string>, limit: nat)
    requires EdgesInRange(g)
    ensures forall line :: line in ContextLines(g, names, limit) ==>
              exists i :: 0 <= i < |names| && LineOf(g, line, names[i])
  {
    EntityLinesMembers(g, names, limit);
    forall i | 0 <= i < |names| {
      NameLinesSound(g, names[i], limit);
    }
  }

  /** When a queried name has no more rows than the limit, all its rows are shown. */
  lemma ContextComplete(g: Graph, names: seq<string>, limit: nat, i: nat)
    requires EdgesInRange(g)
    requires i < |names| && |IncidentRows(g, names[i])| <= limit
    ensures forall row :: row in IncidentRows(g, names[i]) ==> FormatLine(row) in ContextLines(g, names, limit)
  {
    EntityLinesMembers(g, names, limit);
    NameLinesComplete(g, names[i], limit);
    forall row | row in IncidentRows(g, names[i]) ensures FormatLine(row) in ContextLines(g, names, limit) {
      assert FormatLine(row) in NameLines(g, names[i], limit);
    }
  }

  /** `get_context_for_entities(names, limit)`: empty for an empty name list, whatever the
      graph; otherwise the de-duplicated lines joined by newlines, empty exactly when no
      queried name has a relationship within the limit. */
  function ContextForEntities(g: Graph, names: seq<string>, limit: nat): (r: string)
    requires EdgesInRange(g)
    ensures names == [] ==> r == ""
    ensures r == "" <==> EntityLines(g, names, limit) == []
  {
    if names == [] then ""
    else
      var lines := ContextLines(g, names, limit);
      assert lines == [] <==> EntityLines(g, names, limit) == [] by {
        if EntityLines(g, names, limit) != [] {
          assert EntityLines(g, names, limit)[0] in lines;
        }
      }
      assert lines != [] ==> lines[0] != "" by {
        if lines != [] {
          EntityLinesMembers(g, names, limit);
          assert lines[0] in EntityLines(g, names, limit);
        }
      }
      Join(lines, "\n")
  }

  /** `clear_graph()`: `MATCH (n) DETACH DELETE n`. */
  function ClearGraph(g: Graph): (r: Graph)
    ensures Valid(r)
    ensures forall n :: !HasName(r, n)
  {
    EmptyGraph
  }

  /** A store without relationships yields no line for any name. */
  lemma {:induction false} EntityLinesWithoutEdges(g: Graph, names: seq<string>, limit: nat)
    requires g.edges == []
    ensures EntityLines(g, names, limit) == []
  {
    if |names| > 0 {
      assert IncidentRows(g, names[0]) == [];
      EntityLinesWithoutEdges(g, names[1..], limit);
    }
  }

  /** A cleared store shows nothing, whichever query reads it. */
  lemma ClearedGraphIsSilent(g: Graph, names: seq<string>, limit: nat)
    ensures FetchContext(ClearGraph(g), limit) == ""
    ensures ContextForEntities(ClearGraph(g), names, limit) == ""
  {
    EntityLinesWithoutEdges(ClearGraph(g), names, limit);
  }

  // ---------------------------------------------------------------------------
  // Scenarios

  /** When no node had the target name, every node of that name after the endpoint
      merges is the new unlabelled, property-free endpoint. */
  lemma MissingTargetCreatedBare(g: Graph, src: string, tgt: string)
    requires !HasName(g, tgt)
    ensures var e := Endpoints(g, src, tgt);
      forall j :: 0 <= j < |e.nodes| && e.nodes[j].name == tgt ==> e.nodes[j] == Node(None, tgt, map[])
  {
  }

  /** When every node with a name is unlabelled, a typed merge on that name finds none of
      them: it appends a new node and leaves the others as they were. */
  lemma UnlabelledNameGetsNewNode(g: Graph, name: string, typ: string, attrs: seq<(string, Json)>)
    requires forall j :: 0 <= j < |g.nodes| && g.nodes[j].name == name ==> g.nodes[j].typeLabel == None
    ensures var r := MergeEntity(g, name, typ, attrs);
      && |r.nodes| == |g.nodes| + 1
      && IsEntity(r.nodes[|g.nodes|], NodeLabel(typ), name)
      && forall j :: 0 <= j < |g.nodes| ==> r.nodes[j] == g.nodes[j]
  {
    var lab := NodeLabel(typ);
    assert forall j :: 0 <= j < |g.nodes| ==> !IsEntity(g.nodes[j], lab, name);
  }

  /** After a relationship to a missing target, every node with the target's name is bare. */
  lemma RelationshipTargetIsBare(g: Graph, src: string, rel: string, tgt: string)
    requires !HasName(g, tgt)
    ensures var g1 := MergeRelationship(g, src, rel, tgt);
      && HasName(g1, tgt)
      && forall j :: 0 <= j < |g1.nodes| && g1.nodes[j].name == tgt ==> g1.nodes[j] == Node(None, tgt, map[])
  {
    MissingTargetCreatedBare(g, src, tgt);
  }

  /** A relationship first creates a missing endpoint unlabelled; a later typed
      `merge_entity` on that name does not find it (the label differs) and creates a second
      node with the same name. */
  lemma TypedMergeAfterRelationship(g: Graph, src: string, rel: string, tgt: string, typ: string, attrs: seq<(string, Json)>)
    requires !HasName(g, tgt)
    ensures
      var g1 := MergeRelationship(g, src, rel, tgt);
      var g2 := MergeEntity(g1, tgt, typ, attrs);
      && |g2.nodes| == |g1.nodes| + 1
      && IsEntity(g2.nodes[|g1.nodes|], NodeLabel(typ), tgt)
      && exists i :: 0 <= i < |g1.nodes| && g2.nodes[i] == Node(None, tgt, map[])
  {
    var g1 := MergeRelationship(g, src, rel, tgt);
    RelationshipTargetIsBare(g, src, rel, tgt);
    UnlabelledNameGetsNewNode(g1, tgt, typ, attrs);
    var i :| 0 <= i < |g1.nodes| && g1.nodes[i].name == tgt;
    assert MergeEntity(g1, tgt, typ, attrs).nodes[i] == Node(None, tgt, map[]);
  }
}
