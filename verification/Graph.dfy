/** The index over the items of several documents, and what its queries answer. */
module Graphs {
  import opened Wrappers
  import opened Text
  import opened Items

  const DEFAULT_LIMIT: nat := 20
  const HARD_LIMIT: nat := 200

  /** An item's full address. */
  datatype Triple = Triple(document: string, kind: string, key: string)

  function IdOf(t: Triple): Identity {
    Identity(t.kind, t.key)
  }

  predicate TripleLess(a: Triple, b: Triple) {
    if a.document != b.document then Less(a.document, b.document)
    else if a.kind != b.kind then Less(a.kind, b.kind)
    else Less(a.key, b.key)
  }

  datatype Document = Document(name: string, items: ItemSet)

  datatype Builder = Builder(documents: seq<Document>, indexed: set<string>, spatial: Option<string>)

  datatype Graph = Graph(
    items: map<Triple, Item>,
    byKind: map<string, set<Triple>>,
    byLabel: map<string, set<Triple>>,
    byAttr: map<string, map<string, set<Triple>>>,
    points: map<Triple, (real, real)>,
    spatial: Option<string>)

  function Look(index: map<string, set<Triple>>, value: string): set<Triple> {
    if value in index then index[value] else {}
  }

  /** File `t` under `value`. */
  function Filed(index: map<string, set<Triple>>, value: string, t: Triple): (out: map<string, set<Triple>>)
    ensures forall v :: Look(out, v) == if v == value then Look(index, v) + {t} else Look(index, v)
  {
    index[value := Look(index, value) + {t}]
  }

  // ----- what the documents say -----

  /** The document holds `item` at address `t`. */
  predicate Holds(d: Document, t: Triple, item: Item) {
    d.name == t.document && IdOf(t) in d.items && d.items[IdOf(t)] == item
  }

  /** Some document added so far held `item` at `t`, whether or not it was replaced since. */
  ghost predicate Seen(docs: seq<Document>, t: Triple, item: Item) {
    exists e | 0 <= e < |docs| :: Holds(docs[e], t, item)
  }

  /** The item at `t`: the last document wins. */
  function Current(docs: seq<Document>, t: Triple): Option<Item> {
    if docs == [] then None
    else
      var d := docs[|docs| - 1];
      if d.name == t.document && IdOf(t) in d.items then Some(d.items[IdOf(t)])
      else Current(docs[..|docs| - 1], t)
  }

  function PointOf(item: Item, spatial: Option<string>): Option<(real, real)> {
    if spatial.Some? && spatial.value in item.attrs && item.attrs[spatial.value].Point?
    then Some((item.attrs[spatial.value].x, item.attrs[spatial.value].y))
    else None
  }

  /** The last point given for `t`, even by a document whose item was replaced since. */
  function LastPoint(docs: seq<Document>, spatial: Option<string>, t: Triple): Option<(real, real)> {
    if docs == [] then None
    else
      var d := docs[|docs| - 1];
      if d.name == t.document && IdOf(t) in d.items && PointOf(d.items[IdOf(t)], spatial).Some?
      then PointOf(d.items[IdOf(t)], spatial)
      else LastPoint(docs[..|docs| - 1], spatial, t)
  }

  // ----- what the index holds -----

  ghost predicate ItemsMatch(items: map<Triple, Item>, docs: seq<Document>) {
    forall t :: (t in items <==> Current(docs, t).Some?) && (t in items ==> items[t] == Current(docs, t).value)
  }

  ghost predicate KindsMatch(byKind: map<string, set<Triple>>, docs: seq<Document>) {
    forall kind, t :: t in Look(byKind, kind) <==> exists item :: Seen(docs, t, item) && item.kind == kind
  }

  ghost predicate LabelsMatch(byLabel: map<string, set<Triple>>, docs: seq<Document>) {
    forall text, t :: t in Look(byLabel, text) <==> exists item :: Seen(docs, t, item) && item.title == text
  }

  predicate Shows(item: Item, name: string, text: string, render: Attr -> string) {
    name in item.attrs && render(item.attrs[name]) == text
  }

  ghost predicate SeenShowing(docs: seq<Document>, t: Triple, name: string, text: string, render: Attr -> string) {
    exists item :: Seen(docs, t, item) && Shows(item, name, text, render)
  }

  ghost predicate AttrMatches(
      values: map<string, set<Triple>>, name: string, docs: seq<Document>, render: Attr -> string)
  {
    forall text, t :: t in Look(values, text) <==> SeenShowing(docs, t, name, text, render)
  }

  ghost predicate AttrsMatch(
      byAttr: map<string, map<string, set<Triple>>>, docs: seq<Document>, render: Attr -> string)
  {
    forall name | name in byAttr :: AttrMatches(byAttr[name], name, docs, render)
  }

  ghost predicate PointsMatch(points: map<Triple, (real, real)>, docs: seq<Document>, spatial: Option<string>) {
    forall t :: (t in points <==> LastPoint(docs, spatial, t).Some?) &&
        (t in points ==> points[t] == LastPoint(docs, spatial, t).value)
  }

  ghost predicate Indexed(g: Graph, b: Builder, render: Attr -> string) {
    && ItemsMatch(g.items, b.documents)
    && KindsMatch(g.byKind, b.documents)
    && LabelsMatch(g.byLabel, b.documents)
    && g.byAttr.Keys == b.indexed && AttrsMatch(g.byAttr, b.documents, render)
    && PointsMatch(g.points, b.documents, b.spatial)
    && g.spatial == b.spatial
  }

  // ----- one more item -----

  /** The documents so far, and the part of the next one that has been indexed. */
  function Adding(docs: seq<Document>, name: string, part: ItemSet): seq<Document> {
    docs + [Document(name, part)]
  }

  lemma {:induction false} SeenOneMore(docs: seq<Document>, name: string, part: ItemSet, item: Item, t: Triple, i: Item)
    requires IdentityOf(item) !in part
    ensures Seen(Adding(docs, name, Insert(part, item)), t, i) <==>
            Seen(Adding(docs, name, part), t, i) || (t == Triple(name, item.kind, item.key) && i == item)
  {
    var before, after := Adding(docs, name, part), Adding(docs, name, Insert(part, item));
    if Seen(before, t, i) {
      var e :| 0 <= e < |before| && Holds(before[e], t, i);
      assert Holds(after[e], t, i);
    }
    if t == Triple(name, item.kind, item.key) && i == item {
      assert Holds(after[|docs|], t, i);
    }
    if Seen(after, t, i) {
      var e :| 0 <= e < |after| && Holds(after[e], t, i);
      assert e < |docs| ==> Holds(before[e], t, i);
      assert e == |docs| && IdOf(t) != IdentityOf(item) ==> Holds(before[e], t, i);
    }
  }

  lemma {:induction false} CurrentOneMore(
      docs: seq<Document>, name: string, part: ItemSet, item: Item, spatial: Option<string>, t: Triple)
    requires IdentityOf(item) !in part
    ensures var before, after := Adding(docs, name, part), Adding(docs, name, Insert(part, item));
            var here := t == Triple(name, item.kind, item.key);
            && Current(after, t) == (if here then Some(item) else Current(before, t))
            && LastPoint(after, spatial, t) == (if here && PointOf(item, spatial).Some? then PointOf(item, spatial)
                                                else LastPoint(before, spatial, t))
  {
    var before, after := Adding(docs, name, part), Adding(docs, name, Insert(part, item));
    assert before[..|before| - 1] == docs == after[..|after| - 1];
  }

  lemma {:induction false} NothingOfNext(docs: seq<Document>, name: string, spatial: Option<string>, t: Triple)
    ensures Current(Adding(docs, name, map[]), t) == Current(docs, t)
    ensures LastPoint(Adding(docs, name, map[]), spatial, t) == LastPoint(docs, spatial, t)
    ensures forall i :: Seen(Adding(docs, name, map[]), t, i) <==> Seen(docs, t, i)
  {
    var after := Adding(docs, name, map[]);
    assert after[..|after| - 1] == docs;
    forall i
      ensures Seen(after, t, i) <==> Seen(docs, t, i)
    {
      if Seen(docs, t, i) {
        var e :| 0 <= e < |docs| && Holds(docs[e], t, i);
        assert Holds(after[e], t, i);
      }
    }
  }

  lemma {:induction false} ItemAdded(
      items: map<Triple, Item>, docs: seq<Document>, name: string, part: ItemSet, item: Item)
    requires IdentityOf(item) !in part && ItemsMatch(items, Adding(docs, name, part))
    ensures ItemsMatch(items[Triple(name, item.kind, item.key) := item], Adding(docs, name, Insert(part, item)))
  {
    forall t {
      CurrentOneMore(docs, name, part, item, None, t);
    }
  }

  lemma {:induction false} PointAdded(
      points: map<Triple, (real, real)>, docs: seq<Document>, name: string, part: ItemSet, item: Item,
      spatial: Option<string>)
    requires IdentityOf(item) !in part && PointsMatch(points, Adding(docs, name, part), spatial)
    ensures var p := PointOf(item, spatial);
            PointsMatch(if p.Some? then points[Triple(name, item.kind, item.key) := p.value] else points,
                        Adding(docs, name, Insert(part, item)), spatial)
  {
    forall t {
      CurrentOneMore(docs, name, part, item, spatial, t);
    }
  }

  lemma {:induction false} KindAdded(
      byKind: map<string, set<Triple>>, docs: seq<Document>, name: string, part: ItemSet, item: Item)
    requires IdentityOf(item) !in part && KindsMatch(byKind, Adding(docs, name, part))
    ensures KindsMatch(Filed(byKind, item.kind, Triple(name, item.kind, item.key)),
              Adding(docs, name, Insert(part, item)))
  {
    forall t, i {
      SeenOneMore(docs, name, part, item, t, i);
    }
  }

  lemma {:induction false} LabelAdded(
      byLabel: map<string, set<Triple>>, docs: seq<Document>, name: string, part: ItemSet, item: Item)
    requires IdentityOf(item) !in part && LabelsMatch(byLabel, Adding(docs, name, part))
    ensures LabelsMatch(Filed(byLabel, item.title, Triple(name, item.kind, item.key)),
              Adding(docs, name, Insert(part, item)))
  {
    forall t, i {
      SeenOneMore(docs, name, part, item, t, i);
    }
  }

  lemma {:induction false} AttrAdded(
      values: map<string, set<Triple>>, attr: string, docs: seq<Document>, name: string, part: ItemSet,
      item: Item, render: Attr -> string)
    requires IdentityOf(item) !in part && AttrMatches(values, attr, Adding(docs, name, part), render)
    ensures AttrMatches(FiledAttr(values, attr, item, Triple(name, item.kind, item.key), render), attr,
                        Adding(docs, name, Insert(part, item)), render)
  {
    var here := Triple(name, item.kind, item.key);
    var before, after := Adding(docs, name, part), Adding(docs, name, Insert(part, item));
    forall text, t
      ensures SeenShowing(after, t, attr, text, render) <==>
              SeenShowing(before, t, attr, text, render) || (t == here && Shows(item, attr, text, render))
    {
      forall i
        ensures Seen(after, t, i) <==> Seen(before, t, i) || (t == here && i == item)
      {
        SeenOneMore(docs, name, part, item, t, i);
      }
    }
  }

  // ----- building -----

  /** The value index of one attribute once `item` is at `t`. */
  function FiledAttr(
      values: map<string, set<Triple>>, name: string, item: Item, t: Triple, render: Attr -> string)
    : map<string, set<Triple>>
  {
    if name in item.attrs then Filed(values, render(item.attrs[name]), t) else values
  }

  method IndexAttrs(byAttr: map<string, map<string, set<Triple>>>, item: Item, t: Triple, render: Attr -> string)
    returns (out: map<string, map<string, set<Triple>>>)
    ensures out.Keys == byAttr.Keys
    ensures forall name | name in byAttr :: out[name] == FiledAttr(byAttr[name], name, item, t, render)
  {
    hide Filed;
    out := byAttr;
    var rest := byAttr.Keys;
    while rest != {}
      invariant rest <= byAttr.Keys && out.Keys == byAttr.Keys
      invariant forall name | name in byAttr ::
                  out[name] == if name in rest then byAttr[name] else FiledAttr(byAttr[name], name, item, t, render)
      decreases |rest|
    {
      var name :| name in rest;
      rest := rest - {name};
      if name in item.attrs {
        out := out[name := Filed(out[name], render(item.attrs[name]), t)];
      }
    }
  }

  lemma {:induction false} AttrsAdded(
      byAttr: map<string, map<string, set<Triple>>>, out: map<string, map<string, set<Triple>>>,
      docs: seq<Document>, name: string, part: ItemSet, item: Item, render: Attr -> string)
    requires IdentityOf(item) !in part && AttrsMatch(byAttr, Adding(docs, name, part), render)
    requires out.Keys == byAttr.Keys
    requires forall a | a in byAttr ::
               out[a] == FiledAttr(byAttr[a], a, item, Triple(name, item.kind, item.key), render)
    ensures AttrsMatch(out, Adding(docs, name, Insert(part, item)), render)
  {
    hide AttrMatches;
    forall a | a in out
      ensures AttrMatches(out[a], a, Adding(docs, name, Insert(part, item)), render)
    {
      AttrAdded(byAttr[a], a, docs, name, part, item, render);
    }
  }

  lemma {:induction false} ItemIndexed(
      g: Graph, b: Builder, docs: seq<Document>, name: string, part: ItemSet, item: Item,
      byAttr: map<string, map<string, set<Triple>>>, render: Attr -> string)
    requires IdentityOf(item) !in part && Indexed(g, b.(documents := Adding(docs, name, part)), render)
    requires byAttr.Keys == g.byAttr.Keys
    requires forall a | a in g.byAttr ::
               byAttr[a] == FiledAttr(g.byAttr[a], a, item, Triple(name, item.kind, item.key), render)
    ensures var t, p := Triple(name, item.kind, item.key), PointOf(item, g.spatial);
            Indexed(Graph(g.items[t := item], Filed(g.byKind, item.kind, t), Filed(g.byLabel, item.title, t), byAttr,
                          if p.Some? then g.points[t := p.value] else g.points, g.spatial),
                    b.(documents := Adding(docs, name, Insert(part, item))), render)
  {
    hide ItemsMatch, KindsMatch, LabelsMatch, AttrsMatch, PointsMatch, Insert, Filed, PointOf, Adding;
    ItemAdded(g.items, docs, name, part, item);
    KindAdded(g.byKind, docs, name, part, item);
    LabelAdded(g.byLabel, docs, name, part, item);
    AttrsAdded(g.byAttr, byAttr, docs, name, part, item, render);
    PointAdded(g.points, docs, name, part, item, b.spatial);
  }

  /** One document's items, in any order. */
  method IndexDocument(g: Graph, d: Document, render: Attr -> string, ghost b: Builder, ghost docs: seq<Document>)
    returns (out: Graph)
    requires Indexed(g, b.(documents := docs), render)
    ensures Indexed(out, b.(documents := docs + [d]), render)
  {
    hide Indexed, Insert, Filed, PointOf, Adding;
    out := g;
    var rest := d.items.Keys;
    ghost var part: ItemSet := map[];
    DocumentBegun(g, b, docs, d.name, render);
    while rest != {}
      invariant rest <= d.items.Keys && part.Keys == d.items.Keys - rest
      invariant forall id | id in part :: part[id] == d.items[id]
      invariant Indexed(out, b.(documents := Adding(docs, d.name, part)), render)
      decreases |rest|
    {
      var id :| id in rest;
      rest := rest - {id};
      var item := d.items[id];
      var t := Triple(d.name, item.kind, item.key);
      var byAttr := IndexAttrs(out.byAttr, item, t, render);
      ItemIndexed(out, b, docs, d.name, part, item, byAttr, render);
      var p := PointOf(item, out.spatial);
      out := Graph(
        out.items[t := item],
        Filed(out.byKind, item.kind, t),
        Filed(out.byLabel, item.title, t),
        byAttr,
        if p.Some? then out.points[t := p.value] else out.points,
        out.spatial);
      Inserted(part, item);
      part := Insert(part, item);
    }
    assert part == d.items;
    AddingAll(docs, d);
  }

  lemma {:induction false} AddingAll(docs: seq<Document>, d: Document)
    ensures Adding(docs, d.name, d.items) == docs + [d]
  {
  }

  lemma {:induction false} Inserted(part: ItemSet, item: Item)
    ensures Insert(part, item) == part[IdentityOf(item) := item]
  {
  }

  lemma {:induction false} DocumentBegun(
      g: Graph, b: Builder, docs: seq<Document>, name: string, render: Attr -> string)
    requires Indexed(g, b.(documents := docs), render)
    ensures Indexed(g, b.(documents := Adding(docs, name, map[])), render)
  {
    hide Current, LastPoint, Seen, Adding;
    var none: ItemSet := map[];
    assert forall t :: Current(Adding(docs, name, none), t) == Current(docs, t) by {
      forall t {
        NothingOfNext(docs, name, None, t);
      }
    }
    assert forall t :: LastPoint(Adding(docs, name, none), b.spatial, t) == LastPoint(docs, b.spatial, t) by {
      forall t {
        NothingOfNext(docs, name, b.spatial, t);
      }
    }
    forall t, i
      ensures Seen(Adding(docs, name, none), t, i) <==> Seen(docs, t, i)
    {
      NothingOfNext(docs, name, None, t);
    }
    SameSeen(g, docs, Adding(docs, name, none), render);
  }

  lemma {:induction false} SameSeen(g: Graph, docs: seq<Document>, more: seq<Document>, render: Attr -> string)
    requires forall t, i :: Seen(more, t, i) <==> Seen(docs, t, i)
    ensures KindsMatch(g.byKind, docs) ==> KindsMatch(g.byKind, more)
    ensures LabelsMatch(g.byLabel, docs) ==> LabelsMatch(g.byLabel, more)
    ensures AttrsMatch(g.byAttr, docs, render) ==> AttrsMatch(g.byAttr, more, render)
  {
    hide Seen;
    forall name | name in g.byAttr && AttrMatches(g.byAttr[name], name, docs, render)
      ensures AttrMatches(g.byAttr[name], name, more, render)
    {
      forall text, t
        ensures SeenShowing(more, t, name, text, render) <==> SeenShowing(docs, t, name, text, render)
      {
      }
    }
  }

  method Build(b: Builder, render: Attr -> string) returns (g: Graph)
    ensures Indexed(g, b, render)
  {
    hide Indexed;
    var byAttr: map<string, map<string, set<Triple>>> := map name | name in b.indexed :: map[];
    g := Graph(map[], map[], map[], byAttr, map[], b.spatial);
    NothingIndexed(g, b, render);
    for d := 0 to |b.documents|
      invariant Indexed(g, b.(documents := b.documents[..d]), render)
    {
      g := IndexDocument(g, b.documents[d], render, b, b.documents[..d]);
      TakeOneMore(b.documents, d);
    }
    assert b.documents[..|b.documents|] == b.documents;
    assert b.(documents := b.documents) == b;
  }

  lemma {:induction false} NothingIndexed(g: Graph, b: Builder, render: Attr -> string)
    requires g == Graph(map[], map[], map[], map name | name in b.indexed :: map[], map[], b.spatial)
    ensures Indexed(g, b.(documents := b.documents[..0]), render)
  {
    assert b.documents[..0] == [];
  }
}
