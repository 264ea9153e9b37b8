/** What graph queries answer, told over the documents the graph was built from. */
module QueryMeaning {
  import opened Wrappers
  import opened Text
  import opened Items
  import opened Graphs
  import opened GraphQueries

  /** The document `d` holds `item` under the address `t`. */
  ghost predicate HoldsAt(d: Document, t: Triple, item: Item) {
    && d.name == t.document && Identity(t.kind, t.key) in d.items
    && d.items[Identity(t.kind, t.key)] == item
  }

  /** The last document to hold something under `t` holds `item`. */
  ghost predicate ReadsNow(docs: seq<Document>, t: Triple, item: Item) {
    exists e | 0 <= e < |docs| :: HoldsAt(docs[e], t, item) && forall f | e < f < |docs| :: !HasAt(docs[f], t)
  }

  ghost predicate HasAt(d: Document, t: Triple) {
    exists item :: HoldsAt(d, t, item)
  }

  /** Some document holds under `t` an item that `shows`. */
  ghost predicate SomeItem(docs: seq<Document>, t: Triple, shows: Item -> bool) {
    exists e, item | 0 <= e < |docs| :: HoldsAt(docs[e], t, item) && shows(item)
  }

  /** The item held under `t` has a point for its attribute `name`. */
  ghost predicate PutsAt(d: Document, t: Triple, name: string, x: real, y: real) {
    exists item :: HoldsAt(d, t, item) && name in item.attrs && item.attrs[name] == Point(x, y)
  }

  ghost predicate PutsSomewhere(d: Document, t: Triple, name: string) {
    exists x, y :: PutsAt(d, t, name, x, y)
  }

  /** The last document to give the item at `t` a point puts it at `(x, y)`. */
  ghost predicate StandsAt(docs: seq<Document>, name: string, t: Triple, x: real, y: real) {
    exists e | 0 <= e < |docs| ::
      PutsAt(docs[e], t, name, x, y) && forall f | e < f < |docs| :: !PutsSomewhere(docs[f], t, name)
  }

  /** `last` holds at some index and `any` at none after it: seen from the end of the list. */
  lemma {:induction false} ReadsNowStep(docs: seq<Document>, d: Document, t: Triple, item: Item)
    ensures ReadsNow(docs + [d], t, item) <==> HoldsAt(d, t, item) || (!HasAt(d, t) && ReadsNow(docs, t, item))
  {
    var all, n := docs + [d], |docs|;
    assert all[n] == d && forall e | 0 <= e < n :: all[e] == docs[e];
    if ReadsNow(all, t, item) {
      var e :| 0 <= e <= n && HoldsAt(all[e], t, item) && forall f | e < f <= n :: !HasAt(all[f], t);
      assert e < n ==> !HasAt(all[n], t) && HoldsAt(docs[e], t, item);
    }
    if HoldsAt(d, t, item) {
      assert HoldsAt(all[n], t, item);
    }
    if !HasAt(d, t) && ReadsNow(docs, t, item) {
      var e :| 0 <= e < n && HoldsAt(docs[e], t, item) && forall f | e < f < n :: !HasAt(docs[f], t);
      assert HoldsAt(all[e], t, item);
    }
  }

  lemma {:induction false} CurrentReads(docs: seq<Document>, t: Triple)
    ensures forall item :: Current(docs, t) == Some(item) <==> ReadsNow(docs, t, item)
  {
    if docs != [] {
      var before, d := docs[..|docs| - 1], docs[|docs| - 1];
      CurrentReads(before, t);
      assert docs == before + [d];
      forall item ensures Current(docs, t) == Some(item) <==> ReadsNow(docs, t, item) {
        ReadsNowStep(before, d, t, item);
        HeldOnce(d, t);
      }
    }
  }

  lemma {:induction false} HeldOnce(d: Document, t: Triple)
    ensures HasAt(d, t) <==> d.name == t.document && IdOf(t) in d.items
    ensures forall item :: HoldsAt(d, t, item) <==> HasAt(d, t) && d.items[IdOf(t)] == item
  {
    if d.name == t.document && IdOf(t) in d.items {
      assert HoldsAt(d, t, d.items[IdOf(t)]);
    }
  }

  lemma {:induction false} StandsAtStep(docs: seq<Document>, d: Document, name: string, t: Triple, x: real, y: real)
    ensures StandsAt(docs + [d], name, t, x, y) <==>
            PutsAt(d, t, name, x, y) || (!PutsSomewhere(d, t, name) && StandsAt(docs, name, t, x, y))
  {
    var all, n := docs + [d], |docs|;
    assert all[n] == d && forall e | 0 <= e < n :: all[e] == docs[e];
    if StandsAt(all, name, t, x, y) {
      var e :| 0 <= e <= n && PutsAt(all[e], t, name, x, y) && forall f | e < f <= n :: !PutsSomewhere(all[f], t, name);
      assert e < n ==> !PutsSomewhere(all[n], t, name) && PutsAt(docs[e], t, name, x, y);
    }
    if PutsAt(d, t, name, x, y) {
      assert PutsAt(all[n], t, name, x, y);
    }
    if !PutsSomewhere(d, t, name) && StandsAt(docs, name, t, x, y) {
      var e :| 0 <= e < n && PutsAt(docs[e], t, name, x, y) && forall f | e < f < n :: !PutsSomewhere(docs[f], t, name);
      assert PutsAt(all[e], t, name, x, y);
    }
  }

  /** A point as the index reads it off the item a document holds. */
  lemma {:induction false} PutOnce(d: Document, t: Triple, name: string)
    ensures var p := if HasAt(d, t) then PointOf(d.items[IdOf(t)], Some(name)) else None;
            && (PutsSomewhere(d, t, name) <==> p.Some?)
            && forall x, y :: PutsAt(d, t, name, x, y) <==> p == Some((x, y))
  {
    HeldOnce(d, t);
    var p := if HasAt(d, t) then PointOf(d.items[IdOf(t)], Some(name)) else None;
    forall x, y ensures PutsAt(d, t, name, x, y) <==> p == Some((x, y)) {
      if p == Some((x, y)) {
        assert HoldsAt(d, t, d.items[IdOf(t)]);
      }
    }
    if p.Some? {
      assert PutsAt(d, t, name, p.value.0, p.value.1);
    }
  }

  lemma {:induction false} LastPointStands(docs: seq<Document>, name: string, t: Triple)
    ensures forall x, y :: LastPoint(docs, Some(name), t) == Some((x, y)) <==> StandsAt(docs, name, t, x, y)
  {
    if docs != [] {
      var before, d := docs[..|docs| - 1], docs[|docs| - 1];
      LastPointStands(before, name, t);
      assert docs == before + [d];
      HeldOnce(d, t);
      PutOnce(d, t, name);
      forall x, y ensures LastPoint(docs, Some(name), t) == Some((x, y)) <==> StandsAt(docs, name, t, x, y) {
        StandsAtStep(before, d, name, t, x, y);
      }
    }
  }

  // ----- what a query asks for -----

  /** The address `t` meets every filter the query sets: its kind, a label some document has for it,
      the value some document has for each attribute, the last point it was given lying between
      the four bounds, and its document. */
  ghost predicate Asked(b: Builder, q: Query, render: Attr -> string, t: Triple) {
    && (q.kind.Some? ==> t.kind == q.kind.value)
    && (q.title.Some? ==> SomeItem(b.documents, t, (item: Item) => item.title == q.title.value))
    && (forall i | 0 <= i < |q.attrs| :: SomeItem(b.documents, t, Valued(q.attrs[i].0, q.attrs[i].1, render)))
    && (q.region.Some? ==> Between(b, q.region.value, t))
    && (q.document.Some? ==> t.document == q.document.value)
  }

  ghost function Valued(name: string, value: Attr, render: Attr -> string): Item -> bool {
    (item: Item) => name in item.attrs && render(item.attrs[name]) == render(value)
  }

  ghost predicate Between(b: Builder, region: Region, t: Triple) {
    && b.spatial.Some?
    && exists x, y ::
         && StandsAt(b.documents, b.spatial.value, t, x, y)
         && region.minX <= x && x <= region.maxX && region.minY <= y && y <= region.maxY
  }

  lemma {:induction false} KindMeans(g: Graph, b: Builder, render: Attr -> string, t: Triple, kind: string)
    requires Indexed(g, b, render) && t in g.items
    ensures t in Look(g.byKind, kind) <==> t.kind == kind
  {
    var item := g.items[t];
    CurrentIsSeen(b.documents, t);
    SeenIsKeyed(b.documents, t, item);
    forall i | Seen(b.documents, t, i) ensures i.kind == t.kind {
      SeenIsKeyed(b.documents, t, i);
    }
  }

  lemma {:induction false} SeenMeans(docs: seq<Document>, t: Triple, item: Item)
    ensures Seen(docs, t, item) <==> exists e | 0 <= e < |docs| :: HoldsAt(docs[e], t, item)
  {
    forall e | 0 <= e < |docs| ensures Holds(docs[e], t, item) <==> HoldsAt(docs[e], t, item) {
    }
  }

  lemma {:induction false} TitleMeans(g: Graph, b: Builder, render: Attr -> string, t: Triple, title: string)
    requires Indexed(g, b, render)
    ensures t in Look(g.byLabel, title) <==> SomeItem(b.documents, t, (item: Item) => item.title == title)
  {
    var shows := (item: Item) => item.title == title;
    if t in Look(g.byLabel, title) {
      var item :| Seen(b.documents, t, item) && item.title == title;
      SeenMeans(b.documents, t, item);
      assert shows(item);
    }
    if SomeItem(b.documents, t, shows) {
      var e, item :| 0 <= e < |b.documents| && HoldsAt(b.documents[e], t, item) && shows(item);
      SeenMeans(b.documents, t, item);
    }
  }

  lemma {:induction false} ValueMeans(
      g: Graph, b: Builder, render: Attr -> string, t: Triple, name: string, value: Attr)
    requires Indexed(g, b, render) && name in g.byAttr
    ensures t in Look(g.byAttr[name], render(value)) <==> SomeItem(b.documents, t, Valued(name, value, render))
  {
    var shows := Valued(name, value, render);
    assert AttrMatches(g.byAttr[name], name, b.documents, render);
    if SeenShowing(b.documents, t, name, render(value), render) {
      var item :| Seen(b.documents, t, item) && Shows(item, name, render(value), render);
      SeenMeans(b.documents, t, item);
      assert shows(item);
    }
    if SomeItem(b.documents, t, shows) {
      var e, item :| 0 <= e < |b.documents| && HoldsAt(b.documents[e], t, item) && shows(item);
      SeenMeans(b.documents, t, item);
      assert Shows(item, name, render(value), render);
    }
  }

  lemma {:induction false} RegionMeans(g: Graph, b: Builder, render: Attr -> string, region: Region, t: Triple)
    requires Indexed(g, b, render) && b.spatial.Some?
    ensures t in g.points && Covers(region, g.points[t]) <==> Between(b, region, t)
  {
    LastPointStands(b.documents, b.spatial.value, t);
    if t in g.points {
      var (x, y) := g.points[t];
      assert StandsAt(b.documents, b.spatial.value, t, x, y);
    }
  }

  /** A query that is not refused finds exactly the addresses that some document holds and that meet
      every filter, told from the documents alone. */
  lemma {:induction false} QueryExactly(g: Graph, b: Builder, render: Attr -> string, q: Query, t: Triple)
    requires Indexed(g, b, render) && Refusal(g, q).None?
    ensures t in Answer(g, q, render) <==>
            (exists item :: ReadsNow(b.documents, t, item)) && Asked(b, q, render, t)
  {
    hide KindsMatch, LabelsMatch, AttrsMatch, PointsMatch, Look, Covers, SomeItem, Between, ReadsNow, Valued;
    CurrentReads(b.documents, t);
    assert t in g.items <==> exists item :: ReadsNow(b.documents, t, item);
    if t in g.items {
      if q.kind.Some? {
        KindMeans(g, b, render, t, q.kind.value);
      }
      if q.title.Some? {
        TitleMeans(g, b, render, t, q.title.value);
      }
      forall i | 0 <= i < |q.attrs|
        ensures q.attrs[i].0 in g.byAttr
        ensures t in Look(g.byAttr[q.attrs[i].0], render(q.attrs[i].1)) <==>
                SomeItem(b.documents, t, Valued(q.attrs[i].0, q.attrs[i].1, render))
      {
        ValueMeans(g, b, render, t, q.attrs[i].0, q.attrs[i].1);
      }
      if q.region.Some? {
        RegionMeans(g, b, render, q.region.value, t);
      }
    }
  }

  /** A query is refused for the first attribute the builder was not told to index, or else for a
      region where no attribute holds points. */
  lemma {:induction false} RefusedExactly(g: Graph, b: Builder, render: Attr -> string, q: Query)
    requires Indexed(g, b, render)
    ensures forall name :: Refusal(g, q) == Some(AttributeNotIndexed(name)) <==>
              exists i | 0 <= i < |q.attrs| ::
                q.attrs[i].0 == name && name !in b.indexed && forall j | 0 <= j < i :: q.attrs[j].0 in b.indexed
    ensures Refusal(g, q) == Some(NoSpatialIndex) <==>
            && (forall i | 0 <= i < |q.attrs| :: q.attrs[i].0 in b.indexed) && q.region.Some? && b.spatial.None?
    ensures Refusal(g, q).Some? ==> Refusal(g, q).value.AttributeNotIndexed? || Refusal(g, q).value.NoSpatialIndex?
  {
    hide ItemsMatch, KindsMatch, LabelsMatch, AttrsMatch, PointsMatch;
    forall i | 0 <= i < |q.attrs| && q.attrs[i].0 !in b.indexed && forall j | 0 <= j < i :: q.attrs[j].0 in b.indexed
      ensures FirstUnindexed(g, q.attrs) == Some(q.attrs[i].0)
    {
      UnindexedAt(g, q.attrs, i);
    }
    if FirstUnindexed(g, q.attrs).Some? {
      FirstIsAt(g, q.attrs);
    }
  }

  lemma {:induction false} FirstIsAt(g: Graph, attrs: seq<(string, Attr)>)
    requires FirstUnindexed(g, attrs).Some?
    ensures exists i | 0 <= i < |attrs| ::
              && attrs[i].0 == FirstUnindexed(g, attrs).value && attrs[i].0 !in g.byAttr
              && forall j | 0 <= j < i :: attrs[j].0 in g.byAttr
  {
    if attrs[0].0 in g.byAttr {
      FirstIsAt(g, attrs[1..]);
      var i :| 0 <= i < |attrs[1..]| && attrs[1..][i].0 == FirstUnindexed(g, attrs[1..]).value &&
          attrs[1..][i].0 !in g.byAttr && forall j | 0 <= j < i :: attrs[1..][j].0 in g.byAttr;
      assert forall j | 1 <= j < i + 1 :: attrs[j] == attrs[1..][j - 1];
      assert attrs[i + 1].0 == FirstUnindexed(g, attrs).value;
    } else {
      assert attrs[0].0 == FirstUnindexed(g, attrs).value;
    }
  }

  // ----- neighbours -----

  /** Two addresses of one document stand at most `radius` apart. */
  ghost predicate WithinReach(b: Builder, target: Triple, radius: real, t: Triple) {
    && b.spatial.Some? && radius >= 0.0 && t != target && t.document == target.document
    && exists x0, y0, x1, y1 ::
         && StandsAt(b.documents, b.spatial.value, target, x0, y0)
         && StandsAt(b.documents, b.spatial.value, t, x1, y1)
         && (x1 - x0) * (x1 - x0) + (y1 - y0) * (y1 - y0) <= radius * radius
  }

  lemma {:induction false} NeighborsExactly(
      g: Graph, b: Builder, render: Attr -> string, target: Triple, radius: real, t: Triple)
    requires Indexed(g, b, render) && target in g.points
    ensures t in AllNear(g, target, radius) <==> WithinReach(b, target, radius, t)
  {
    hide StandsAt, ItemsMatch, KindsMatch, LabelsMatch, AttrsMatch;
    var name := b.spatial;
    if name.Some? {
      LastPointStands(b.documents, name.value, target);
      LastPointStands(b.documents, name.value, t);
      var (x0, y0) := g.points[target];
      assert StandsAt(b.documents, name.value, target, x0, y0);
      if t in g.points {
        var (x1, y1) := g.points[t];
        assert StandsAt(b.documents, name.value, t, x1, y1);
      }
    } else {
      NoPoints(b.documents, target);
    }
  }

  lemma {:induction false} NoPoints(docs: seq<Document>, t: Triple)
    ensures LastPoint(docs, None, t) == None
  {
    if docs != [] {
      NoPoints(docs[..|docs| - 1], t);
    }
  }
}
