/** Queries over the index, and the linear scan they must agree with. */
module GraphQueries {
  import opened Wrappers
  import opened Text
  import opened Sorting
  import opened Items
  import opened Graphs

  datatype Region = Region(minX: real, minY: real, maxX: real, maxY: real)

  predicate Covers(region: Region, p: (real, real)) {
    region.minX <= p.0 <= region.maxX && region.minY <= p.1 <= region.maxY
  }

  datatype Query = Query(
    kind: Option<string>,
    title: Option<string>,
    document: Option<string>,
    attrs: seq<(string, Attr)>,
    region: Option<Region>,
    limit: Option<nat>)

  datatype QueryError = AttributeNotIndexed(name: string) | NoSpatialIndex | ItemNotFound | ItemHasNoPoint

  datatype ResultItem = ResultItem(
    document: Option<string>,
    kind: string,
    key: string,
    title: string,
    distance: Option<real>,
    attrs: map<string, Attr>)

  datatype QueryResult = QueryResult(total: nat, items: seq<ResultItem>)

  // ----- order -----

  lemma {:induction false} TripleFacts(a: Triple, b: Triple, c: Triple)
    ensures TripleLess(a, b) || a == b || TripleLess(b, a)
    ensures !(TripleLess(a, b) && TripleLess(b, a)) && !TripleLess(a, a)
    ensures TripleLess(a, b) && TripleLess(b, c) ==> TripleLess(a, c)
  {
    LessFacts(a.document, b.document, c.document);
    LessFacts(a.kind, b.kind, c.kind);
    LessFacts(a.key, b.key, c.key);
  }

  lemma {:induction false} TripleOrder()
    ensures StrictOrder((a: Triple, b: Triple) => TripleLess(a, b))
  {
    forall a: Triple, b: Triple
      ensures TripleLess(a, b) ==> !TripleLess(b, a)
    {
      TripleFacts(a, b, a);
    }
    forall a: Triple, b: Triple, c: Triple | !TripleLess(b, a) && !TripleLess(c, b)
      ensures !TripleLess(c, a)
    {
      TripleFacts(a, b, c);
      TripleFacts(b, c, a);
      TripleFacts(a, c, b);
    }
  }

  /** The members of a set in `(document, kind, key)` order. */
  ghost predicate Lists(listing: seq<Triple>, s: set<Triple>) {
    && NoRepeats(listing) && (forall t :: t in listing <==> t in s)
    && Sorted(listing, (a: Triple, b: Triple) => TripleLess(a, b))
  }

  /** By document, then kind, then key. */
  ghost predicate InAddressOrder(listing: seq<Triple>) {
    forall i, j | 0 <= i < j < |listing| ::
      var a, b := listing[i], listing[j];
      || Less(a.document, b.document)
      || (a.document == b.document && Less(a.kind, b.kind))
      || (a.document == b.document && a.kind == b.kind && Less(a.key, b.key))
  }

  lemma {:induction false} ListsInOrder(listing: seq<Triple>, s: set<Triple>)
    requires Lists(listing, s)
    ensures InAddressOrder(listing)
  {
    hide Less;
    forall i, j | 0 <= i < j < |listing| ensures TripleLess(listing[i], listing[j]) {
      assert !TripleLess(listing[j], listing[i]) && listing[i] != listing[j];
      LessTotal(listing[i].document, listing[j].document);
      LessTotal(listing[i].kind, listing[j].kind);
      LessTotal(listing[i].key, listing[j].key);
    }
  }

  method Listing(s: set<Triple>) returns (listing: seq<Triple>)
    ensures Lists(listing, s) && |listing| == |s|
  {
    var rest := s;
    listing := [];
    while rest != {}
      invariant rest <= s && NoRepeats(listing)
      invariant forall t :: t in listing <==> t in s - rest
      decreases |rest|
    {
      var t :| t in rest;
      assert t !in listing;
      rest := rest - {t};
      listing := listing + [t];
    }
    var less := (a: Triple, b: Triple) => TripleLess(a, b);
    TripleOrder();
    SortSorts(listing, less);
    SortDistinct(listing, less);
    SameMembers(listing, less);
    listing := Sort(listing, less);
    ListingLength(listing);
    assert s == set t | t in listing;
  }

  // ----- query -----

  function Narrow(candidate: Option<set<Triple>>, s: set<Triple>): set<Triple> {
    match candidate
    case None => s
    case Some(previous) => previous * s
  }

  function ClampLimit(limit: nat): nat {
    if limit < HARD_LIMIT then limit else HARD_LIMIT
  }

  /** What the index structures select. */
  predicate Selects(g: Graph, q: Query, render: Attr -> string, t: Triple) {
    && (q.kind.Some? ==> t in Look(g.byKind, q.kind.value))
    && (q.title.Some? ==> t in Look(g.byLabel, q.title.value))
    && (forall i | 0 <= i < |q.attrs| ::
         q.attrs[i].0 in g.byAttr && t in Look(g.byAttr[q.attrs[i].0], render(q.attrs[i].1)))
    && (q.region.Some? ==> t in g.points && Covers(q.region.value, g.points[t]))
    && (q.document.Some? ==> t.document == q.document.value)
  }

  /** What a scan over the items keeps. */
  predicate Passes(g: Graph, q: Query, render: Attr -> string, t: Triple)
    requires t in g.items
  {
    var item := g.items[t];
    && (q.kind.Some? ==> item.kind == q.kind.value)
    && (q.title.Some? ==> item.title == q.title.value)
    && (forall i | 0 <= i < |q.attrs| :: Shows(item, q.attrs[i].0, render(q.attrs[i].1), render))
    && (q.region.Some? ==> PointOf(item, g.spatial).Some? && Covers(q.region.value, PointOf(item, g.spatial).value))
    && (q.document.Some? ==> t.document == q.document.value)
  }

  ghost function Answer(g: Graph, q: Query, render: Attr -> string): set<Triple> {
    set t | t in g.items && Selects(g, q, render, t)
  }

  ghost function Scan(g: Graph, q: Query, render: Attr -> string): set<Triple> {
    set t | t in g.items && Passes(g, q, render, t)
  }

  /** Every address in an index is an item's. */
  ghost predicate Closed(g: Graph) {
    && (forall v, t | t in Look(g.byKind, v) :: t in g.items)
    && (forall v, t | t in Look(g.byLabel, v) :: t in g.items)
    && (forall name, v, t | name in g.byAttr && t in Look(g.byAttr[name], v) :: t in g.items)
    && (forall t | t in g.points :: t in g.items)
  }

  function ResultOf(g: Graph, t: Triple, omitDocument: bool, distance: Option<real>): ResultItem
    requires t in g.items
  {
    var item := g.items[t];
    ResultItem(if omitDocument then None else Some(t.document), item.kind, item.key, item.title, distance, item.attrs)
  }

  function Least(m: nat, n: nat): nat {
    if m < n then m else n
  }

  /** A result tells an item's address and what the item reads; a query that fixed the document
      leaves it out. */
  predicate IsResult(g: Graph, t: Triple, telling: bool, r: ResultItem) {
    && t in g.items
    && r.document == (if telling then Some(t.document) else None)
    && r.kind == g.items[t].kind && r.key == g.items[t].key
    && r.title == g.items[t].title && r.attrs == g.items[t].attrs
  }

  /** The first error a query meets, if any. */
  function Refusal(g: Graph, q: Query): Option<QueryError> {
    match FirstUnindexed(g, q.attrs)
    case Some(name) => Some(AttributeNotIndexed(name))
    case None => if q.region.Some? && g.spatial.None? then Some(NoSpatialIndex) else None
  }

  function FirstUnindexed(g: Graph, attrs: seq<(string, Attr)>): (r: Option<string>)
    ensures r.None? <==> forall i | 0 <= i < |attrs| :: attrs[i].0 in g.byAttr
  {
    if attrs == [] then None
    else if attrs[0].0 !in g.byAttr then Some(attrs[0].0)
    else
      var r := FirstUnindexed(g, attrs[1..]);
      assert attrs == [attrs[0]] + attrs[1..];
      r
  }

  lemma {:induction false} UnindexedAt(g: Graph, attrs: seq<(string, Attr)>, i: nat)
    requires i < |attrs| && attrs[i].0 !in g.byAttr && forall j | 0 <= j < i :: attrs[j].0 in g.byAttr
    ensures FirstUnindexed(g, attrs) == Some(attrs[i].0)
  {
    if i > 0 {
      UnindexedAt(g, attrs[1..], i - 1);
    }
  }

  /** The filters applied so far: the kind and the label, `n` attributes, and perhaps the region. */
  predicate SoFar(g: Graph, q: Query, render: Attr -> string, n: nat, region: bool, t: Triple)
    requires n <= |q.attrs|
  {
    Named(g, q, t) && AttrsUpTo(g, q, render, t, n) && (region ==> InRegion(g, q, t))
  }

  /** The candidate set is what the filters so far select; without a candidate they select everything. */
  ghost predicate Candidate(
      g: Graph, q: Query, render: Attr -> string, candidate: Option<set<Triple>>, n: nat, region: bool)
    requires n <= |q.attrs|
  {
    forall t :: if candidate.None? then SoFar(g, q, render, n, region, t)
                else t in candidate.value <==> SoFar(g, q, render, n, region, t) && t in g.items
  }

  method NarrowAttrs(g: Graph, q: Query, render: Attr -> string, candidate0: Option<set<Triple>>)
    returns (candidate: Option<set<Triple>>, refused: Option<QueryError>)
    requires Closed(g) && Candidate(g, q, render, candidate0, 0, false)
    ensures refused == match FirstUnindexed(g, q.attrs)
                       case Some(name) => Some(AttributeNotIndexed(name))
                       case None => None
    ensures refused.None? ==> Candidate(g, q, render, candidate, |q.attrs|, false)
  {
    hide Candidate, Closed, Look;
    candidate := candidate0;
    for i := 0 to |q.attrs|
      invariant forall j | 0 <= j < i :: q.attrs[j].0 in g.byAttr
      invariant Candidate(g, q, render, candidate, i, false)
    {
      var (name, value) := q.attrs[i];
      if name !in g.byAttr {
        UnindexedAt(g, q.attrs, i);
        return candidate, Some(AttributeNotIndexed(name));
      }
      AttrNarrowed(g, q, render, candidate, i);
      candidate := Some(Narrow(candidate, Look(g.byAttr[name], render(value))));
    }
    refused := None;
  }

  lemma {:induction false} AttrNarrowed(
      g: Graph, q: Query, render: Attr -> string, candidate: Option<set<Triple>>, i: nat)
    requires Closed(g) && i < |q.attrs| && q.attrs[i].0 in g.byAttr && Candidate(g, q, render, candidate, i, false)
    ensures var found := Look(g.byAttr[q.attrs[i].0], render(q.attrs[i].1));
            Candidate(g, q, render, Some(Narrow(candidate, found)), i + 1, false)
  {
    hide Look;
    forall t
      ensures SoFar(g, q, render, i + 1, false, t) <==>
              SoFar(g, q, render, i, false, t) && t in Look(g.byAttr[q.attrs[i].0], render(q.attrs[i].1))
    {
    }
  }

  predicate AttrsUpTo(g: Graph, q: Query, render: Attr -> string, t: Triple, n: nat)
    requires n <= |q.attrs|
  {
    forall i | 0 <= i < n :: q.attrs[i].0 in g.byAttr && t in Look(g.byAttr[q.attrs[i].0], render(q.attrs[i].1))
  }

  method RunQuery(g: Graph, q: Query, render: Attr -> string)
    returns (r: Result<QueryResult, QueryError>, ghost listing: seq<Triple>)
    requires Closed(g)
    ensures r.Failure? <==> Refusal(g, q).Some?
    ensures r.Failure? ==> Some(r.error) == Refusal(g, q)
    ensures r.Success? ==> Lists(listing, Answer(g, q, render)) && InAddressOrder(listing)
    ensures r.Success? ==>
              && r.value.total == |Answer(g, q, render)|
              && |r.value.items| == Least(Least(if q.limit.Some? then q.limit.value else 20, 200), |listing|)
              && forall i | 0 <= i < |r.value.items| ::
                   IsResult(g, listing[i], !q.document.Some?, r.value.items[i]) && r.value.items[i].distance == None
  {
    hide Candidate, Lists, Closed, InAddressOrder, IsResult, ResultOf;
    var candidate: Option<set<Triple>> := None;
    listing := [];
    if q.kind.Some? {
      candidate := Some(Narrow(candidate, Look(g.byKind, q.kind.value)));
    }
    if q.title.Some? {
      candidate := Some(Narrow(candidate, Look(g.byLabel, q.title.value)));
    }
    NamesNarrowed(g, q, render, candidate);
    var refused;
    candidate, refused := NarrowAttrs(g, q, render, candidate);
    if refused.Some? {
      return Failure(refused.value), [];
    }
    if q.region.Some? {
      if g.spatial.None? {
        return Failure(NoSpatialIndex), [];
      }
      var within := set t | t in g.points && Covers(q.region.value, g.points[t]);
      PointsNarrowed(g, q, render, candidate, within);
      candidate := Some(Narrow(candidate, within));
    } else {
      NoRegion(g, q, render, candidate);
    }
    var matches := match candidate
                   case Some(s) => s
                   case None => g.items.Keys;
    if q.document.Some? {
      matches := set t | t in matches && t.document == q.document.value;
    }
    Matched(g, q, render, candidate, matches);
    var all := Listing(matches);
    listing := all;
    Members(all, matches);
    ListsInOrder(all, matches);
    assert forall t | t in all :: t in g.items;
    var n := Shown(q, |all|);
    var items := seq(n, i requires 0 <= i < n && (forall t | t in all :: t in g.items) && n <= |all| =>
      ResultOf(g, all[i], q.document.Some?, None));
    forall i | 0 <= i < n ensures IsResult(g, all[i], !q.document.Some?, items[i]) && items[i].distance == None {
      ResultTells(g, all[i], q.document.Some?, None);
    }
    r := Success(QueryResult(|all|, items));
  }

  function Shown(q: Query, total: nat): nat {
    var limit := ClampLimit(if q.limit.Some? then q.limit.value else DEFAULT_LIMIT);
    if limit < total then limit else total
  }

  predicate Named(g: Graph, q: Query, t: Triple) {
    && (q.kind.Some? ==> t in Look(g.byKind, q.kind.value))
    && (q.title.Some? ==> t in Look(g.byLabel, q.title.value))
  }

  predicate InRegion(g: Graph, q: Query, t: Triple) {
    q.region.Some? ==> t in g.points && Covers(q.region.value, g.points[t])
  }

  lemma {:induction false} NamesNarrowed(g: Graph, q: Query, render: Attr -> string, candidate: Option<set<Triple>>)
    requires Closed(g)
    requires candidate ==
      (var byKind := if q.kind.Some? then Some(Narrow(None, Look(g.byKind, q.kind.value))) else None;
       if q.title.Some? then Some(Narrow(byKind, Look(g.byLabel, q.title.value))) else byKind)
    ensures Candidate(g, q, render, candidate, 0, false)
  {
    hide Look;
  }

  lemma {:induction false} PointsNarrowed(
      g: Graph, q: Query, render: Attr -> string, candidate: Option<set<Triple>>, within: set<Triple>)
    requires Closed(g) && Candidate(g, q, render, candidate, |q.attrs|, false) && q.region.Some?
    requires within == set t | t in g.points && Covers(q.region.value, g.points[t])
    ensures Candidate(g, q, render, Some(Narrow(candidate, within)), |q.attrs|, true)
  {
    hide Look;
    forall t
      ensures SoFar(g, q, render, |q.attrs|, true, t) <==> SoFar(g, q, render, |q.attrs|, false, t) && t in within
    {
    }
  }

  lemma {:induction false} NoRegion(g: Graph, q: Query, render: Attr -> string, candidate: Option<set<Triple>>)
    requires Candidate(g, q, render, candidate, |q.attrs|, false) && q.region.None?
    ensures Candidate(g, q, render, candidate, |q.attrs|, true)
  {
    forall t
      ensures SoFar(g, q, render, |q.attrs|, true, t) <==> SoFar(g, q, render, |q.attrs|, false, t)
    {
    }
  }

  lemma {:induction false} Matched(
      g: Graph, q: Query, render: Attr -> string, candidate: Option<set<Triple>>, matches: set<Triple>)
    requires Candidate(g, q, render, candidate, |q.attrs|, true)
    requires var all := match candidate case Some(s) => s case None => g.items.Keys;
             matches == if q.document.Some? then set t | t in all && t.document == q.document.value else all
    ensures matches == Answer(g, q, render)
  {
    hide Look;
    forall t
      ensures Selects(g, q, render, t) <==>
              SoFar(g, q, render, |q.attrs|, true, t) && (q.document.Some? ==> t.document == q.document.value)
    {
    }
  }

  lemma {:induction false} Members(listing: seq<Triple>, s: set<Triple>)
    requires Lists(listing, s)
    ensures forall t :: t in listing <==> t in s
  {
  }

  // ----- the index against the scan -----

  lemma {:induction false} SeenIsKeyed(docs: seq<Document>, t: Triple, item: Item)
    requires Seen(docs, t, item)
    ensures item.kind == t.kind && item.key == t.key
  {
    var e :| 0 <= e < |docs| && Holds(docs[e], t, item);
    assert IdentityOf(docs[e].items[IdOf(t)]) == IdOf(t);
  }

  lemma {:induction false} CurrentIsSeen(docs: seq<Document>, t: Triple)
    ensures Current(docs, t).Some? ==> Seen(docs, t, Current(docs, t).value)
    ensures Current(docs, t).Some? <==> exists item :: Seen(docs, t, item)
  {
    if docs != [] {
      var init, last := docs[..|docs| - 1], docs[|docs| - 1];
      CurrentIsSeen(init, t);
      forall item
        ensures Seen(docs, t, item) <==> Seen(init, t, item) || Holds(last, t, item)
      {
        SeenLast(docs, t, item);
      }
      if last.name == t.document && IdOf(t) in last.items {
        assert Holds(last, t, last.items[IdOf(t)]);
      }
    }
  }

  lemma {:induction false} SeenLast(docs: seq<Document>, t: Triple, item: Item)
    requires docs != []
    ensures Seen(docs, t, item) <==> Seen(docs[..|docs| - 1], t, item) || Holds(docs[|docs| - 1], t, item)
  {
    var init := docs[..|docs| - 1];
    if Seen(init, t, item) {
      var e :| 0 <= e < |init| && Holds(init[e], t, item);
      assert Holds(docs[e], t, item);
    }
    if Seen(docs, t, item) {
      var e :| 0 <= e < |docs| && Holds(docs[e], t, item);
      assert e < |init| ==> Holds(init[e], t, item);
    }
  }

  ghost predicate SeenAt(docs: seq<Document>, spatial: Option<string>, t: Triple, p: (real, real)) {
    exists item :: Seen(docs, t, item) && PointOf(item, spatial) == Some(p)
  }

  lemma {:induction false} LastPointIsSeen(docs: seq<Document>, spatial: Option<string>, t: Triple)
    ensures LastPoint(docs, spatial, t).Some? ==> SeenAt(docs, spatial, t, LastPoint(docs, spatial, t).value)
    ensures forall p :: SeenAt(docs, spatial, t, p) ==> LastPoint(docs, spatial, t).Some?
    ensures Current(docs, t).Some? && PointOf(Current(docs, t).value, spatial).Some? ==>
              LastPoint(docs, spatial, t) == PointOf(Current(docs, t).value, spatial)
  {
    if docs != [] {
      var init, last := docs[..|docs| - 1], docs[|docs| - 1];
      LastPointIsSeen(init, spatial, t);
      forall item
        ensures Seen(docs, t, item) <==> Seen(init, t, item) || Holds(last, t, item)
      {
        SeenLast(docs, t, item);
      }
      if last.name == t.document && IdOf(t) in last.items {
        assert Holds(last, t, last.items[IdOf(t)]);
      }
      forall p | SeenAt(docs, spatial, t, p)
        ensures LastPoint(docs, spatial, t).Some?
      {
        var item :| Seen(docs, t, item) && PointOf(item, spatial) == Some(p);
        assert Seen(init, t, item) ==> SeenAt(init, spatial, t, p);
      }
    }
  }

  lemma {:induction false} IndexedIsClosed(g: Graph, b: Builder, render: Attr -> string)
    requires Indexed(g, b, render)
    ensures Closed(g)
  {
    forall t
      ensures t in g.items <==> exists item :: Seen(b.documents, t, item)
      ensures t in g.points ==> exists item :: Seen(b.documents, t, item)
    {
      CurrentIsSeen(b.documents, t);
      LastPointIsSeen(b.documents, b.spatial, t);
    }
  }

  /** Nothing the index remembers of `old` is untrue of the item that replaced it. */
  predicate Outlived(b: Builder, render: Attr -> string, old0: Item, now: Item) {
    && old0.title == now.title
    && (forall name | name in b.indexed && name in old0.attrs :: Shows(now, name, render(old0.attrs[name]), render))
    && (PointOf(old0, b.spatial).Some? ==> PointOf(now, b.spatial).Some?)
  }

  ghost predicate NoStale(b: Builder, render: Attr -> string) {
    forall t, item | Seen(b.documents, t, item) && Current(b.documents, t).Some? ::
      Outlived(b, render, item, Current(b.documents, t).value)
  }

  /** Every query the graph answers is answered as a scan over the items would. */
  ghost predicate Agrees(g: Graph, render: Attr -> string) {
    forall q | Refusal(g, q).None? :: Answer(g, q, render) == Scan(g, q, render)
  }

  lemma {:induction false} KindAgrees(g: Graph, b: Builder, render: Attr -> string, t: Triple, kind: string)
    requires Indexed(g, b, render) && t in g.items
    ensures t in Look(g.byKind, kind) <==> g.items[t].kind == kind
  {
    CurrentIsSeen(b.documents, t);
    forall item | Seen(b.documents, t, item)
      ensures item.kind == t.kind
    {
      SeenIsKeyed(b.documents, t, item);
    }
  }

  lemma {:induction false} TitleAgrees(g: Graph, b: Builder, render: Attr -> string, t: Triple, title: string)
    requires Indexed(g, b, render) && NoStale(b, render) && t in g.items
    ensures t in Look(g.byLabel, title) <==> g.items[t].title == title
  {
    CurrentIsSeen(b.documents, t);
  }

  lemma {:induction false} AttrAgrees(
      g: Graph, b: Builder, render: Attr -> string, t: Triple, name: string, text: string)
    requires Indexed(g, b, render) && NoStale(b, render) && t in g.items && name in g.byAttr
    ensures t in Look(g.byAttr[name], text) <==> Shows(g.items[t], name, text, render)
  {
    CurrentIsSeen(b.documents, t);
    assert AttrMatches(g.byAttr[name], name, b.documents, render);
    if t in Look(g.byAttr[name], text) {
      var item :| Seen(b.documents, t, item) && Shows(item, name, text, render);
      assert Outlived(b, render, item, g.items[t]);
    }
  }

  lemma {:induction false} PointAgrees(g: Graph, b: Builder, render: Attr -> string, t: Triple)
    requires Indexed(g, b, render) && NoStale(b, render) && t in g.items
    ensures t in g.points <==> PointOf(g.items[t], b.spatial).Some?
    ensures t in g.points ==> Some(g.points[t]) == PointOf(g.items[t], b.spatial)
  {
    LastPointIsSeen(b.documents, b.spatial, t);
    if t in g.points {
      var item :| Seen(b.documents, t, item) && PointOf(item, b.spatial) == LastPoint(b.documents, b.spatial, t);
      assert Outlived(b, render, item, g.items[t]);
    }
  }

  lemma {:induction false} NoStaleAgrees(g: Graph, b: Builder, render: Attr -> string)
    requires Indexed(g, b, render) && NoStale(b, render)
    ensures Agrees(g, render)
  {
    hide ItemsMatch, KindsMatch, LabelsMatch, AttrsMatch, PointsMatch, NoStale;
    forall q, t | Refusal(g, q).None? && t in g.items
      ensures Selects(g, q, render, t) <==> Passes(g, q, render, t)
    {
      if q.kind.Some? {
        KindAgrees(g, b, render, t, q.kind.value);
      }
      if q.title.Some? {
        TitleAgrees(g, b, render, t, q.title.value);
      }
      forall i | 0 <= i < |q.attrs|
        ensures q.attrs[i].0 in g.byAttr
        ensures t in Look(g.byAttr[q.attrs[i].0], render(q.attrs[i].1)) <==>
                  Shows(g.items[t], q.attrs[i].0, render(q.attrs[i].1), render)
      {
        AttrAgrees(g, b, render, t, q.attrs[i].0, render(q.attrs[i].1));
      }
      PointAgrees(g, b, render, t);
    }
  }

  const ANY: Query := Query(None, None, None, [], None, None)

  /** The query tells the index and the scan apart. */
  ghost predicate Betrays(g: Graph, q: Query, render: Attr -> string) {
    Refusal(g, q).None? && Answer(g, q, render) != Scan(g, q, render)
  }

  lemma {:induction false} StaleTitle(g: Graph, b: Builder, render: Attr -> string, t: Triple, old0: Item)
    requires Indexed(g, b, render) && Seen(b.documents, t, old0) && t in g.items
    requires old0.title != g.items[t].title
    ensures Betrays(g, ANY.(title := Some(old0.title)), render)
  {
    hide ItemsMatch, KindsMatch, AttrsMatch, PointsMatch, Seen;
    var q := ANY.(title := Some(old0.title));
    assert t in Answer(g, q, render) && t !in Scan(g, q, render);
  }

  lemma {:induction false} StaleAttr(g: Graph, b: Builder, render: Attr -> string, t: Triple, old0: Item, name: string)
    requires Indexed(g, b, render) && Seen(b.documents, t, old0) && t in g.items
    requires name in b.indexed && name in old0.attrs && !Shows(g.items[t], name, render(old0.attrs[name]), render)
    ensures Betrays(g, ANY.(attrs := [(name, old0.attrs[name])]), render)
  {
    hide ItemsMatch, KindsMatch, LabelsMatch, PointsMatch, Seen, Look, AttrMatches;
    var q, text := ANY.(attrs := [(name, old0.attrs[name])]), render(old0.attrs[name]);
    assert t in Look(g.byAttr[name], text) by {
      FiledUnder(g.byAttr[name], name, b, render, t, old0, text);
    }
    assert q.attrs[0] == (name, old0.attrs[name]);
    assert Selects(g, q, render, t) && !Passes(g, q, render, t);
    assert t in Answer(g, q, render) && t !in Scan(g, q, render);
  }

  lemma {:induction false} FiledUnder(
      values: map<string, set<Triple>>, name: string, b: Builder, render: Attr -> string, t: Triple, item: Item,
      text: string)
    requires AttrMatches(values, name, b.documents, render) && Seen(b.documents, t, item) &&
              Shows(item, name, text, render)
    ensures t in Look(values, text)
  {
    assert SeenShowing(b.documents, t, name, text, render);
  }

  lemma {:induction false} StalePoint(g: Graph, b: Builder, render: Attr -> string, t: Triple, old0: Item)
    requires Indexed(g, b, render) && Seen(b.documents, t, old0) && t in g.items
    requires PointOf(old0, b.spatial).Some? && PointOf(g.items[t], b.spatial).None?
    ensures exists q :: Betrays(g, q, render)
  {
    hide ItemsMatch, KindsMatch, LabelsMatch, AttrsMatch, Seen;
    LastPointIsSeen(b.documents, b.spatial, t);
    assert SeenAt(b.documents, b.spatial, t, PointOf(old0, b.spatial).value);
    var p := g.points[t];
    var q := ANY.(region := Some(Region(p.0, p.1, p.0, p.1)));
    assert t in Answer(g, q, render) && t !in Scan(g, q, render);
    assert Betrays(g, q, render);
  }

  lemma {:induction false} StaleShows(g: Graph, b: Builder, render: Attr -> string, t: Triple, old0: Item)
    requires Indexed(g, b, render) && Seen(b.documents, t, old0) && t in g.items
    requires !Outlived(b, render, old0, g.items[t])
    ensures exists q :: Betrays(g, q, render)
  {
    hide Indexed, Seen, Betrays;
    var now := g.items[t];
    if old0.title != now.title {
      StaleTitle(g, b, render, t, old0);
    } else if name :| name in b.indexed && name in old0.attrs && !Shows(now, name, render(old0.attrs[name]), render) {
      StaleAttr(g, b, render, t, old0, name);
    } else {
      StalePoint(g, b, render, t, old0);
    }
  }

  /** Exactly when the index answers every query as a scan would. */
  lemma {:induction false} AgreesExactly(g: Graph, b: Builder, render: Attr -> string)
    requires Indexed(g, b, render)
    ensures Agrees(g, render) <==> NoStale(b, render)
  {
    if NoStale(b, render) {
      NoStaleAgrees(g, b, render);
    } else {
      var t, item :| Seen(b.documents, t, item) && Current(b.documents, t).Some?
        && !Outlived(b, render, item, Current(b.documents, t).value);
      assert t in g.items;
      StaleShows(g, b, render, t, item);
      var q :| Betrays(g, q, render);
    }
  }

  ghost predicate DistinctNames(docs: seq<Document>) {
    forall i, j | 0 <= i < j < |docs| :: docs[i].name != docs[j].name
  }

  /** Documents with names of their own leave nothing stale. */
  lemma {:induction false} DistinctNamesNeverStale(b: Builder, render: Attr -> string)
    requires DistinctNames(b.documents)
    ensures NoStale(b, render)
  {
    forall t, item | Seen(b.documents, t, item) && Current(b.documents, t).Some?
      ensures Outlived(b, render, item, Current(b.documents, t).value)
    {
      CurrentIsSeen(b.documents, t);
      var now := Current(b.documents, t).value;
      var i :| 0 <= i < |b.documents| && Holds(b.documents[i], t, item);
      var j :| 0 <= j < |b.documents| && Holds(b.documents[j], t, now);
      assert i == j;
    }
  }

  const RENAMED: seq<Document> :=
    [Document("main", map[Identity("symbol", "u1") := Item("symbol", "u1", "U1", map[])]),
     Document("main", map[Identity("symbol", "u1") := Item("symbol", "u1", "U9", map[])])]

  /** One name given to two documents: a query for the old label finds the new item. */
  lemma {:induction false} ReplacedItemKeepsItsOldLabel(g: Graph, render: Attr -> string)
    requires Indexed(g, Builder(RENAMED, {}, None), render)
    ensures var t := Triple("main", "symbol", "u1");
            t in g.items && g.items[t].title == "U9" && t in Answer(g, ANY.(title := Some("U1")), render)
  {
    var docs := RENAMED;
    var t := Triple("main", "symbol", "u1");
    assert Current(docs, t) == Some(Item("symbol", "u1", "U9", map[]));
    assert Holds(docs[0], t, Item("symbol", "u1", "U1", map[]));
    assert Seen(docs, t, Item("symbol", "u1", "U1", map[]));
  }

  // ----- neighbours -----

  function Apart2(p: (real, real), q: (real, real)): real {
    (q.0 - p.0) * (q.0 - p.0) + (q.1 - p.1) * (q.1 - p.1)
  }

  /** Distances are compared, and reported, squared. */
  function Distance2(g: Graph, target: Triple, t: Triple): real {
    if t in g.points && target in g.points then Apart2(g.points[target], g.points[t]) else 0.0
  }

  predicate Closer(g: Graph, target: Triple, a: Triple, b: Triple) {
    Distance2(g, target, a) < Distance2(g, target, b)
    || (Distance2(g, target, a) == Distance2(g, target, b) && TripleLess(a, b))
  }

  predicate Near(g: Graph, target: Triple, radius: real, t: Triple) {
    && t in g.points && t.document == target.document && t != target
    && radius >= 0.0 && Distance2(g, target, t) <= radius * radius
  }

  ghost function AllNear(g: Graph, target: Triple, radius: real): set<Triple> {
    set t | t in g.points && Near(g, target, radius, t)
  }

  lemma {:induction false} CloserOrder(g: Graph, target: Triple)
    ensures StrictOrder((a: Triple, b: Triple) => Closer(g, target, a, b))
  {
    hide Distance2, TripleLess;
    forall a: Triple, b: Triple
      ensures Closer(g, target, a, b) ==> !Closer(g, target, b, a)
    {
      TripleFacts(a, b, a);
    }
    forall a: Triple, b: Triple, c: Triple | !Closer(g, target, b, a) && !Closer(g, target, c, b)
      ensures !Closer(g, target, c, a)
    {
      TripleFacts(a, b, c);
      TripleFacts(b, c, a);
      TripleFacts(a, c, b);
    }
  }

  /** The nearest first, ties by address; each one returned is no farther than any left out. */
  method Neighbors(g: Graph, target: Triple, radius: real, limit: nat)
    returns (r: Result<QueryResult, QueryError>, ghost order: seq<Triple>)
    requires Closed(g)
    ensures target !in g.items ==> r == Failure(ItemNotFound)
    ensures target in g.items && target !in g.points ==> r == Failure(ItemHasNoPoint)
    ensures target in g.points ==>
              && r.Success? && NoRepeats(order) && (forall t :: t in order <==> t in AllNear(g, target, radius))
              && r.value.total == |AllNear(g, target, radius)| == |order|
              && |r.value.items| == Least(Least(limit, 200), |order|)
              && (forall i | 0 <= i < |r.value.items| ::
                    && order[i] in g.points && IsResult(g, order[i], true, r.value.items[i])
                    && r.value.items[i].distance == Some(Apart2(g.points[target], g.points[order[i]])))
              && NearerFirst(g, target, order)
    ensures r.Success? ==> forall i, t | 0 <= i < |r.value.items| && t in AllNear(g, target, radius) &&
              t !in order[..|r.value.items|] ::
              Distance2(g, target, order[i]) <= Distance2(g, target, t)
  {
    hide Distance2, Closed, TripleLess, Look, IsResult, ResultOf, Apart2, NearerFirst, Closer;
    order := [];
    if target !in g.items {
      InClosed(g, target);
      return Failure(ItemNotFound), order;
    }
    if target !in g.points {
      return Failure(ItemHasNoPoint), order;
    }
    var near := set t | t in g.points && Near(g, target, radius, t);
    var listing := Listing(near);
    ListsMembers(listing, near);
    var less := (a: Triple, b: Triple) => Closer(g, target, a, b);
    CloserOrder(g, target);
    SortSorts(listing, less);
    SortDistinct(listing, less);
    SameMembers(listing, less);
    SortKeeps(listing, less);
    var sorted := Sort(listing, less);
    order := sorted;
    assert near == AllNear(g, target, radius);
    forall t | t in sorted
      ensures t in g.items
    {
      InClosed(g, t);
    }
    var n := if ClampLimit(limit) < |sorted| then ClampLimit(limit) else |sorted|;
    var items := seq(n, i requires 0 <= i < n && n <= |sorted| && (forall t | t in sorted :: t in g.items) =>
      ResultOf(g, sorted[i], false, Some(Distance2(g, target, sorted[i]))));
    OmittedAreFarther(g, target, sorted, n);
    NearestFirst(g, target, sorted);
    forall i | 0 <= i < n
      ensures sorted[i] in g.points && IsResult(g, sorted[i], true, items[i])
      ensures items[i].distance == Some(Apart2(g.points[target], g.points[sorted[i]]))
    {
      assert sorted[i] in near;
      ResultTells(g, sorted[i], false, Some(Distance2(g, target, sorted[i])));
      DistanceIs(g, target, sorted[i]);
    }
    r := Success(QueryResult(|sorted|, items));
  }

  lemma {:induction false} ResultTells(g: Graph, t: Triple, omitDocument: bool, distance: Option<real>)
    requires t in g.items
    ensures var r := ResultOf(g, t, omitDocument, distance);
            IsResult(g, t, !omitDocument, r) && r.distance == distance
  {
  }

  lemma {:induction false} DistanceIs(g: Graph, target: Triple, t: Triple)
    requires t in g.points && target in g.points
    ensures Distance2(g, target, t) == Apart2(g.points[target], g.points[t])
  {
  }

  ghost predicate NearerFirst(g: Graph, target: Triple, order: seq<Triple>) {
    forall i, j | 0 <= i < j < |order| ::
      var near, far := Distance2(g, target, order[i]), Distance2(g, target, order[j]);
      near < far || (near == far && TripleLess(order[i], order[j]))
  }

  lemma {:induction false} NearestFirst(g: Graph, target: Triple, order: seq<Triple>)
    requires NoRepeats(order) && Sorted(order, (a: Triple, b: Triple) => Closer(g, target, a, b))
    ensures NearerFirst(g, target, order)
  {
    hide Distance2, TripleLess;
    forall i, j | 0 <= i < j < |order|
      ensures Closer(g, target, order[i], order[j])
    {
      assert !Closer(g, target, order[j], order[i]);
      TripleFacts(order[i], order[j], order[i]);
    }
  }

  /** An item's own point, as the item reads now. */
  function ItemPoint(g: Graph, t: Triple): Option<(real, real)> {
    if t in g.items then PointOf(g.items[t], g.spatial) else None
  }

  /** The other items of the target's document whose own points are within the radius. */
  predicate ItemNear(g: Graph, target: Triple, radius: real, t: Triple) {
    && t.document == target.document && t != target
    && ItemPoint(g, t).Some? && ItemPoint(g, target).Some?
    && radius >= 0.0 && Apart2(ItemPoint(g, target).value, ItemPoint(g, t).value) <= radius * radius
  }

  /** With nothing stale the neighbours found are the items that are near as they read now. */
  lemma {:induction false} NeighborsAreItems(
      g: Graph, b: Builder, render: Attr -> string, target: Triple, radius: real, t: Triple)
    requires Indexed(g, b, render) && NoStale(b, render) && target in g.points
    ensures t in AllNear(g, target, radius) <==> ItemNear(g, target, radius, t)
  {
    hide ItemsMatch, KindsMatch, LabelsMatch, AttrsMatch, PointsMatch, NoStale, Apart2, PointOf, Closed;
    IndexedIsClosed(g, b, render);
    InClosed(g, t);
    InClosed(g, target);
    PointAgrees(g, b, render, target);
    if t in g.items {
      PointAgrees(g, b, render, t);
    }
  }

  lemma {:induction false} InClosed(g: Graph, t: Triple)
    requires Closed(g)
    ensures t in g.points ==> t in g.items
  {
  }

  lemma {:induction false} ListsMembers(listing: seq<Triple>, s: set<Triple>)
    requires Lists(listing, s)
    ensures NoRepeats(listing) && forall t :: t in listing <==> t in s
  {
  }

  lemma {:induction false} OmittedAreFarther(g: Graph, target: Triple, order: seq<Triple>, n: nat)
    requires n <= |order| && Sorted(order, (a: Triple, b: Triple) => Closer(g, target, a, b))
    ensures forall i, t | 0 <= i < n && t in order && t !in order[..n] ::
              Distance2(g, target, order[i]) <= Distance2(g, target, t)
  {
    hide Distance2, TripleLess;
    assert forall k | 0 <= k < n :: order[..n][k] == order[k] && order[k] in order[..n];
    forall i, t | 0 <= i < n && t in order && t !in order[..n]
      ensures Distance2(g, target, order[i]) <= Distance2(g, target, t)
    {
      var j :| 0 <= j < |order| && order[j] == t;
      assert !Closer(g, target, order[j], order[i]);
    }
  }
}
