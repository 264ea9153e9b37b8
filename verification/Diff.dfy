/** Comparing two versions of a document item by item, and the order in which their changes are listed. */
module Diffs {
  import opened Wrappers
  import opened Text
  import opened Sorting
  import opened Items

  datatype AttrChange = AttrChange(name: string, before: Option<Attr>, after: Option<Attr>)

  datatype Change =
    | Added(item: Item)
    | Removed(item: Item)
    | Modified(kind: string, key: string, title: string, attrs: seq<AttrChange>)

  function IdOf(c: Change): Identity {
    match c
    case Added(item) => IdentityOf(item)
    case Removed(item) => IdentityOf(item)
    case Modified(kind, key, _, _) => Identity(kind, key)
  }

  function TitleOf(c: Change): string {
    match c
    case Added(item) => item.title
    case Removed(item) => item.title
    case Modified(_, _, title, _) => title
  }

  function Get(attrs: map<string, Attr>, name: string): Option<Attr> {
    if name in attrs then Some(attrs[name]) else None
  }

  predicate SameValue(a: Option<Attr>, b: Option<Attr>) {
    match (a, b)
    case (Some(x), Some(y)) => SameAs(x, y)
    case (None, None) => true
    case _ => false
  }

  /** The same attributes, each the same design fact. */
  ghost predicate SameAttrs(a: map<string, Attr>, b: map<string, Attr>) {
    forall name: string :: SameValue(Get(a, name), Get(b, name))
  }

  ghost predicate SameDesign(a: ItemSet, b: ItemSet) {
    a.Keys == b.Keys && forall id | id in a :: SameAttrs(a[id].attrs, b[id].attrs)
  }

  // ----- attributes -----

  ghost predicate NamesAscend(changes: seq<AttrChange>) {
    forall i, j | 0 <= i < j < |changes| :: Less(changes[i].name, changes[j].name)
  }

  ghost predicate Names(changes: seq<AttrChange>, name: string) {
    exists c :: c in changes && c.name == name
  }

  /** Exactly the attributes that are not the same, with both values, in name order. */
  ghost predicate AttrDiff(before: map<string, Attr>, after: map<string, Attr>, changes: seq<AttrChange>) {
    && NamesAscend(changes)
    && (forall c | c in changes ::
          c == AttrChange(c.name, Get(before, c.name), Get(after, c.name)) && !SameValue(c.before, c.after))
    && (forall name | !SameValue(Get(before, name), Get(after, name)) :: Names(changes, name))
  }

  method SortedNames(names: set<string>) returns (out: seq<string>)
    ensures forall name :: name in out <==> name in names
    ensures forall i, j | 0 <= i < j < |out| :: Less(out[i], out[j])
  {
    var rest := names;
    out := [];
    while rest != {}
      invariant rest <= names && NoRepeats(out)
      invariant forall name :: name in out <==> name in names - rest
      decreases |rest|
    {
      var name :| name in rest;
      assert name !in out;
      rest := rest - {name};
      out := out + [name];
    }
    var less := (a: string, b: string) => Less(a, b);
    NameOrder();
    SortSorts(out, less);
    SortDistinct(out, less);
    SameMembers(out, less);
    out := Sort(out, less);
    forall i, j | 0 <= i < j < |out|
      ensures Less(out[i], out[j])
    {
      LessTotal(out[i], out[j]);
    }
  }

  lemma {:induction false} NameOrder()
    ensures StrictOrder((a: string, b: string) => Less(a, b))
  {
    forall a: string, b: string
      ensures Less(a, b) ==> !Less(b, a)
    {
      LessFacts(a, b, a);
    }
    forall a: string, b: string, c: string | !Less(b, a) && !Less(c, b)
      ensures !Less(c, a)
    {
      LessFacts(a, b, c);
      LessFacts(b, c, a);
      LessFacts(a, c, b);
    }
  }

  method AttrChanges(before: map<string, Attr>, after: map<string, Attr>) returns (out: seq<AttrChange>)
    ensures AttrDiff(before, after, out)
  {
    hide SameValue, Less;
    var names := SortedNames(before.Keys + after.Keys);
    out := [];
    for i := 0 to |names|
      invariant NamesAscend(out) && forall c, j | c in out && i <= j < |names| :: Less(c.name, names[j])
      invariant forall c | c in out ::
                  c == AttrChange(c.name, Get(before, c.name), Get(after, c.name)) && !SameValue(c.before, c.after)
      invariant forall j | 0 <= j < i && !SameValue(Get(before, names[j]), Get(after, names[j])) :: Names(out, names[j])
    {
      var old0, new0 := Get(before, names[i]), Get(after, names[i]);
      if !SameValue(old0, new0) {
        ghost var was := out;
        out := out + [AttrChange(names[i], old0, new0)];
        NamesGrow(was, AttrChange(names[i], old0, new0));
      }
    }
    forall name | !SameValue(Get(before, name), Get(after, name))
      ensures Names(out, name)
    {
      BothMissing(before, after, name);
      assert name in names;
    }
  }

  lemma {:induction false} BothMissing(before: map<string, Attr>, after: map<string, Attr>, name: string)
    ensures name !in before && name !in after ==> SameValue(Get(before, name), Get(after, name))
  {
  }

  lemma {:induction false} NamesGrow(changes: seq<AttrChange>, c: AttrChange)
    ensures Names(changes + [c], c.name) && forall name :: Names(changes, name) ==> Names(changes + [c], name)
  {
    assert c in changes + [c];
    forall name | Names(changes, name)
      ensures Names(changes + [c], name)
    {
      var d :| d in changes && d.name == name;
      assert d in changes + [c];
    }
  }

  // ----- items -----

  /** What one change says is so of the two versions. */
  ghost predicate Tells(before: ItemSet, after: ItemSet, c: Change) {
    match c
    case Added(item) => IdentityOf(item) !in before && IdentityOf(item) in after && after[IdentityOf(item)] == item
    case Removed(item) => IdentityOf(item) !in after && IdentityOf(item) in before && before[IdentityOf(item)] == item
    case Modified(kind, key, title, attrs) =>
      var id := Identity(kind, key);
      && id in before && id in after && title == after[id].title && attrs != []
      && AttrDiff(before[id].attrs, after[id].attrs, attrs)
  }

  /** The item is not the same in both versions. */
  ghost predicate Touched(before: ItemSet, after: ItemSet, id: Identity) {
    if id in before && id in after then !SameAttrs(before[id].attrs, after[id].attrs) else id in before || id in after
  }

  ghost predicate Mentions(changes: seq<Change>, id: Identity) {
    exists c :: c in changes && IdOf(c) == id
  }

  ghost predicate IdsDistinct(changes: seq<Change>) {
    forall i, j | 0 <= i < j < |changes| :: IdOf(changes[i]) != IdOf(changes[j])
  }

  /** Every item that changed, once, and nothing else. */
  ghost predicate IsDiff(before: ItemSet, after: ItemSet, changes: seq<Change>) {
    && IdsDistinct(changes)
    && (forall c | c in changes :: Tells(before, after, c))
    && (forall id | Touched(before, after, id) :: Mentions(changes, id))
  }

  predicate ChangeLess(a: Change, b: Change, render: Change -> string) {
    if IdOf(a).kind != IdOf(b).kind then Less(IdOf(a).kind, IdOf(b).kind)
    else if TitleOf(a) != TitleOf(b) then Less(TitleOf(a), TitleOf(b))
    else Less(render(a), render(b))
  }

  lemma {:induction false} ChangeOrder(render: Change -> string)
    ensures StrictOrder((a: Change, b: Change) => ChangeLess(a, b, render))
  {
    hide Less, IdOf, TitleOf;
    forall a: Change, b: Change
      ensures ChangeLess(a, b, render) ==> !ChangeLess(b, a, render)
    {
      LessFacts(IdOf(a).kind, IdOf(b).kind, "");
      LessFacts(TitleOf(a), TitleOf(b), "");
      LessFacts(render(a), render(b), "");
    }
    forall a: Change, b: Change, c: Change | !ChangeLess(b, a, render) && !ChangeLess(c, b, render)
      ensures !ChangeLess(c, a, render)
    {
      Lexicographic(IdOf(a).kind, IdOf(b).kind, IdOf(c).kind);
      Lexicographic(TitleOf(a), TitleOf(b), TitleOf(c));
      Lexicographic(render(a), render(b), render(c));
    }
  }

  lemma {:induction false} Lexicographic(a: string, b: string, c: string)
    ensures Less(a, b) || a == b || Less(b, a)
    ensures Less(b, c) || b == c || Less(c, b)
    ensures !(Less(a, b) && Less(b, a)) && !(Less(b, c) && Less(c, b)) && !(Less(a, c) && Less(c, a))
    ensures Less(a, b) && Less(b, c) ==> Less(a, c)
    ensures Less(c, b) && Less(b, a) ==> Less(c, a)
  {
    LessFacts(a, b, c);
    LessFacts(b, c, a);
    LessFacts(a, c, b);
    LessFacts(c, b, a);
  }

  function SortChanges(changes: seq<Change>, render: Change -> string): seq<Change> {
    Sort(changes, (a: Change, b: Change) => ChangeLess(a, b, render))
  }

  /** Sorting loses no change and mentions none twice. */
  lemma {:induction false} SortingKeeps(before: ItemSet, after: ItemSet, changes: seq<Change>, render: Change -> string)
    requires IsDiff(before, after, changes)
    ensures IsDiff(before, after, SortChanges(changes, render))
    ensures Sorted(SortChanges(changes, render), (a: Change, b: Change) => ChangeLess(a, b, render))
    ensures |SortChanges(changes, render)| == |changes|
  {
    hide Tells, Touched, ChangeLess;
    var less := (a: Change, b: Change) => ChangeLess(a, b, render);
    var out := SortChanges(changes, render);
    ChangeOrder(render);
    SortSorts(changes, less);
    SameMembers(changes, less);
    SortKeeps(changes, less);
    SortDistinct(changes, less);
    forall i, j | 0 <= i < j < |out|
      ensures IdOf(out[i]) != IdOf(out[j])
    {
      assert out[i] in out && out[j] in out;
      var k :| 0 <= k < |changes| && changes[k] == out[i];
      var m :| 0 <= m < |changes| && changes[m] == out[j];
      assert k != m;
    }
    forall id | Mentions(changes, id)
      ensures Mentions(out, id)
    {
      var c :| c in changes && IdOf(c) == id;
      assert c in out;
    }
  }

  /** The diff of the part of the items seen so far. */
  ghost predicate PartDiff(before: ItemSet, after: ItemSet, ids: set<Identity>, changes: seq<Change>) {
    && IdsDistinct(changes)
    && (forall c | c in changes :: IdOf(c) in ids && Tells(before, after, c))
    && (forall id | id in ids && Touched(before, after, id) :: Mentions(changes, id))
  }

  lemma {:induction false} PartGrows(
      before: ItemSet, after: ItemSet, ids: set<Identity>, changes: seq<Change>, id: Identity, c: Option<Change>)
    requires PartDiff(before, after, ids, changes) && id !in ids
    requires if c.Some? then IdOf(c.value) == id && Tells(before, after, c.value) else !Touched(before, after, id)
    ensures PartDiff(before, after, ids + {id}, if c.Some? then changes + [c.value] else changes)
  {
    hide Tells, Touched;
    var out := if c.Some? then changes + [c.value] else changes;
    forall other | Mentions(changes, other)
      ensures Mentions(out, other)
    {
      var d :| d in changes && IdOf(d) == other;
      assert d in out;
    }
    assert c.Some? ==> c.value in out;
    assert forall i | 0 <= i < |changes| :: changes[i] in changes;
  }

  method ChangeAt(before: ItemSet, after: ItemSet, id: Identity) returns (c: Option<Change>)
    requires id in after
    ensures if c.Some? then IdOf(c.value) == id && Tells(before, after, c.value) else !Touched(before, after, id)
  {
    hide SameValue, Less;
    var item := after[id];
    assert IdentityOf(item) == id;
    if id !in before {
      return Some(Added(item));
    }
    var attrs := AttrChanges(before[id].attrs, item.attrs);
    NoAttrChanges(before[id].attrs, item.attrs, attrs);
    c := if attrs != [] then Some(Modified(item.kind, item.key, item.title, attrs)) else None;
  }

  /** No change listed exactly when the attributes are the same. */
  lemma {:induction false} NoAttrChanges(before: map<string, Attr>, after: map<string, Attr>, changes: seq<AttrChange>)
    requires AttrDiff(before, after, changes)
    ensures changes == [] <==> SameAttrs(before, after)
  {
    hide SameValue;
    if changes == [] {
      assert forall name :: !Names(changes, name);
    } else {
      assert changes[0] in changes;
      assert !SameValue(Get(before, changes[0].name), Get(after, changes[0].name));
    }
  }

  // ----- the order items are walked in -----

  predicate IdLess(a: Identity, b: Identity) {
    if a.kind != b.kind then Less(a.kind, b.kind) else Less(a.key, b.key)
  }

  lemma {:induction false} IdOrder(a: Identity, b: Identity)
    ensures IdLess(a, b) || a == b || IdLess(b, a)
    ensures IdLess(a, b) ==> !IdLess(b, a) && a != b
  {
    hide Less;
    LessFacts(a.kind, b.kind, "");
    LessFacts(a.key, b.key, "");
  }

  lemma {:induction false} IdsOrdered()
    ensures StrictOrder((a: Identity, b: Identity) => IdLess(a, b))
  {
    hide Less;
    forall a: Identity, b: Identity
      ensures IdLess(a, b) ==> !IdLess(b, a)
    {
      IdOrder(a, b);
    }
    forall a: Identity, b: Identity, c: Identity | !IdLess(b, a) && !IdLess(c, b)
      ensures !IdLess(c, a)
    {
      Lexicographic(a.kind, b.kind, c.kind);
      Lexicographic(a.key, b.key, c.key);
    }
  }

  /** The identities of an item set, by kind and then by key. */
  method SortedIds(ids: set<Identity>) returns (out: seq<Identity>)
    ensures forall id :: id in out <==> id in ids
    ensures forall i, j | 0 <= i < j < |out| :: IdLess(out[i], out[j])
  {
    hide IdLess;
    var rest := ids;
    out := [];
    while rest != {}
      invariant rest <= ids && NoRepeats(out)
      invariant forall id :: id in out <==> id in ids - rest
      decreases |rest|
    {
      var id :| id in rest;
      assert id !in out;
      rest := rest - {id};
      out := out + [id];
    }
    var less := (a: Identity, b: Identity) => IdLess(a, b);
    IdsOrdered();
    SortSorts(out, less);
    SortDistinct(out, less);
    SameMembers(out, less);
    out := Sort(out, less);
    forall i, j | 0 <= i < j < |out|
      ensures IdLess(out[i], out[j])
    {
      IdOrder(out[i], out[j]);
    }
  }

  /** The order changes are found in: what the new version holds, then what only the old one does, each
      by kind and key. */
  predicate Earlier(a: Change, b: Change) {
    if a.Removed? == b.Removed? then IdLess(IdOf(a), IdOf(b)) else b.Removed?
  }

  ghost predicate Walked(changes: seq<Change>) {
    forall i, j | 0 <= i < j < |changes| :: Earlier(changes[i], changes[j])
  }

  lemma {:induction false} WalkGrows(changes: seq<Change>, c: Change)
    requires Walked(changes) && forall d | d in changes :: Earlier(d, c)
    ensures Walked(changes + [c])
  {
    hide Earlier;
    var more := changes + [c];
    assert forall i | 0 <= i < |changes| :: more[i] == changes[i] && changes[i] in changes;
  }

  /** The changes found so far are of identities already passed. */
  ghost predicate Passed(changes: seq<Change>, ids: seq<Identity>, removed: bool) {
    forall c | c in changes :: IdOf(c) in ids && (removed || !c.Removed?)
  }

  lemma {:induction false} NextIsLater(changes: seq<Change>, ids: seq<Identity>, i: nat, c: Change)
    requires i < |ids| && (forall j, k | 0 <= j < k < |ids| :: IdLess(ids[j], ids[k]))
    requires Passed(changes, ids[..i], false) && IdOf(c) == ids[i] && !c.Removed?
    ensures forall d | d in changes :: Earlier(d, c)
    ensures Passed(changes, ids[..i + 1], false) && Passed(changes + [c], ids[..i + 1], false)
  {
    hide IdLess, IdOf;
    TakeOneMore(ids, i);
    forall d | d in changes
      ensures Earlier(d, c)
    {
      var j :| 0 <= j < i && ids[..i][j] == IdOf(d);
    }
  }

  /** The items the new version holds. */
  method CompareKept(before: ItemSet, after: ItemSet) returns (changes: seq<Change>)
    ensures PartDiff(before, after, after.Keys, changes)
    ensures Walked(changes) && forall c | c in changes :: !c.Removed?
  {
    hide *;
    changes := [];
    var ids := SortedIds(after.Keys);
    NothingSeen(before, after);
    IdsBefore(ids, 0);
    for i := 0 to |ids|
      invariant PartDiff(before, after, IdSet(ids[..i]), changes)
      invariant Walked(changes) && Passed(changes, ids[..i], false)
    {
      var c := ChangeAt(before, after, ids[i]);
      IdsBefore(ids, i);
      PartGrows(before, after, IdSet(ids[..i]), changes, ids[i], c);
      if c.Some? {
        NotRemoved(before, after, ids[i], c.value);
        NextIsLater(changes, ids, i, c.value);
        WalkGrows(changes, c.value);
        changes := changes + [c.value];
      } else {
        StillPassed(changes, ids, i);
      }
    }
    AllPassed(changes, ids, after.Keys);
  }

  /** The items only the old version holds. */
  method CompareGone(before: ItemSet, after: ItemSet, changes0: seq<Change>) returns (changes: seq<Change>)
    requires PartDiff(before, after, after.Keys, changes0)
    requires Walked(changes0) && forall c | c in changes0 :: !c.Removed?
    ensures IsDiff(before, after, changes) && Walked(changes)
  {
    hide *;
    changes := changes0;
    var ids := SortedIds(before.Keys);
    IdsBefore(ids, 0);
    GoneNone(changes, ids, after);
    for i := 0 to |ids|
      invariant PartDiff(before, after, after.Keys + IdSet(ids[..i]), changes)
      invariant Walked(changes) && Gone(changes, ids[..i])
    {
      IdsBefore(ids, i);
      var id := ids[i];
      if id in after {
        assert after.Keys + IdSet(ids[..i]) + {id} == after.Keys + IdSet(ids[..i]);
        StillGone(changes, ids, i);
      } else {
        RemovedTells(before, after, id);
        PartGrows(before, after, after.Keys + IdSet(ids[..i]), changes, id, Some(Removed(before[id])));
        NextGone(changes, ids, i, Removed(before[id]));
        WalkGrows(changes, Removed(before[id]));
        changes := changes + [Removed(before[id])];
      }
      assert after.Keys + IdSet(ids[..i]) + {id} == after.Keys + IdSet(ids[..i + 1]);
    }
    AllIds(ids, before.Keys);
    AllSeen(before, after, after.Keys + IdSet(ids[..|ids|]), changes);
  }

  ghost function IdSet(ids: seq<Identity>): set<Identity> {
    set id | id in ids
  }

  lemma {:induction false} IdsBefore(ids: seq<Identity>, i: nat)
    requires i <= |ids| && forall j, k | 0 <= j < k < |ids| :: IdLess(ids[j], ids[k])
    ensures IdSet([]) == {} && ids[..0] == []
    ensures i < |ids| ==> ids[i] !in IdSet(ids[..i]) && IdSet(ids[..i + 1]) == IdSet(ids[..i]) + {ids[i]}
  {
    hide IdLess;
    if i < |ids| {
      TakeOneMore(ids, i);
      forall j | 0 <= j < i
        ensures ids[..i][j] != ids[i]
      {
        IdOrder(ids[j], ids[i]);
      }
    }
  }

  lemma {:induction false} NotRemoved(before: ItemSet, after: ItemSet, id: Identity, c: Change)
    requires id in after && IdOf(c) == id && Tells(before, after, c)
    ensures !c.Removed?
  {
  }

  lemma {:induction false} StillPassed(changes: seq<Change>, ids: seq<Identity>, i: nat)
    requires i < |ids| && Passed(changes, ids[..i], false)
    ensures Passed(changes, ids[..i + 1], false)
  {
    TakeOneMore(ids, i);
  }

  lemma {:induction false} AllIds(ids: seq<Identity>, all: set<Identity>)
    requires forall id :: id in ids <==> id in all
    ensures IdSet(ids[..|ids|]) == all
  {
    assert ids[..|ids|] == ids;
  }

  lemma {:induction false} AllPassed(changes: seq<Change>, ids: seq<Identity>, all: set<Identity>)
    requires Passed(changes, ids[..|ids|], false) && forall id :: id in ids <==> id in all
    ensures IdSet(ids[..|ids|]) == all && forall c | c in changes :: !c.Removed?
  {
    AllIds(ids, all);
  }

  /** The removals found so far are of identities already passed. */
  ghost predicate Gone(changes: seq<Change>, ids: seq<Identity>) {
    forall c | c in changes && c.Removed? :: IdOf(c) in ids
  }

  lemma {:induction false} GoneNone(changes: seq<Change>, ids: seq<Identity>, after: ItemSet)
    requires forall c | c in changes :: !c.Removed?
    ensures Gone(changes, ids[..0]) && after.Keys + IdSet(ids[..0]) == after.Keys
  {
  }

  lemma {:induction false} StillGone(changes: seq<Change>, ids: seq<Identity>, i: nat)
    requires i < |ids| && Gone(changes, ids[..i])
    ensures Gone(changes, ids[..i + 1])
  {
    TakeOneMore(ids, i);
  }

  lemma {:induction false} NextGone(changes: seq<Change>, ids: seq<Identity>, i: nat, c: Change)
    requires i < |ids| && forall j, k | 0 <= j < k < |ids| :: IdLess(ids[j], ids[k])
    requires Gone(changes, ids[..i]) && IdOf(c) == ids[i] && c.Removed?
    ensures forall d | d in changes :: Earlier(d, c)
    ensures Gone(changes + [c], ids[..i + 1])
  {
    hide IdLess, IdOf;
    TakeOneMore(ids, i);
    forall d | d in changes
      ensures Earlier(d, c)
    {
      if d.Removed? {
        var j :| 0 <= j < i && ids[..i][j] == IdOf(d);
      }
    }
  }

  /** The order of the list: by kind, label and text, and where these tie as the changes are found. */
  predicate Follows(a: Change, b: Change, render: Change -> string) {
    ChangeLess(a, b, render) || (!ChangeLess(b, a, render) && Earlier(a, b))
  }

  ghost predicate Listed(changes: seq<Change>, render: Change -> string) {
    forall i, j | 0 <= i < j < |changes| :: Follows(changes[i], changes[j], render)
  }

  /** The one list of changes there is, as `DiffIsOneList` says. */
  method Compute(before: ItemSet, after: ItemSet, render: Change -> string) returns (changes: seq<Change>)
    ensures IsDiff(before, after, changes) && Listed(changes, render)
    ensures Sorted(changes, (a: Change, b: Change) => ChangeLess(a, b, render))
  {
    hide *;
    var kept := CompareKept(before, after);
    changes := CompareGone(before, after, kept);
    SortingKeeps(before, after, changes, render);
    SortingLists(changes, render);
    changes := SortChanges(changes, render);
  }

  /** A stable sort leaves ties as they were found. */
  lemma {:induction false} SortingLists(changes: seq<Change>, render: Change -> string)
    requires Walked(changes)
    ensures Listed(SortChanges(changes, render), render)
  {
    hide ChangeLess, Earlier;
    var less := (a: Change, b: Change) => ChangeLess(a, b, render);
    ChangeOrder(render);
    SortSorts(changes, less);
    SortStable(changes, less);
    var out := SortChanges(changes, render);
    forall i, j | 0 <= i < j < |out|
      ensures Follows(out[i], out[j], render)
    {
      assert !less(out[j], out[i]) && (less(out[i], out[j]) || Before(changes, out[i], out[j]));
    }
  }

  lemma {:induction false} FollowsOneWay(a: Change, b: Change, render: Change -> string)
    ensures Follows(a, b, render) ==> !Follows(b, a, render)
  {
    hide ChangeLess, IdLess;
    ChangeOrder(render);
    var less := (x: Change, y: Change) => ChangeLess(x, y, render);
    assert less(a, b) ==> !less(b, a);
    assert less(b, a) ==> !less(a, b);
    IdOrder(IdOf(a), IdOf(b));
  }

  /** One comparison of attributes, and one list of what differs. */
  lemma {:induction false} AttrDiffIsOneList(
      before: map<string, Attr>, after: map<string, Attr>, one: seq<AttrChange>, two: seq<AttrChange>)
    requires AttrDiff(before, after, one) && AttrDiff(before, after, two)
    ensures one == two
  {
    hide Less, SameValue;
    var precedes := (a: AttrChange, b: AttrChange) => Less(a.name, b.name);
    forall a: AttrChange, b: AttrChange
      ensures precedes(a, b) ==> !precedes(b, a)
    {
      LessFacts(a.name, b.name, "");
    }
    forall c
      ensures c in one <==> c in two
    {
      InAttrDiff(before, after, one, c);
      InAttrDiff(before, after, two, c);
    }
    OneList(one, two, precedes);
  }

  lemma {:induction false} TellsOne(before: ItemSet, after: ItemSet, c: Change, d: Change)
    requires Tells(before, after, c) && Tells(before, after, d) && IdOf(c) == IdOf(d)
    ensures c == d
  {
    hide AttrDiff;
    if c.Modified? && d.Modified? {
      AttrDiffIsOneList(before[IdOf(c)].attrs, after[IdOf(c)].attrs, c.attrs, d.attrs);
    }
  }

  lemma {:induction false} DiffHolds(before: ItemSet, after: ItemSet, one: seq<Change>, two: seq<Change>, c: Change)
    requires IsDiff(before, after, one) && IsDiff(before, after, two) && c in one
    ensures c in two
  {
    hide Tells, Touched, IdOf;
    TellsTouched(before, after, c);
    var d :| d in two && IdOf(d) == IdOf(c);
    TellsOne(before, after, c, d);
  }

  /** Two versions have one list of changes: whatever is complete, true and in this order is it. */
  lemma {:induction false} DiffIsOneList(
      before: ItemSet, after: ItemSet, one: seq<Change>, two: seq<Change>, render: Change -> string)
    requires IsDiff(before, after, one) && IsDiff(before, after, two)
    requires Listed(one, render) && Listed(two, render)
    ensures one == two
  {
    hide Follows, IsDiff;
    var precedes := (a: Change, b: Change) => Follows(a, b, render);
    forall a: Change, b: Change
      ensures precedes(a, b) ==> !precedes(b, a)
    {
      FollowsOneWay(a, b, render);
    }
    forall c
      ensures c in one <==> c in two
    {
      if c in one {
        DiffHolds(before, after, one, two, c);
      }
      if c in two {
        DiffHolds(before, after, two, one, c);
      }
    }
    OneList(one, two, precedes);
  }

  lemma {:induction false} NothingSeen(before: ItemSet, after: ItemSet)
    ensures PartDiff(before, after, {}, [])
    ensures Walked([]) && Passed([], [], false)
  {
  }

  lemma {:induction false} RemovedTells(before: ItemSet, after: ItemSet, id: Identity)
    requires id in before && id !in after
    ensures IdOf(Removed(before[id])) == id && Tells(before, after, Removed(before[id]))
  {
    assert IdentityOf(before[id]) == id;
  }

  lemma {:induction false} AllSeen(before: ItemSet, after: ItemSet, seen: set<Identity>, changes: seq<Change>)
    requires PartDiff(before, after, seen, changes) && before.Keys + after.Keys <= seen
    ensures IsDiff(before, after, changes)
  {
  }

  // ----- a diff is a patch -----

  function PatchAttr(attrs: map<string, Attr>, c: AttrChange): map<string, Attr> {
    if c.after.Some? then attrs[c.name := c.after.value] else attrs - {c.name}
  }

  function PatchAttrs(attrs: map<string, Attr>, changes: seq<AttrChange>): map<string, Attr> {
    if changes == [] then attrs
    else PatchAttr(PatchAttrs(attrs, changes[..|changes| - 1]), changes[|changes| - 1])
  }

  function PatchItem(items: map<Identity, Item>, c: Change): map<Identity, Item> {
    match c
    case Added(item) => items[IdentityOf(item) := item]
    case Removed(item) => items - {IdentityOf(item)}
    case Modified(kind, key, title, attrs) =>
      var id := Identity(kind, key);
      if id in items then items[id := Item(kind, key, title, PatchAttrs(items[id].attrs, attrs))] else items
  }

  function Patch(items: map<Identity, Item>, changes: seq<Change>): map<Identity, Item> {
    if changes == [] then items
    else PatchItem(Patch(items, changes[..|changes| - 1]), changes[|changes| - 1])
  }

  lemma {:induction false} PatchOneAttr(attrs: map<string, Attr>, c: AttrChange, name: string)
    ensures Get(PatchAttr(attrs, c), name) == if c.name == name then c.after else Get(attrs, name)
  {
  }

  lemma {:induction false} LastNameIsNew(changes: seq<AttrChange>)
    requires changes != [] && NamesAscend(changes)
    ensures var init, last := changes[..|changes| - 1], changes[|changes| - 1];
            && NamesAscend(init) && !Names(init, last.name)
            && (forall c :: c in changes <==> c in init || c == last)
            && (forall name :: Names(changes, name) <==> Names(init, name) || name == last.name)
  {
    hide Less;
    var init, last := changes[..|changes| - 1], changes[|changes| - 1];
    assert changes == init + [last];
    NamesGrow(init, last);
    LessIrreflexive(last.name);
    forall c | c in init
      ensures c.name != last.name
    {
      var i :| 0 <= i < |init| && init[i] == c;
      assert Less(changes[i].name, last.name);
    }
  }

  lemma {:induction false} PatchAttrsAt(attrs: map<string, Attr>, changes: seq<AttrChange>, name: string)
    requires NamesAscend(changes)
    ensures !Names(changes, name) ==> Get(PatchAttrs(attrs, changes), name) == Get(attrs, name)
    ensures forall c | c in changes && c.name == name :: Get(PatchAttrs(attrs, changes), name) == c.after
  {
    hide NamesAscend, Get, PatchAttr;
    if changes != [] {
      var init, last := changes[..|changes| - 1], changes[|changes| - 1];
      LastNameIsNew(changes);
      PatchAttrsAt(attrs, init, name);
      PatchOneAttr(PatchAttrs(attrs, init), last, name);
      if last.name == name {
        assert forall c | c in init :: c.name != name;
      }
    }
  }

  /** Patching one item's attributes gives the new version's, up to what counts as the same. */
  lemma {:induction false} AttrsPatched(before: map<string, Attr>, after: map<string, Attr>, changes: seq<AttrChange>)
    requires AttrDiff(before, after, changes)
    ensures SameAttrs(PatchAttrs(before, changes), after)
    ensures forall c | c in changes :: Get(PatchAttrs(before, changes), c.name) == Get(after, c.name)
  {
    hide SameValue, NamesAscend;
    forall name: string
      ensures SameValue(Get(PatchAttrs(before, changes), name), Get(after, name))
    {
      PatchAttrsAt(before, changes, name);
      SameItself(Get(after, name));
      if Names(changes, name) {
        var c :| c in changes && c.name == name;
        assert c.after == Get(after, name);
      }
    }
    forall c | c in changes
      ensures Get(PatchAttrs(before, changes), c.name) == Get(after, c.name)
    {
      PatchAttrsAt(before, changes, c.name);
    }
  }

  lemma {:induction false} SameItself(a: Option<Attr>)
    ensures SameValue(a, a)
  {
  }

  /** Two versions agree on an item. */
  ghost predicate Agree(a: map<Identity, Item>, b: map<Identity, Item>, id: Identity) {
    (id in a <==> id in b) && (id in a ==> a[id] == b[id])
  }

  /** A change acts on its own item, and looks at no other. */
  lemma {:induction false} PatchOneItem(a: map<Identity, Item>, b: map<Identity, Item>, c: Change, id: Identity)
    requires Agree(a, b, id)
    ensures Agree(PatchItem(a, c), PatchItem(b, c), id)
    ensures id != IdOf(c) ==> Agree(PatchItem(a, c), a, id)
  {
    hide PatchAttrs;
  }

  lemma {:induction false} LastIdIsNew(changes: seq<Change>)
    requires changes != [] && IdsDistinct(changes)
    ensures var init, last := changes[..|changes| - 1], changes[|changes| - 1];
            && IdsDistinct(init) && !Mentions(init, IdOf(last))
            && (forall c :: c in changes <==> c in init || c == last)
            && (forall id :: Mentions(changes, id) <==> Mentions(init, id) || id == IdOf(last))
  {
    hide IdOf;
    var init, last := changes[..|changes| - 1], changes[|changes| - 1];
    assert changes == init + [last];
    forall c | c in init
      ensures IdOf(c) != IdOf(last)
    {
      var i :| 0 <= i < |init| && init[i] == c;
      assert changes[i] == c;
    }
    assert last in changes;
    forall id | Mentions(init, id)
      ensures Mentions(changes, id)
    {
      var c :| c in init && IdOf(c) == id;
      assert c in changes;
    }
  }

  lemma {:induction false} PatchAt(items: map<Identity, Item>, changes: seq<Change>, id: Identity)
    requires IdsDistinct(changes)
    ensures !Mentions(changes, id) ==> Agree(Patch(items, changes), items, id)
    ensures forall c | c in changes && IdOf(c) == id :: Agree(Patch(items, changes), PatchItem(items, c), id)
  {
    hide PatchItem, Mentions, IdsDistinct, IdOf;
    if changes != [] {
      var init, last := changes[..|changes| - 1], changes[|changes| - 1];
      LastIdIsNew(changes);
      PatchAt(items, init, id);
      if IdOf(last) == id {
        PatchOneItem(Patch(items, init), items, last, id);
        NotMentioned(init, id);
      } else {
        PatchOneItem(Patch(items, init), Patch(items, init), last, id);
      }
    }
  }

  lemma {:induction false} NotMentioned(changes: seq<Change>, id: Identity)
    requires !Mentions(changes, id)
    ensures forall c | c in changes :: IdOf(c) != id
  {
  }

  /** Applying a diff to the old version gives exactly the new version's identities, with every
      attribute the same design fact, and the new name of every item the diff mentions. */
  lemma {:induction false} DiffIsPatch(before: ItemSet, after: ItemSet, changes: seq<Change>)
    requires IsDiff(before, after, changes)
    ensures var now := Patch(before, changes);
            && now.Keys == after.Keys
            && (forall id | id in after :: SameAttrs(now[id].attrs, after[id].attrs) && IdentityOf(now[id]) == id)
            && (forall id | id in after && Mentions(changes, id) :: now[id].title == after[id].title)
            && (forall id | id in after && !Mentions(changes, id) :: id in before && now[id] == before[id])
  {
    hide PatchAttrs, SameAttrs, AttrDiff, Patch;
    forall id
      ensures var now := Patch(before, changes);
              && (id in now <==> id in after)
              && (id in after ==> SameAttrs(now[id].attrs, after[id].attrs) && IdentityOf(now[id]) == id)
              && (id in after && Mentions(changes, id) ==> now[id].title == after[id].title)
              && (id in after && !Mentions(changes, id) ==> id in before && now[id] == before[id])
    {
      PatchAt(before, changes, id);
      if Mentions(changes, id) {
        var c :| c in changes && IdOf(c) == id;
        ChangePatches(before, after, c);
      } else {
        assert !Touched(before, after, id);
        assert id in before ==> IdentityOf(before[id]) == id;
      }
    }
  }

  lemma {:induction false} ChangePatches(before: ItemSet, after: ItemSet, c: Change)
    requires Tells(before, after, c)
    ensures var id, now := IdOf(c), PatchItem(before, c);
            && (id in now <==> id in after)
            && (id in after ==>
                  && SameAttrs(now[id].attrs, after[id].attrs)
                  && now[id].title == after[id].title && IdentityOf(now[id]) == id)
  {
    hide AttrDiff, PatchAttrs;
    match c
    case Added(item) => SameAttrsItself(item.attrs);
    case Removed(item) =>
    case Modified(kind, key, title, attrs) =>
      var id := Identity(kind, key);
      AttrsPatched(before[id].attrs, after[id].attrs, attrs);
  }

  lemma {:induction false} SameAttrsItself(attrs: map<string, Attr>)
    ensures SameAttrs(attrs, attrs)
  {
    forall name: string {
      SameItself(Get(attrs, name));
    }
  }

  // ----- the other direction -----

  /** The two changes undo each other; a modified item carries the name of the version it leads to. */
  ghost predicate Mirrors(c: Change, d: Change) {
    match (c, d)
    case (Added(x), Removed(y)) => x == y
    case (Removed(x), Added(y)) => x == y
    case (Modified(k1, y1, _, attrs1), Modified(k2, y2, _, attrs2)) =>
      k1 == k2 && y1 == y2 && forall name: string, old0, new0 ::
        AttrChange(name, old0, new0) in attrs1 <==> AttrChange(name, new0, old0) in attrs2
    case _ => false
  }

  /** Text is compared as it stands, numbers and both coordinates of a point to within a millionth;
      values of two kinds differ. */
  lemma {:induction false} SameAsExactly(a: Attr, b: Attr)
    ensures SameAs(a, b) <==>
            || (a.Text? && b.Text? && a.text == b.text)
            || (a.Num? && b.Num? && -0.000001 < a.number - b.number < 0.000001)
            || (a.Point? && b.Point? && -0.000001 < a.x - b.x < 0.000001 && -0.000001 < a.y - b.y < 0.000001)
  {
  }

  lemma {:induction false} SameAsSymmetric(a: Attr, b: Attr)
    ensures SameAs(a, b) <==> SameAs(b, a)
  {
  }

  lemma {:induction false} SameValueSymmetric(a: Option<Attr>, b: Option<Attr>)
    ensures SameValue(a, b) <==> SameValue(b, a)
  {
  }

  lemma {:induction false} AttrDiffMirrors(
      before: map<string, Attr>, after: map<string, Attr>, there: seq<AttrChange>, back: seq<AttrChange>)
    requires AttrDiff(before, after, there) && AttrDiff(after, before, back)
    ensures forall name: string, old0, new0 :: AttrChange(name, old0, new0) in there <==>
              AttrChange(name, new0, old0) in back
  {
    hide SameValue, NamesAscend;
    forall name: string, old0, new0
      ensures AttrChange(name, old0, new0) in there <==> AttrChange(name, new0, old0) in back
    {
      InAttrDiff(before, after, there, AttrChange(name, old0, new0));
      InAttrDiff(after, before, back, AttrChange(name, new0, old0));
      SameValueSymmetric(old0, new0);
    }
  }

  lemma {:induction false} InAttrDiff(
      before: map<string, Attr>, after: map<string, Attr>, changes: seq<AttrChange>, c: AttrChange)
    requires AttrDiff(before, after, changes)
    ensures c in changes <==>
              c == AttrChange(c.name, Get(before, c.name), Get(after, c.name)) && !SameValue(c.before, c.after)
  {
    hide SameValue, NamesAscend;
    if c == AttrChange(c.name, Get(before, c.name), Get(after, c.name)) && !SameValue(c.before, c.after) {
      var d :| d in changes && d.name == c.name;
      assert d == c;
    }
  }

  lemma {:induction false} MirrorOf(before: ItemSet, after: ItemSet, there: seq<Change>, back: seq<Change>, c: Change)
    requires IsDiff(before, after, there) && IsDiff(after, before, back) && c in there
    ensures exists d :: d in back && IdOf(d) == IdOf(c) && Mirrors(c, d)
  {
    hide AttrDiff, SameAttrs, IdsDistinct;
    TouchedSymmetric(before, after, IdOf(c));
    TellsTouched(before, after, c);
    var d :| d in back && IdOf(d) == IdOf(c);
    assert Tells(before, after, c) && Tells(after, before, d);
    if c.Modified? {
      var id := IdOf(c);
      AttrDiffMirrors(before[id].attrs, after[id].attrs, c.attrs, d.attrs);
    }
  }

  lemma {:induction false} TouchedSymmetric(before: ItemSet, after: ItemSet, id: Identity)
    ensures Touched(before, after, id) <==> Touched(after, before, id)
  {
    hide SameValue;
    if id in before && id in after {
      forall name: string
        ensures SameValue(Get(before[id].attrs, name), Get(after[id].attrs, name)) <==>
                SameValue(Get(after[id].attrs, name), Get(before[id].attrs, name))
      {
        SameValueSymmetric(Get(before[id].attrs, name), Get(after[id].attrs, name));
      }
    }
  }

  lemma {:induction false} TellsTouched(before: ItemSet, after: ItemSet, c: Change)
    requires Tells(before, after, c)
    ensures Touched(before, after, IdOf(c))
  {
    hide AttrDiff, SameAttrs;
    if c.Modified? {
      NoAttrChanges(before[IdOf(c)].attrs, after[IdOf(c)].attrs, c.attrs);
    }
  }

  /** Comparing the other way round gives the inverse changes, item by item, and no others. */
  lemma {:induction false} DiffInverts(before: ItemSet, after: ItemSet, there: seq<Change>, back: seq<Change>)
    requires IsDiff(before, after, there) && IsDiff(after, before, back)
    ensures forall c | c in there :: exists d :: d in back && IdOf(d) == IdOf(c) && Mirrors(c, d)
    ensures forall d | d in back :: exists c :: c in there && IdOf(c) == IdOf(d) && Mirrors(d, c)
  {
    hide IsDiff, Mirrors;
    forall c | c in there
      ensures exists d :: d in back && IdOf(d) == IdOf(c) && Mirrors(c, d)
    {
      MirrorOf(before, after, there, back, c);
    }
    forall d | d in back
      ensures exists c :: c in there && IdOf(c) == IdOf(d) && Mirrors(d, c)
    {
      MirrorOf(after, before, back, there, d);
    }
  }

  // ----- what an empty diff means -----

  /** No change means the same identities with the same attributes; names are not compared. */
  lemma {:induction false} EmptyExactly(before: ItemSet, after: ItemSet, changes: seq<Change>)
    requires IsDiff(before, after, changes)
    ensures changes == [] <==> SameDesign(before, after)
  {
    hide AttrDiff, SameAttrs, Tells;
    if changes == [] {
      forall id
        ensures !Touched(before, after, id)
        ensures id in before <==> id in after
      {
        assert !Mentions(changes, id);
      }
    } else {
      assert changes[0] in changes;
      TellsTouched(before, after, changes[0]);
    }
  }

  /** Renaming an item and nothing else is invisible. */
  lemma {:induction false} RenameIsInvisible(items: ItemSet, id: Identity, title: string, changes: seq<Change>)
    requires id in items && IsDiff(items, Insert(items, items[id].(title := title)), changes)
    ensures changes == []
  {
    hide IsDiff, SameAttrs, Insert;
    assert IdentityOf(items[id]) == id;
    var renamed := Insert(items, items[id].(title := title));
    forall other | other in items
      ensures SameAttrs(items[other].attrs, renamed[other].attrs)
    {
      SameAttrsItself(items[other].attrs);
    }
    assert items.Keys == renamed.Keys;
    EmptyExactly(items, renamed, changes);
  }

  /** Two steps each too small to report add up to one that is reported. */
  lemma {:induction false} SameIsNotTransitive()
    ensures SameAs(Num(0.0), Num(0.0000009)) && SameAs(Num(0.0000009), Num(0.0000018)) &&
              !SameAs(Num(0.0), Num(0.0000018))
  {
    assert Abs(0.0 - 0.0000009) == 0.0000009;
    assert Abs(0.0 - 0.0000018) == 0.0000018;
  }

  // ----- several documents -----

  /** Fold another diff in, keeping the order, and the order of what ties. */
  method Extend(changes: seq<Change>, others: seq<Change>, render: Change -> string) returns (out: seq<Change>)
    ensures multiset(out) == multiset(changes) + multiset(others)
    ensures Sorted(out, (a: Change, b: Change) => ChangeLess(a, b, render))
    ensures Stable(changes + others, out, (a: Change, b: Change) => ChangeLess(a, b, render))
  {
    var all := changes + others;
    ChangeOrder(render);
    SortStable(all, (a: Change, b: Change) => ChangeLess(a, b, render));
    SortKeeps(all, (a: Change, b: Change) => ChangeLess(a, b, render));
    SortSorts(all, (a: Change, b: Change) => ChangeLess(a, b, render));
    out := SortChanges(all, render);
  }
}
