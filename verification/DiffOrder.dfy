/** The order the changes of a diff are listed in, against the order its documentation gives. */
module DiffOrders {
  import opened Wrappers
  import opened Text
  import opened Sorting
  import opened Items
  import opened Diffs

  // ----- the text of a change -----

  function ShowAttr(a: Attr, number: real -> string): string {
    match a
    case Text(text) => text
    case Num(n) => number(n)
    case Point(x, y) => "(" + number(x) + "," + number(y) + ")"
  }

  function RenderAttr(c: AttrChange, number: real -> string): string {
    match (c.before, c.after)
    case (Some(Num(m)), Some(Num(n))) => c.name + ": " + (if n - m >= 0.0 then "+" else "-") + number(Abs(n - m))
    case (Some(before), Some(after)) =>
      (if c.name == "at" && before.Point? && after.Point? then "moved" else c.name) +
      ": " + ShowAttr(before, number) + " -> " + ShowAttr(after, number)
    case (None, Some(after)) => c.name + ": +" + ShowAttr(after, number)
    case (Some(before), None) => c.name + ": -" + ShowAttr(before, number)
    case (None, None) => c.name
  }

  function RenderAttrs(attrs: seq<AttrChange>, number: real -> string): string {
    if attrs == [] then ""
    else if |attrs| == 1 then RenderAttr(attrs[0], number)
    else RenderAttr(attrs[0], number) + ", " + RenderAttrs(attrs[1..], number)
  }

  function Render(c: Change, number: real -> string): string {
    match c
    case Added(item) => item.kind + " " + item.title + " added"
    case Removed(item) => item.kind + " " + item.title + " removed"
    case Modified(_, _, title, attrs) => title + " " + RenderAttrs(attrs, number)
  }

  function Renderer(number: real -> string): Change -> string {
    (c: Change) => Render(c, number)
  }

  /** The comparison of changes, given how numbers are written. */
  predicate RenderedLess(a: Change, b: Change, number: real -> string) {
    ChangeLess(a, b, Renderer(number))
  }

  /** The order the documentation gives: kind, then label, then key. */
  predicate DocumentedLess(a: Change, b: Change) {
    if IdOf(a).kind != IdOf(b).kind then Less(IdOf(a).kind, IdOf(b).kind)
    else if TitleOf(a) != TitleOf(b) then Less(TitleOf(a), TitleOf(b))
    else Less(IdOf(a).key, IdOf(b).key)
  }

  lemma {:induction false} LessAfter(p: string, a: string, b: string)
    ensures Less(p + a, p + b) <==> Less(a, b)
  {
    if p == "" {
      assert p + a == a && p + b == b;
    } else {
      assert (p + a)[1..] == p[1..] + a && (p + b)[1..] == p[1..] + b;
      LessAfter(p[1..], a, b);
    }
  }

  /** What the rendered text says of two changes of one kind and label: two additions, or two removals,
      are not told apart, an addition comes before a removal, and two modifications go by what they say
      of the attributes.  The key plays no part. */
  lemma {:induction false} RenderDecides(a: Change, b: Change, number: real -> string)
    requires IdOf(a).kind == IdOf(b).kind && TitleOf(a) == TitleOf(b)
    ensures (a.Added? && b.Added?) || (a.Removed? && b.Removed?) ==> !RenderedLess(a, b, number)
    ensures a.Added? && b.Removed? ==> RenderedLess(a, b, number) && !RenderedLess(b, a, number)
    ensures a.Modified? && b.Modified? ==>
              (RenderedLess(a, b, number) <==> Less(RenderAttrs(a.attrs, number), RenderAttrs(b.attrs, number)))
  {
    hide RenderAttrs;
    LessIrreflexive(Render(a, number));
    if a.Modified? && b.Modified? {
      LessAfter(a.title + " ", RenderAttrs(a.attrs, number), RenderAttrs(b.attrs, number));
    }
    if a.Added? && b.Removed? {
      var p := IdOf(a).kind + " " + TitleOf(a) + " ";
      assert Render(a, number) == p + "added" && Render(b, number) == p + "removed";
      LessAfter(p, "added", "removed");
      LessAfter(p, "removed", "added");
      assert "added"[0] < "removed"[0];
    }
  }

  ghost predicate InDocumentedOrder(changes: seq<Change>) {
    forall i, j | 0 <= i < j < |changes| :: DocumentedLess(changes[i], changes[j])
  }

  predicate SameLabel(c: Change, d: Change) {
    IdOf(c).kind == IdOf(d).kind && TitleOf(c) == TitleOf(d)
  }

  /** A change with a later key is put before `c`: its text is less, or it is the same text and only `c` is
      a removal. */
  predicate Overtakes(d: Change, c: Change, number: real -> string) {
    || Less(Render(d, number), Render(c, number))
    || (Render(d, number) == Render(c, number) && c.Removed? && !d.Removed?)
  }

  /** No change of one kind and label is overtaken by one with a later key. */
  ghost predicate NoneOvertaken(changes: seq<Change>, number: real -> string) {
    forall c, d | c in changes && d in changes && SameLabel(c, d) && Less(IdOf(c).key, IdOf(d).key) ::
      !Overtakes(d, c, number)
  }

  lemma {:induction false} DocumentedOneWay(c: Change, d: Change)
    ensures DocumentedLess(c, d) ==> !DocumentedLess(d, c)
    ensures IdOf(c) != IdOf(d) && SameLabel(c, d) ==> Less(IdOf(c).key, IdOf(d).key) || Less(IdOf(d).key, IdOf(c).key)
  {
    hide Less;
    LessFacts(IdOf(c).kind, IdOf(d).kind, "");
    LessFacts(TitleOf(c), TitleOf(d), "");
    LessFacts(IdOf(c).key, IdOf(d).key, "");
  }

  /** Of two changes of one kind and label, the one with the later key is first when it overtakes, and
      only then. */
  lemma {:induction false} FollowsByKey(c: Change, d: Change, number: real -> string)
    requires SameLabel(c, d) && Less(IdOf(c).key, IdOf(d).key)
    ensures Follows(d, c, Renderer(number)) <==> Overtakes(d, c, number)
    ensures Follows(c, d, Renderer(number)) <==> !Overtakes(d, c, number)
  {
    hide Less, Render;
    LessFacts(Render(c, number), Render(d, number), "");
    LessFacts(IdOf(c).key, IdOf(d).key, "");
  }

  lemma {:induction false} FollowsByLabel(c: Change, d: Change, number: real -> string)
    requires !SameLabel(c, d)
    ensures Follows(c, d, Renderer(number)) <==> DocumentedLess(c, d)
  {
    hide Less, Render;
    LessFacts(IdOf(c).kind, IdOf(d).kind, "");
    LessFacts(TitleOf(c), TitleOf(d), "");
  }

  /** For all versions: the list of changes is in the documented order if and only if no change is
      overtaken by one of its kind and label with a later key. */
  lemma {:induction false} OrderedByKeyExactly(
      before: ItemSet, after: ItemSet, changes: seq<Change>, number: real -> string)
    requires IsDiff(before, after, changes) && Listed(changes, Renderer(number))
    ensures InDocumentedOrder(changes) <==> NoneOvertaken(changes, number)
  {
    hide Less, Follows, Tells, Touched, DocumentedLess, Overtakes;
    if NoneOvertaken(changes, number) {
      forall i, j | 0 <= i < j < |changes|
        ensures DocumentedLess(changes[i], changes[j])
      {
        assert Follows(changes[i], changes[j], Renderer(number));
        assert changes[i] in changes && changes[j] in changes;
        PairDocumented(changes[i], changes[j], number);
      }
    }
    if InDocumentedOrder(changes) {
      forall c, d | c in changes && d in changes && SameLabel(c, d) && Less(IdOf(c).key, IdOf(d).key)
        ensures !Overtakes(d, c, number)
      {
        var i :| 0 <= i < |changes| && changes[i] == c;
        var j :| 0 <= j < |changes| && changes[j] == d;
        KeysDocumented(c, d);
        DocumentedOneWay(c, d);
        assert i < j || i == j || DocumentedLess(d, c);
        FollowsByKey(c, d, number);
      }
    }
  }

  lemma {:induction false} KeysDocumented(c: Change, d: Change)
    requires SameLabel(c, d) && Less(IdOf(c).key, IdOf(d).key)
    ensures DocumentedLess(c, d) && c != d
  {
    LessFacts(IdOf(c).key, IdOf(d).key, "");
  }

  /** Two changes as listed, neither overtaking the other wrongly. */
  lemma {:induction false} PairDocumented(c: Change, d: Change, number: real -> string)
    requires Follows(c, d, Renderer(number)) && IdOf(c) != IdOf(d)
    requires SameLabel(c, d) && Less(IdOf(d).key, IdOf(c).key) ==> !Overtakes(c, d, number)
    ensures DocumentedLess(c, d)
  {
    hide Less, Follows, Overtakes;
    DocumentedOneWay(c, d);
    if !SameLabel(c, d) {
      FollowsByLabel(c, d, number);
    } else if Less(IdOf(d).key, IdOf(c).key) {
      FollowsByKey(d, c, number);
    }
  }

  /** Which pairs overtake.  Additions do not overtake one another, nor do removals; no removal overtakes
      an addition, every addition overtakes a removal, and modifications go by their attributes. */
  lemma {:induction false} OvertakesExactly(d: Change, c: Change, number: real -> string)
    requires SameLabel(c, d)
    ensures (c.Added? && d.Added?) || (c.Removed? && d.Removed?) ==> !Overtakes(d, c, number)
    ensures c.Added? && d.Removed? ==> !Overtakes(d, c, number)
    ensures c.Removed? && d.Added? ==> Overtakes(d, c, number)
    ensures c.Modified? && d.Modified? ==>
              (Overtakes(d, c, number) <==> Less(RenderAttrs(d.attrs, number), RenderAttrs(c.attrs, number)))
  {
    hide RenderAttrs, Less, Render;
    RenderDecides(c, d, number);
    RenderDecides(d, c, number);
    LessFacts(Render(c, number), Render(d, number), "");
    if c.Added? && d.Removed? {
      OtherText(c, d, number);
    }
  }

  lemma {:induction false} OtherText(c: Change, d: Change, number: real -> string)
    requires RenderedLess(c, d, number) && SameLabel(c, d)
    ensures Less(Render(c, number), Render(d, number))
  {
    hide Less, Render;
  }

  /** A document that is new, or gone, is listed as documented whatever its labels. */
  lemma {:induction false} WholeDocumentsInOrder(
      before: ItemSet, after: ItemSet, changes: seq<Change>, number: real -> string)
    requires IsDiff(before, after, changes) && Listed(changes, Renderer(number))
    requires before == map[] || after == map[]
    ensures InDocumentedOrder(changes)
  {
    hide Less, Overtakes, RenderAttrs, DocumentedLess, Follows, Touched, AttrDiff;
    forall c, d | c in changes && d in changes && SameLabel(c, d)
      ensures !Overtakes(d, c, number)
    {
      assert Tells(before, after, c) && Tells(before, after, d);
      OvertakesExactly(d, c, number);
    }
    OrderedByKeyExactly(before, after, changes, number);
  }

  const FIRST_KEY: Change := Modified("symbol", "k1", "R1", [AttrChange("value", Some(Text("2")), Some(Text("3")))])
  const SECOND_KEY: Change := Modified("symbol", "k2", "R1", [AttrChange("value", Some(Text("1")), Some(Text("3")))])

  /** Two symbols of one label: the one with the later key is listed first. */
  lemma {:induction false} KeyIsNotTheOrder(number: real -> string)
    ensures DocumentedLess(FIRST_KEY, SECOND_KEY) && RenderedLess(SECOND_KEY, FIRST_KEY, number)
    ensures SameLabel(FIRST_KEY, SECOND_KEY) && Overtakes(SECOND_KEY, FIRST_KEY, number)
    ensures SortChanges([FIRST_KEY, SECOND_KEY], Renderer(number)) == [SECOND_KEY, FIRST_KEY]
  {
    assert "k1"[1..] == "1" && "k2"[1..] == "2";
    var p, tail := "value: ", " -> 3";
    assert RenderAttrs(FIRST_KEY.attrs, number) == p + ("2" + tail);
    assert RenderAttrs(SECOND_KEY.attrs, number) == p + ("1" + tail);
    LessAfter(p, "1" + tail, "2" + tail);
    RenderDecides(SECOND_KEY, FIRST_KEY, number);
    hide Render, RenderAttrs, Less, ChangeLess;
    assert [FIRST_KEY, SECOND_KEY][..1] == [FIRST_KEY] && [FIRST_KEY][..0] == [];
    SortTwo(FIRST_KEY, SECOND_KEY, (a: Change, b: Change) => ChangeLess(a, b, Renderer(number)));
  }

  lemma {:induction false} SortTwo(a: Change, b: Change, less: (Change, Change) -> bool)
    requires less(b, a)
    ensures Sort([a, b], less) == [b, a]
  {
    assert [a, b][..1] == [a] && [a][..0] == [];
    assert Sort([a], less) == [a];
  }
}
