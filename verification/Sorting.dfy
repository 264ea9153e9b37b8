/** Stable sorting of a sequence by a strict order, as `sort_by` does it. */
module Sorting {

  /** A strict weak order: what a comparison function must be for sorting to mean something. */
  ghost predicate StrictOrder<T(!new)>(less: (T, T) -> bool) {
    && (forall a, b :: less(a, b) ==> !less(b, a))
    && (forall a, b, c :: !less(b, a) && !less(c, b) ==> !less(c, a))
  }

  function InsertSorted<T>(sorted: seq<T>, x: T, less: (T, T) -> bool): seq<T> {
    if sorted == [] then [x]
    else if less(x, sorted[0]) then [x] + sorted
    else [sorted[0]] + InsertSorted(sorted[1..], x, less)
  }

  function Sort<T>(s: seq<T>, less: (T, T) -> bool): seq<T> {
    if s == [] then [] else InsertSorted(Sort(s[..|s| - 1], less), s[|s| - 1], less)
  }

  ghost predicate Sorted<T>(s: seq<T>, less: (T, T) -> bool) {
    forall i, j | 0 <= i < j < |s| :: !less(s[j], s[i])
  }

  lemma {:induction false} InsertKeeps<T>(sorted: seq<T>, x: T, less: (T, T) -> bool)
    ensures multiset(InsertSorted(sorted, x, less)) == multiset(sorted) + multiset{x}
  {
    if sorted != [] && !less(x, sorted[0]) {
      InsertKeeps(sorted[1..], x, less);
      assert sorted == [sorted[0]] + sorted[1..];
    }
  }

  /** Sorting loses nothing and adds nothing. */
  lemma {:induction false} SortKeeps<T>(s: seq<T>, less: (T, T) -> bool)
    ensures multiset(Sort(s, less)) == multiset(s)
    ensures |Sort(s, less)| == |s|
  {
    if s != [] {
      SortKeeps(s[..|s| - 1], less);
      InsertKeeps(Sort(s[..|s| - 1], less), s[|s| - 1], less);
      assert s == s[..|s| - 1] + [s[|s| - 1]];
    }
    assert |Sort(s, less)| == |multiset(Sort(s, less))|;
    assert |s| == |multiset(s)|;
  }

  lemma {:induction false} InsertSorts<T(!new)>(sorted: seq<T>, x: T, less: (T, T) -> bool)
    requires StrictOrder(less) && Sorted(sorted, less)
    ensures Sorted(InsertSorted(sorted, x, less), less)
  {
    if sorted != [] && !less(x, sorted[0]) {
      InsertSorts(sorted[1..], x, less);
      var rest := InsertSorted(sorted[1..], x, less);
      InsertKeeps(sorted[1..], x, less);
      forall j | 0 <= j < |rest|
        ensures !less(rest[j], sorted[0])
      {
        assert rest[j] in multiset(rest);
        assert rest[j] == x || rest[j] in sorted[1..];
      }
    }
  }

  lemma {:induction false} SortSorts<T(!new)>(s: seq<T>, less: (T, T) -> bool)
    requires StrictOrder(less)
    ensures Sorted(Sort(s, less), less)
  {
    if s != [] {
      SortSorts(s[..|s| - 1], less);
      InsertSorts(Sort(s[..|s| - 1], less), s[|s| - 1], less);
    }
  }

  lemma {:induction false} SameMembers<T>(s: seq<T>, less: (T, T) -> bool)
    ensures forall x :: x in Sort(s, less) <==> x in s
  {
    SortKeeps(s, less);
    assert forall x :: x in Sort(s, less) <==> x in multiset(Sort(s, less));
    assert forall x :: x in s <==> x in multiset(s);
  }

  ghost predicate NoRepeats<T>(s: seq<T>) {
    forall i, j | 0 <= i < j < |s| :: s[i] != s[j]
  }

  lemma {:induction false} NoRepeatsByCount<T>(s: seq<T>)
    ensures NoRepeats(s) <==> forall x :: multiset(s)[x] <= 1
  {
    if s != [] {
      var init, last := s[..|s| - 1], s[|s| - 1];
      assert s == init + [last];
      NoRepeatsByCount(init);
      if last in init {
        assert multiset(s)[last] >= 2;
      } else {
        assert multiset(init)[last] == 0;
        assert forall i | 0 <= i < |init| :: s[i] == init[i] && init[i] in init;
        assert NoRepeats(s) <==> NoRepeats(init);
        assert forall x :: multiset(s)[x] == multiset(init)[x] + (if x == last then 1 else 0);
      }
    }
  }

  lemma {:induction false} SortDistinct<T>(s: seq<T>, less: (T, T) -> bool)
    requires NoRepeats(s)
    ensures NoRepeats(Sort(s, less))
  {
    SortKeeps(s, less);
    NoRepeatsByCount(s);
    NoRepeatsByCount(Sort(s, less));
  }

  /** A listing without repeats is as long as the set it lists. */
  lemma {:induction false} ListingLength<T>(s: seq<T>)
    requires NoRepeats(s)
    ensures |set x | x in s| == |s|
  {
    if s == [] {
      assert (set x | x in s) == {};
    } else {
      var init, last := s[..|s| - 1], s[|s| - 1];
      ListingLength(init);
      assert s == init + [last];
      assert (set x | x in s) == (set x | x in init) + {last};
      assert last !in init;
    }
  }

  // ----- what ties keep -----

  ghost predicate Before<T>(s: seq<T>, x: T, y: T) {
    exists i, j :: 0 <= i < j < |s| && s[i] == x && s[j] == y
  }

  /** What is earlier in `out` is less, or was earlier in `s`. */
  ghost predicate Stable<T>(s: seq<T>, out: seq<T>, less: (T, T) -> bool) {
    forall i, j | 0 <= i < j < |out| :: less(out[i], out[j]) || Before(s, out[i], out[j])
  }

  lemma {:induction false} BeforeGrows<T>(s: seq<T>, last: T, x: T, y: T)
    ensures Before(s, x, y) ==> Before(s + [last], x, y)
    ensures x in s ==> Before(s + [last], x, last)
  {
    var more := s + [last];
    if i, j :| 0 <= i < j < |s| && s[i] == x && s[j] == y {
      assert more[i] == x && more[j] == y;
    }
    if x in s {
      var i :| 0 <= i < |s| && s[i] == x;
      assert more[i] == x && more[|s|] == last;
    }
  }

  lemma {:induction false} InsertStable<T(!new)>(s: seq<T>, sorted: seq<T>, x: T, less: (T, T) -> bool)
    requires StrictOrder(less) && Sorted(sorted, less) && Stable(s, sorted, less)
    requires forall e | e in sorted :: e in s
    ensures Stable(s + [x], InsertSorted(sorted, x, less), less)
  {
    hide Before;
    var out := InsertSorted(sorted, x, less);
    if sorted == [] {
    } else if less(x, sorted[0]) {
      forall i, j | 0 <= i < j < |out|
        ensures less(out[i], out[j]) || Before(s + [x], out[i], out[j])
      {
        if i == 0 {
          assert out[j] == sorted[j - 1] && (j == 1 || !less(sorted[j - 1], sorted[0]));
        } else {
          assert out[i] == sorted[i - 1] && out[j] == sorted[j - 1];
          BeforeGrows(s, x, out[i], out[j]);
        }
      }
    } else {
      var first, rest := sorted[0], sorted[1..];
      InsertStable(s, rest, x, less);
      InsertKeeps(rest, x, less);
      var after := InsertSorted(rest, x, less);
      forall j | 0 <= j < |after|
        ensures less(first, after[j]) || Before(s + [x], first, after[j])
      {
        assert after[j] in multiset(after);
        BeforeGrows(s, x, first, after[j]);
        if after[j] != x {
          var k :| 0 <= k < |rest| && rest[k] == after[j];
          assert sorted[k + 1] == after[j];
        }
      }
    }
  }

  /** Elements that tie stay in the order they came in. */
  lemma {:induction false} SortStable<T(!new)>(s: seq<T>, less: (T, T) -> bool)
    requires StrictOrder(less)
    ensures Stable(s, Sort(s, less), less)
  {
    if s != [] {
      var init, last := s[..|s| - 1], s[|s| - 1];
      assert s == init + [last];
      SortStable(init, less);
      SortSorts(init, less);
      SameMembers(init, less);
      InsertStable(init, Sort(init, less), last, less);
    }
  }

  // ----- lists in one order -----

  ghost predicate InOrderOf<T>(s: seq<T>, precedes: (T, T) -> bool) {
    forall i, j | 0 <= i < j < |s| :: precedes(s[i], s[j])
  }

  lemma {:induction false} FirstIsMember<T>(s: seq<T>)
    ensures s != [] ==> s[0] in s
  {
  }

  /** Two lists with the same members in one order are one list. */
  lemma {:induction false} OneList<T(!new)>(a: seq<T>, b: seq<T>, precedes: (T, T) -> bool)
    requires forall x, y :: precedes(x, y) ==> !precedes(y, x)
    requires InOrderOf(a, precedes) && InOrderOf(b, precedes) && forall x :: x in a <==> x in b
    ensures a == b
  {
    FirstIsMember(a);
    FirstIsMember(b);
    if a != [] {
      SameFirst(a, b, precedes);
      forall x
        ensures x in a[1..] <==> x in b[1..]
      {
        RestOf(a, precedes, x);
        RestOf(b, precedes, x);
      }
      OneList(a[1..], b[1..], precedes);
      assert a == [a[0]] + a[1..] && b == [b[0]] + b[1..];
    }
  }

  lemma {:induction false} SameFirst<T(!new)>(a: seq<T>, b: seq<T>, precedes: (T, T) -> bool)
    requires forall x, y :: precedes(x, y) ==> !precedes(y, x)
    requires InOrderOf(a, precedes) && InOrderOf(b, precedes)
    requires a != [] && b != [] && a[0] in b && b[0] in a
    ensures a[0] == b[0]
  {
    var i :| 0 <= i < |b| && b[i] == a[0];
    var j :| 0 <= j < |a| && a[j] == b[0];
    assert i > 0 ==> precedes(b[0], b[i]);
    assert j > 0 ==> precedes(a[0], a[j]);
  }

  /** What is left after the first element does not hold it again. */
  lemma {:induction false} RestOf<T(!new)>(s: seq<T>, precedes: (T, T) -> bool, x: T)
    requires forall y, z :: precedes(y, z) ==> !precedes(z, y)
    requires InOrderOf(s, precedes) && s != []
    ensures x in s[1..] <==> x in s && x != s[0]
  {
    if x in s[1..] {
      var i :| 0 <= i < |s[1..]| && s[1..][i] == x;
      assert precedes(s[0], s[i + 1]);
    }
    if x in s && x != s[0] {
      var i :| 0 <= i < |s| && s[i] == x;
      assert s[1..][i - 1] == x;
    }
  }
}
