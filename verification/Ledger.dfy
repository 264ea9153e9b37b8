/** The idempotency ledger: one owner at a time for each operation key, over every order in which its
    callers' claims, completions and withdrawals can fall. */
module Ledgers {
  import opened Wrappers
  import opened Text
  import opened Sorting

  datatype Entry<T> = InFlight | Done(value: T)

  datatype Claim<T> = Fresh | Replay(value: T) | Busy

  datatype Ledger<T> = Ledger(entries: map<string, Entry<T>>, order: seq<string>)

  function KeySet(keys: seq<string>): set<string> {
    set id | id in keys
  }

  /** The queue lists the map's keys, each once. */
  ghost predicate Listed<T>(l: Ledger<T>) {
    NoRepeats(l.order) && l.entries.Keys == KeySet(l.order)
  }

  // ----- eviction -----

  predicate IsDone<T>(entries: map<string, Entry<T>>, id: string) {
    id in entries && entries[id].Done?
  }

  /** The queue without its `n` oldest completed keys. */
  function Without<T>(order: seq<string>, entries: map<string, Entry<T>>, n: nat): seq<string>
    decreases |order|
  {
    if n == 0 || order == [] then order
    else if IsDone(entries, order[0]) then Without(order[1..], entries, n - 1)
    else [order[0]] + Without(order[1..], entries, n)
  }

  function DoneKeys<T>(order: seq<string>, entries: map<string, Entry<T>>): seq<string> {
    if order == [] then []
    else (if IsDone(entries, order[0]) then [order[0]] else []) + DoneKeys(order[1..], entries)
  }

  function BusyKeys<T>(order: seq<string>, entries: map<string, Entry<T>>): seq<string> {
    if order == [] then []
    else (if IsDone(entries, order[0]) then [] else [order[0]]) + BusyKeys(order[1..], entries)
  }

  function Min(a: nat, b: nat): nat {
    if a < b then a else b
  }

  function Excess(size: nat, capacity: nat): nat {
    if size > capacity then size - capacity else 0
  }

  /** Exactly the oldest completed keys go, as many as are needed or as there are; the keys in flight
      stay, and what stays keeps its order. */
  lemma {:induction false} WithoutExactly<T>(order: seq<string>, entries: map<string, Entry<T>>, n: nat)
    ensures var k := Min(n, |DoneKeys(order, entries)|);
            && DoneKeys(Without(order, entries, n), entries) == DoneKeys(order, entries)[k..]
            && BusyKeys(Without(order, entries, n), entries) == BusyKeys(order, entries)
            && |Without(order, entries, n)| == |order| - k
    ensures forall id :: id in Without(order, entries, n) ==> id in order
    ensures NoRepeats(order) ==> NoRepeats(Without(order, entries, n))
    decreases |order|
  {
    hide IsDone;
    if n > 0 && order != [] {
      var first, rest := order[0], order[1..];
      HeadTail(order);
      if IsDone(entries, first) {
        WithoutExactly(rest, entries, n - 1);
      } else {
        WithoutExactly(rest, entries, n);
        var left := Without(rest, entries, n);
        HeadTail([first] + left);
        assert ([first] + left)[1..] == left;
        assert [] + DoneKeys(left, entries) == DoneKeys(left, entries);
        assert [] + DoneKeys(rest, entries) == DoneKeys(rest, entries);
      }
    }
  }

  lemma {:induction false} HeadTail(s: seq<string>)
    requires s != []
    ensures forall x :: x in s <==> x == s[0] || x in s[1..]
    ensures NoRepeats(s) <==> s[0] !in s[1..] && NoRepeats(s[1..])
  {
    assert s == [s[0]] + s[1..];
    if s[0] !in s[1..] && NoRepeats(s[1..]) {
      forall i, j | 0 <= i < j < |s|
        ensures s[i] != s[j]
      {
        assert s[j] == s[1..][j - 1];
        assert i > 0 ==> s[i] == s[1..][i - 1];
      }
    }
    if NoRepeats(s) {
      assert forall i | 0 <= i < |s[1..]| :: s[1..][i] == s[i + 1];
    }
  }

  lemma {:induction false} WithoutMembers<T>(order: seq<string>, entries: map<string, Entry<T>>, n: nat, id: string)
    requires NoRepeats(order)
    ensures id in Without(order, entries, n) <==>
              id in order && id !in DoneKeys(order, entries)[..Min(n, |DoneKeys(order, entries)|)]
    ensures id in DoneKeys(order, entries) <==> id in order && IsDone(entries, id)
    decreases |order|
  {
    if order != [] {
      assert order == [order[0]] + order[1..];
      assert order[0] !in order[1..] && NoRepeats(order[1..]);
      var all, rest := DoneKeys(order, entries), DoneKeys(order[1..], entries);
      if IsDone(entries, order[0]) {
        assert all == [order[0]] + rest;
        WithoutMembers(order[1..], entries, if n > 0 then n - 1 else 0, id);
        WithoutMembers(order[1..], entries, if n > 0 then n - 1 else 0, order[0]);
        assert n > 0 ==> all[..Min(n, |all|)] == [order[0]] + rest[..Min(n - 1, |rest|)];
      } else {
        assert all == rest;
        WithoutMembers(order[1..], entries, n, id);
        WithoutMembers(order[1..], entries, n, order[0]);
      }
    }
  }

  function Evicted<T>(l: Ledger<T>, capacity: nat): Ledger<T> {
    var n := Excess(|l.entries|, capacity);
    var gone := DoneKeys(l.order, l.entries);
    Ledger(l.entries - KeySet(gone[..Min(n, |gone|)]), Without(l.order, l.entries, n))
  }

  lemma {:induction false} EvictedListed<T>(l: Ledger<T>, capacity: nat)
    requires Listed(l)
    ensures Listed(Evicted(l, capacity))
    ensures forall id :: id in Evicted(l, capacity).entries ==>
              id in l.entries && Evicted(l, capacity).entries[id] == l.entries[id]
    ensures forall id | id in l.entries && l.entries[id].InFlight? :: id in Evicted(l, capacity).entries
    ensures forall id | id in l.entries && id !in Evicted(l, capacity).entries ::
              l.entries[id].Done? && |l.entries| > capacity
  {
    var n := Excess(|l.entries|, capacity);
    WithoutExactly(l.order, l.entries, n);
    forall id
      ensures id in Without(l.order, l.entries, n) <==>
              id in l.order && id !in DoneKeys(l.order, l.entries)[..Min(n, |DoneKeys(l.order, l.entries)|)]
      ensures id in DoneKeys(l.order, l.entries) <==> id in l.order && IsDone(l.entries, id)
    {
      WithoutMembers(l.order, l.entries, n, id);
    }
    var gone := DoneKeys(l.order, l.entries)[..Min(n, |DoneKeys(l.order, l.entries)|)];
    assert forall id | id in gone :: id in DoneKeys(l.order, l.entries);
    assert Evicted(l, capacity).entries.Keys == KeySet(Without(l.order, l.entries, n));
  }

  // ----- operations -----

  function Answer<T>(l: Ledger<T>, id: string): Claim<T> {
    if id !in l.entries then Fresh
    else
      match l.entries[id]
      case InFlight => Busy
      case Done(value) => Replay(value)
  }

  function Claimed<T>(l: Ledger<T>, capacity: nat, id: string): Ledger<T> {
    if id in l.entries then l else Evicted(Ledger(l.entries[id := InFlight], l.order + [id]), capacity)
  }

  function Completed<T>(l: Ledger<T>, id: string, value: T): Ledger<T> {
    if id in l.entries then l.(entries := l.entries[id := Done(value)]) else l
  }

  function Dropped(order: seq<string>, id: string): (out: seq<string>)
    ensures id !in out && forall other | other != id :: other in out <==> other in order
    ensures NoRepeats(order) ==> NoRepeats(out)
  {
    if order == [] then []
    else
      assert order == [order[0]] + order[1..];
      assert NoRepeats(order) ==> NoRepeats(order[1..]) && order[0] !in order[1..];
      (if order[0] == id then [] else [order[0]]) + Dropped(order[1..], id)
  }

  function Abandoned<T>(l: Ledger<T>, id: string): Ledger<T> {
    Ledger(l.entries - {id}, Dropped(l.order, id))
  }

  class IdempotencyLedger<T> {
    const capacity: nat
    var entries: map<string, Entry<T>>
    var order: seq<string>

    ghost function Contents(): Ledger<T>
      reads this
    {
      Ledger(entries, order)
    }

    ghost predicate Sound()
      reads this
    {
      capacity >= 1 && Listed(Contents())
    }

    constructor (capacity: nat)
      ensures Sound() && entries == map[] && this.capacity == if capacity < 1 then 1 else capacity
    {
      this.capacity := if capacity < 1 then 1 else capacity;
      entries, order := map[], [];
    }

    method ClaimKey(id: string) returns (answer: Claim<T>)
      requires Sound()
      modifies this
      ensures Sound() && answer == Answer(old(Contents()), id)
      ensures Contents() == Claimed(old(Contents()), capacity, id)
    {
      if id in entries {
        return match entries[id] {
            case Done(value) => Replay(value)
            case InFlight => Busy
          };
      }
      ghost var before := Contents();
      AppendListed(before, id);
      EvictedListed(Ledger(entries[id := InFlight], order + [id]), capacity);
      entries := entries[id := InFlight];
      order := order + [id];
      Evict();
      answer := Fresh;
    }

    method CompleteKey(id: string, value: T)
      requires Sound()
      modifies this
      ensures Sound() && Contents() == Completed(old(Contents()), id, value)
    {
      if id in entries {
        assert entries[id := Done(value)].Keys == entries.Keys;
        entries := entries[id := Done(value)];
      }
    }

    method AbandonKey(id: string)
      requires Sound()
      modifies this
      ensures Sound() && Contents() == Abandoned(old(Contents()), id)
    {
      AbandonListed(Contents(), id);
      entries := entries - {id};
      order := Dropped(order, id);
    }

    /** Pop from the front, setting aside the keys in flight, then put those back. */
    method Evict()
      requires Listed(Contents())
      modifies this
      ensures Contents() == Evicted(old(Contents()), capacity)
    {
      hide *;
      ContentsIs();
      ghost var l0, dropped := Contents(), 0;
      var kept: seq<string> := [];
      EvictBegins(l0, capacity);
      while |entries| > capacity && order != []
        invariant Evicting(l0, capacity, dropped, kept, order, entries)
        decreases |order|
      {
        var oldest := order[0];
        EvictStep(l0, capacity, dropped, kept, order, entries);
        order := order[1..];
        if entries[oldest].Done? {
          entries := entries - {oldest};
          dropped := dropped + 1;
        } else {
          kept := kept + [oldest];
        }
      }
      EvictEnds(l0, capacity, dropped, kept, order, entries);
      PutBack(kept);
      ContentsIs();
    }

    /** Push the keys back to the front, last one first. */
    method PutBack(kept: seq<string>)
      modifies this`order
      ensures order == kept + old(order)
    {
      var i := |kept|;
      assert kept[|kept|..] + order == order;
      while i > 0
        invariant 0 <= i <= |kept| && order == kept[i..] + old(order)
      {
        i := i - 1;
        ConcatAssoc([kept[i]], kept[i + 1..], old(order));
        assert [kept[i]] + kept[i + 1..] == kept[i..];
        order := [kept[i]] + order;
      }
      assert kept[0..] == kept;
    }

    lemma {:induction false} ContentsIs()
      ensures Contents() == Ledger(entries, order)
    {
    }
  }

  /** Part-way through an eviction: `dropped` completed keys gone, `kept` set aside, `order` to go. */
  ghost predicate Evicting<T>(
      l0: Ledger<T>, capacity: nat, dropped: nat, kept: seq<string>, order: seq<string>,
      entries: map<string, Entry<T>>)
  {
    var done := DoneKeys(l0.order, l0.entries);
    var n := Excess(|l0.entries|, capacity);
    && dropped <= n && dropped <= |done|
    && entries == l0.entries - KeySet(done[..dropped])
    && |entries| == |l0.entries| - dropped
    && NoRepeats(order) && (forall id | id in order :: id in entries)
    && DoneKeys(order, l0.entries) == done[dropped..]
    && kept + Without(order, l0.entries, n - dropped) == Without(l0.order, l0.entries, n)
  }

  lemma {:induction false} EvictBegins<T>(l0: Ledger<T>, capacity: nat)
    requires Listed(l0)
    ensures Evicting(l0, capacity, 0, [], l0.order, l0.entries)
  {
    var done := DoneKeys(l0.order, l0.entries);
    assert done[..0] == [] && done[0..] == done;
    assert l0.entries - KeySet(done[..0]) == l0.entries;
    assert [] + Without(l0.order, l0.entries, Excess(|l0.entries|, capacity)) ==
        Without(l0.order, l0.entries, Excess(|l0.entries|, capacity));
  }

  lemma {:induction false} EvictStep<T>(
      l0: Ledger<T>, capacity: nat, dropped: nat, kept: seq<string>, order: seq<string>,
      entries: map<string, Entry<T>>)
    requires Evicting(l0, capacity, dropped, kept, order, entries) && |entries| > capacity && order != []
    ensures order[0] in entries
    ensures entries[order[0]].Done? ==> Evicting(l0, capacity, dropped + 1, kept, order[1..], entries - {order[0]})
    ensures !entries[order[0]].Done? ==> Evicting(l0, capacity, dropped, kept + [order[0]], order[1..], entries)
  {
    var done := DoneKeys(l0.order, l0.entries);
    var n := Excess(|l0.entries|, capacity);
    PopOldest(order, l0.entries, done, dropped);
    assert order[0] in entries && order[0] in l0.entries;
    assert entries[order[0]] == l0.entries[order[0]];
    if entries[order[0]].Done? {
      assert entries - {order[0]} == l0.entries - KeySet(done[..dropped + 1]);
      assert |entries - {order[0]}| == |entries| - 1 by {
        RemoveOne(entries, order[0]);
      }
    } else {
      ConcatKept(kept, order[0], Without(order[1..], l0.entries, n - dropped));
    }
  }

  lemma {:induction false} RemoveOne<K, V>(m: map<K, V>, k: K)
    requires k in m
    ensures |m - {k}| == |m| - 1
  {
    assert (m - {k}).Keys == m.Keys - {k};
    assert |m| == |m.Keys| && |m - {k}| == |(m - {k}).Keys|;
  }

  lemma {:induction false} EvictEnds<T>(
      l0: Ledger<T>, capacity: nat, dropped: nat, kept: seq<string>, order: seq<string>,
      entries: map<string, Entry<T>>)
    requires Evicting(l0, capacity, dropped, kept, order, entries) && (|entries| <= capacity || order == [])
    ensures Ledger(entries, kept + order) == Evicted(l0, capacity)
  {
    var done := DoneKeys(l0.order, l0.entries);
    var n := Excess(|l0.entries|, capacity);
    NothingMore(order, l0.entries, n - dropped);
    assert order == [] ==> |done[dropped..]| == 0;
    assert dropped == Min(n, |done|);
  }

  lemma {:induction false} ConcatKept(kept: seq<string>, oldest: string, rest: seq<string>)
    ensures kept + ([oldest] + rest) == kept + [oldest] + rest
  {
  }

  /** The loop stops with nothing left to drop, or nothing left to look at. */
  lemma {:induction false} NothingMore<T>(order: seq<string>, entries: map<string, Entry<T>>, n: nat)
    requires n == 0 || order == []
    ensures Without(order, entries, n) == order
  {
  }

  lemma {:induction false} PopOldest<T>(
      order: seq<string>, entries: map<string, Entry<T>>, done: seq<string>, dropped: nat)
    requires order != [] && NoRepeats(order) && dropped <= |done| && DoneKeys(order, entries) == done[dropped..]
    ensures NoRepeats(order[1..]) && order[0] !in order[1..] && forall id | id in order[1..] :: id in order
    ensures IsDone(entries, order[0]) ==>
              dropped < |done| && done[dropped] == order[0] && DoneKeys(order[1..], entries) == done[dropped + 1..]
              && done[..dropped + 1] == done[..dropped] + [order[0]]
    ensures !IsDone(entries, order[0]) ==> DoneKeys(order[1..], entries) == done[dropped..]
  {
    assert order == [order[0]] + order[1..];
    assert [] + DoneKeys(order[1..], entries) == DoneKeys(order[1..], entries);
    if IsDone(entries, order[0]) {
      assert done[dropped..] == [order[0]] + DoneKeys(order[1..], entries);
      assert done[dropped..][1..] == done[dropped + 1..];
    }
  }

  lemma {:induction false} AppendListed<T>(l: Ledger<T>, id: string)
    requires Listed(l) && id !in l.entries
    ensures Listed(Ledger(l.entries[id := InFlight], l.order + [id]))
  {
    assert id !in l.order;
    assert KeySet(l.order + [id]) == KeySet(l.order) + {id};
  }

  lemma {:induction false} AbandonListed<T>(l: Ledger<T>, id: string)
    requires Listed(l)
    ensures Listed(Abandoned(l, id))
  {
    assert KeySet(Dropped(l.order, id)) == KeySet(l.order) - {id};
  }

  // ----- runs of operations -----

  datatype Op<T> = Claim_(id: string) | Complete_(id: string, value: T) | Abandon_(id: string)

  function Step<T>(l: Ledger<T>, capacity: nat, op: Op<T>): Ledger<T> {
    match op
    case Claim_(id) => Claimed(l, capacity, id)
    case Complete_(id, value) => Completed(l, id, value)
    case Abandon_(id) => Abandoned(l, id)
  }

  /** The ledger after the first `k` operations, in whatever order their callers' locks put them. */
  function At<T>(l: Ledger<T>, capacity: nat, ops: seq<Op<T>>, k: nat): Ledger<T>
    requires k <= |ops|
  {
    if k == 0 then l else Step(At(l, capacity, ops, k - 1), capacity, ops[k - 1])
  }

  function Get<T>(l: Ledger<T>, id: string): Option<Entry<T>> {
    if id in l.entries then Some(l.entries[id]) else None
  }

  /** A key's entry after an operation, from what it was before. */
  predicate Becomes<T(==)>(
      l: Ledger<T>, capacity: nat, op: Op<T>, id: string, before: Option<Entry<T>>, after: Option<Entry<T>>)
  {
    match op
    case Claim_(other) =>
      if other == id then (if before.None? then after == Some(InFlight) else after == before)
      else
        || after == before
        || (after.None? && before.Some? && before.value.Done? && other !in l.entries && |l.entries| >= capacity)
    case Complete_(other, value) => after == if other == id && before.Some? then Some(Done(value)) else before
    case Abandon_(other) => after == if other == id then None else before
  }

  lemma {:induction false} ClaimEffect<T>(l: Ledger<T>, capacity: nat, other: string, id: string)
    requires Listed(l) && capacity >= 1
    ensures Listed(Claimed(l, capacity, other))
    ensures Becomes(l, capacity, Claim_(other), id, Get(l, id), Get(Claimed(l, capacity, other), id))
  {
    hide Listed, Evicted;
    if other !in l.entries {
      var grown := Ledger(l.entries[other := InFlight], l.order + [other]);
      AppendListed(l, other);
      EvictedListed(grown, capacity);
      assert grown.entries.Keys == l.entries.Keys + {other};
      assert |grown.entries| == |grown.entries.Keys| && |l.entries| == |l.entries.Keys|;
    }
  }

  lemma {:induction false} CompleteEffect<T>(l: Ledger<T>, capacity: nat, other: string, value: T, id: string)
    requires Listed(l)
    ensures Listed(Completed(l, other, value))
    ensures Becomes(l, capacity, Complete_(other, value), id, Get(l, id), Get(Completed(l, other, value), id))
  {
    assert other in l.entries ==> l.entries[other := Done(value)].Keys == l.entries.Keys;
  }

  lemma {:induction false} AbandonEffect<T>(l: Ledger<T>, capacity: nat, other: string, id: string)
    requires Listed(l)
    ensures Listed(Abandoned(l, other))
    ensures Becomes(l, capacity, Abandon_(other), id, Get(l, id), Get(Abandoned(l, other), id))
  {
    AbandonListed(l, other);
  }

  /** What one operation can do to one key: in flight, it is never evicted. */
  lemma {:induction false} StepEffect<T>(l: Ledger<T>, capacity: nat, op: Op<T>, id: string)
    requires Listed(l) && capacity >= 1
    ensures Listed(Step(l, capacity, op)) && Becomes(l, capacity, op, id, Get(l, id), Get(Step(l, capacity, op), id))
  {
    hide Listed, Becomes, Claimed, Completed, Abandoned, Get;
    match op
    case Claim_(other) => ClaimEffect(l, capacity, other, id);
    case Complete_(other, value) => CompleteEffect(l, capacity, other, value, id);
    case Abandon_(other) => AbandonEffect(l, capacity, other, id);
  }

  lemma {:induction false} AtListed<T>(l: Ledger<T>, capacity: nat, ops: seq<Op<T>>, k: nat)
    requires Listed(l) && capacity >= 1 && k <= |ops|
    ensures Listed(At(l, capacity, ops, k))
  {
    hide Step, Listed, Becomes;
    if k > 0 {
      AtListed(l, capacity, ops, k - 1);
      StepEffect(At(l, capacity, ops, k - 1), capacity, ops[k - 1], "");
    }
  }

  /** Between `i` and `j`: nobody gave `id` up. */
  ghost predicate NotAbandoned<T>(ops: seq<Op<T>>, i: nat, j: nat, id: string)
    requires j <= |ops|
  {
    forall k | i <= k < j :: ops[k] != Abandon_(id)
  }

  ghost predicate CompletedIn<T>(ops: seq<Op<T>>, i: nat, j: nat, id: string)
    requires j <= |ops|
  {
    exists k :: i <= k < j && ops[k].Complete_? && ops[k].id == id
  }

  /** Step `k` evicts `id`: a fresh claim of another key on a full ledger drops it, completed. */
  ghost predicate EvictedAt<T>(l: Ledger<T>, capacity: nat, ops: seq<Op<T>>, k: nat, id: string)
    requires k < |ops|
  {
    && ops[k].Claim_? && ops[k].id != id && Answer(At(l, capacity, ops, k), ops[k].id).Fresh?
    && Get(At(l, capacity, ops, k), id).Some? && Get(At(l, capacity, ops, k), id).value.Done?
    && Get(At(l, capacity, ops, k + 1), id).None?
  }

  /** A completion of `id` after step `i`, and then its eviction, before step `j`. */
  ghost predicate CompletedThenEvicted<T>(l: Ledger<T>, capacity: nat, ops: seq<Op<T>>, i: nat, j: nat, id: string)
    requires j <= |ops|
  {
    exists k: nat :: i < k < j && EvictedAt(l, capacity, ops, k, id) && CompletedIn(ops, i, k, id)
  }

  lemma {:induction false} SeparatedGrows<T>(l: Ledger<T>, capacity: nat, ops: seq<Op<T>>, i: nat, j: nat, id: string)
    requires j < |ops|
    ensures CompletedThenEvicted(l, capacity, ops, i, j, id) ==> CompletedThenEvicted(l, capacity, ops, i, j + 1, id)
  {
    hide EvictedAt, CompletedIn;
    if CompletedThenEvicted(l, capacity, ops, i, j, id) {
      var k: nat :| i < k < j && EvictedAt(l, capacity, ops, k, id) && CompletedIn(ops, i, k, id);
    }
  }

  /** A claimed key that nobody gave up is in flight until completed, and there until evicted. */
  lemma {:induction false} HeldUntil<T>(l: Ledger<T>, capacity: nat, ops: seq<Op<T>>, i: nat, j: nat, id: string)
    requires Listed(l) && capacity >= 1 && i <= j <= |ops| && NotAbandoned(ops, i, j, id)
    requires Get(At(l, capacity, ops, i), id) == Some(InFlight)
    ensures CompletedThenEvicted(l, capacity, ops, i, j, id)
            || (Get(At(l, capacity, ops, j), id).Some?
                && (CompletedIn(ops, i, j, id) || Get(At(l, capacity, ops, j), id) == Some(InFlight)))
    decreases j
  {
    hide *;
    if i < j {
      NotAbandonedBefore(ops, i, j, id);
      HeldUntil(l, capacity, ops, i, j - 1, id);
      SeparatedGrows(l, capacity, ops, i, j - 1, id);
      var before, op := At(l, capacity, ops, j - 1), ops[j - 1];
      AtListed(l, capacity, ops, j - 1);
      StepEffect(before, capacity, op, id);
      AtStep(l, capacity, ops, j);
      CompletedGrows(ops, i, j, id);
      if Get(before, id).Some? {
        HeldStep(before, capacity, op, id, Get(before, id), Get(Step(before, capacity, op), id));
        if Get(At(l, capacity, ops, j), id).None? {
          EvictedHere(l, capacity, ops, j - 1, id);
          EvictedIsSeparated(l, capacity, ops, i, j - 1, id);
        }
      }
    } else {
      assert i == j;
    }
  }

  lemma {:induction false} NotAbandonedBefore<T>(ops: seq<Op<T>>, i: nat, j: nat, id: string)
    requires i < j <= |ops| && NotAbandoned(ops, i, j, id)
    ensures NotAbandoned(ops, i, j - 1, id) && ops[j - 1] != Abandon_(id)
  {
  }

  lemma {:induction false} HeldStep<T>(
      l: Ledger<T>, capacity: nat, op: Op<T>, id: string, before: Option<Entry<T>>, after: Option<Entry<T>>)
    requires Becomes(l, capacity, op, id, before, after) && op != Abandon_(id) && before.Some?
    ensures before == Some(InFlight) ==> after == Some(InFlight) || (after.Some? && op.Complete_? && op.id == id)
    ensures after.None? ==> before.value.Done?
  {
  }

  lemma {:induction false} EvictedIsSeparated<T>(
      l: Ledger<T>, capacity: nat, ops: seq<Op<T>>, i: nat, k: nat, id: string)
    requires k < |ops| && EvictedAt(l, capacity, ops, k, id)
    ensures CompletedIn(ops, i, k, id) ==> CompletedThenEvicted(l, capacity, ops, i, k + 1, id)
  {
    hide EvictedAt;
    if CompletedIn(ops, i, k, id) {
      assert i < k;
    }
  }

  lemma {:induction false} AtStep<T>(l: Ledger<T>, capacity: nat, ops: seq<Op<T>>, j: nat)
    requires 0 < j <= |ops|
    ensures At(l, capacity, ops, j) == Step(At(l, capacity, ops, j - 1), capacity, ops[j - 1])
  {
  }

  lemma {:induction false} CompletedGrows<T>(ops: seq<Op<T>>, i: nat, j: nat, id: string)
    requires i < j <= |ops|
    ensures CompletedIn(ops, i, j, id) <==>
              CompletedIn(ops, i, j - 1, id) || (ops[j - 1].Complete_? && ops[j - 1].id == id)
  {
    if ops[j - 1].Complete_? && ops[j - 1].id == id {
      assert CompletedIn(ops, i, j, id);
    }
  }

  lemma {:induction false} EvictedHere<T>(l: Ledger<T>, capacity: nat, ops: seq<Op<T>>, k: nat, id: string)
    requires Listed(l) && capacity >= 1 && k < |ops| && ops[k] != Abandon_(id)
    requires Get(At(l, capacity, ops, k), id).Some? && Get(At(l, capacity, ops, k + 1), id).None?
    ensures EvictedAt(l, capacity, ops, k, id)
  {
    AtListed(l, capacity, ops, k);
    StepEffect(At(l, capacity, ops, k), capacity, ops[k], id);
  }

  /** Two `Fresh` answers for one key are separated by its abandonment, or by its completion and,
      after that, its eviction. */
  lemma {:induction false} AtMostOneOwner<T>(l: Ledger<T>, capacity: nat, ops: seq<Op<T>>, i: nat, j: nat, id: string)
    requires Listed(l) && capacity >= 1 && i < j < |ops|
    requires ops[i] == Claim_(id) && Answer(At(l, capacity, ops, i), id).Fresh?
    requires ops[j] == Claim_(id) && Answer(At(l, capacity, ops, j), id).Fresh?
    ensures (exists k :: i < k < j && ops[k] == Abandon_(id)) || CompletedThenEvicted(l, capacity, ops, i, j, id)
  {
    hide Step, At, Listed, EvictedAt;
    AtListed(l, capacity, ops, i);
    StepEffect(At(l, capacity, ops, i), capacity, ops[i], id);
    AtStep(l, capacity, ops, i + 1);
    if NotAbandoned(ops, i + 1, j, id) {
      HeldUntil(l, capacity, ops, i + 1, j, id);
      LaterIsLater(l, capacity, ops, i, j, id);
    }
  }

  lemma {:induction false} LaterIsLater<T>(l: Ledger<T>, capacity: nat, ops: seq<Op<T>>, i: nat, j: nat, id: string)
    requires j <= |ops|
    ensures CompletedThenEvicted(l, capacity, ops, i + 1, j, id) ==> CompletedThenEvicted(l, capacity, ops, i, j, id)
  {
    hide EvictedAt;
    if CompletedThenEvicted(l, capacity, ops, i + 1, j, id) {
      var k: nat :| i + 1 < k < j && EvictedAt(l, capacity, ops, k, id) && CompletedIn(ops, i + 1, k, id);
      assert CompletedIn(ops, i, k, id);
    }
  }

  /** While a completed key is remembered, a claim of it is answered with the value last recorded. */
  lemma {:induction false} ReplaysTheRecordedValue<T>(
      l: Ledger<T>, capacity: nat, ops: seq<Op<T>>, i: nat, j: nat, id: string, value: T)
    requires Listed(l) && capacity >= 1 && i < j <= |ops|
    requires ops[i] == Complete_(id, value) && id in At(l, capacity, ops, i).entries
    requires forall k | i < k < j :: !(ops[k].Complete_? && ops[k].id == id) && ops[k] != Abandon_(id)
    requires forall k: nat | i < k <= j :: id in At(l, capacity, ops, k).entries
    ensures Answer(At(l, capacity, ops, j), id) == Replay(value)
    decreases j
  {
    hide Step, At, Listed;
    AtListed(l, capacity, ops, j - 1);
    AtStep(l, capacity, ops, j);
    StepEffect(At(l, capacity, ops, j - 1), capacity, ops[j - 1], id);
    if j > i + 1 {
      ReplaysTheRecordedValue(l, capacity, ops, i, j - 1, id, value);
    }
    assert id in At(l, capacity, ops, j).entries;
  }

  /** The ledger outgrows its capacity only by keys in flight: after a fresh claim, either it fits or
      nothing completed is left in it. */
  lemma {:induction false} FreshClaimFits<T>(l: Ledger<T>, capacity: nat, id: string)
    requires Listed(l) && id !in l.entries
    ensures var grown := Ledger(l.entries[id := InFlight], l.order + [id]);
            var after := Claimed(l, capacity, id);
            var over := if |l.entries| + 1 > capacity then |l.entries| + 1 - capacity else 0;
            var gone := if over < |DoneKeys(l.order, l.entries)| then over else |DoneKeys(l.order, l.entries)|;
            && |after.order| == |l.order| + 1 - gone
            && DoneKeys(grown.order, grown.entries) == DoneKeys(l.order, l.entries)
            && DoneKeys(after.order, grown.entries) == DoneKeys(l.order, l.entries)[gone..]
            && BusyKeys(after.order, grown.entries) == BusyKeys(grown.order, grown.entries)
            && (|after.order| > capacity ==> DoneKeys(after.order, grown.entries) == [])
  {
    hide DoneKeys, BusyKeys, Without, Listed;
    var grown := Ledger(l.entries[id := InFlight], l.order + [id]);
    AppendListed(l, id);
    ListedSizes(l);
    ListedSizes(grown);
    WithoutExactly(grown.order, grown.entries, Excess(|grown.entries|, capacity));
    DoneAppend(l, id);
    var done := DoneKeys(l.order, l.entries);
    assert done[|done|..] == [];
  }

  lemma {:induction false} ListedSizes<T>(l: Ledger<T>)
    requires Listed(l)
    ensures |l.entries| == |l.order|
  {
    ListingLength(l.order);
    assert KeySet(l.order) == set x | x in l.order;
    assert |l.entries.Keys| == |l.entries|;
  }

  lemma {:induction false} DoneAppend<T>(l: Ledger<T>, id: string)
    requires Listed(l) && id !in l.entries
    ensures DoneKeys(l.order + [id], l.entries[id := InFlight]) == DoneKeys(l.order, l.entries)
  {
    DoneAppendFrom(l.order, l.entries, id);
  }

  lemma {:induction false} DoneAppendFrom<T>(order: seq<string>, entries: map<string, Entry<T>>, id: string)
    requires id !in order
    ensures DoneKeys(order + [id], entries[id := InFlight]) == DoneKeys(order, entries)
  {
    if order == [] {
      assert (order + [id])[1..] == [];
    } else {
      assert (order + [id])[1..] == order[1..] + [id];
      assert order[0] in order;
      DoneAppendFrom(order[1..], entries, id);
    }
  }
}
