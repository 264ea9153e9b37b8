/** The operating mode, lowered by a compare-and-exchange loop that any number of callers run at once. */
module Modes {

  datatype OperatingMode = ReadOnly | Write | Manufacturing | Experimental

  newtype u8 = x: int | 0 <= x < 256

  function Tier(m: OperatingMode): (t: nat)
    ensures t <= 2
  {
    match m
    case ReadOnly => 0
    case Manufacturing => 1
    case Write => 2
    case Experimental => 2
  }

  function Encode(m: OperatingMode): u8 {
    match m
    case ReadOnly => 0
    case Write => 1
    case Manufacturing => 2
    case Experimental => 3
  }

  function Decode(b: u8): OperatingMode {
    if b == 0 then ReadOnly
    else if b == 2 then Manufacturing
    else if b == 3 then Experimental
    else Write
  }

  function Restricted(m: OperatingMode, other: OperatingMode): OperatingMode {
    if Tier(other) < Tier(m) then other else m
  }

  function Min(a: nat, b: nat): nat {
    if a < b then a else b
  }

  /** Restricting takes the lower tier.  It commutes on tiers; on modes, exactly when the two are equal
      or of different tiers, so not for `Write` and `Experimental`. */
  lemma {:induction false} RestrictedIsLower(a: OperatingMode, b: OperatingMode)
    ensures Tier(Restricted(a, b)) == Min(Tier(a), Tier(b))
    ensures Restricted(a, b) == a || Restricted(a, b) == b
    ensures Restricted(a, b) == Restricted(b, a) <==> a == b || Tier(a) != Tier(b)
    ensures Restricted(Write, Experimental) != Restricted(Experimental, Write)
  {
  }

  /** Reading only is below manufacturing, and both are below the two modes that may write. */
  lemma {:induction false} RestrictedExactly(a: OperatingMode, b: OperatingMode)
    ensures Restricted(a, b) ==
            if a == ReadOnly || b == ReadOnly then ReadOnly
            else if a == Manufacturing || b == Manufacturing then Manufacturing
            else a
  {
  }

  /** A byte some mode encodes to. */
  predicate Stored(b: u8) {
    b < 4
  }

  function TierOf(b: u8): nat {
    Tier(Decode(b))
  }

  /** Every mode survives storing, and the loop goes on exactly when the tier would fall. */
  lemma {:induction false} NextIsLower(b: u8, requested: OperatingMode)
    requires Stored(b)
    ensures Encode(Decode(b)) == b
    ensures var next := Encode(Restricted(Decode(b), requested));
            && Stored(next) && TierOf(next) == Min(TierOf(b), Tier(requested))
            && (next != b <==> Tier(requested) < TierOf(b))
  {
  }

  lemma {:induction false} StoringKeepsModes(m: OperatingMode)
    ensures Decode(Encode(m)) == m && Stored(Encode(m))
  {
  }

  // ----- one caller, others about -----

  /** What another caller can do to the cell: lower its tier, any number of times, or nothing. */
  predicate Lowered(before: u8, after: u8) {
    Stored(after) && (after == before || TierOf(after) < TierOf(before))
  }

  class ModeGuard {
    var cell: u8

    predicate Sound()
      reads this
    {
      Stored(cell)
    }

    constructor (mode: OperatingMode)
      ensures Sound() && Decode(cell) == mode
    {
      cell := Encode(mode);
    }

    function Current(): OperatingMode
      reads this
    {
      Decode(cell)
    }

    /** Anything the other callers may have done since this one last looked. */
    method Others()
      requires Sound()
      modifies this
      ensures Lowered(old(cell), cell)
    {
      var b: u8 := *;
      if Lowered(cell, b) {
        cell := b;
      }
    }

    method CompareExchange(current: u8, next: u8) returns (ok: bool, observed: u8)
      requires Sound() && Stored(next)
      modifies this
      ensures Sound() && observed == old(cell) && ok == (old(cell) == current)
      ensures cell == if ok then next else old(cell)
    {
      observed := cell;
      ok := cell == current;
      if ok {
        cell := next;
      }
    }

    /** Whatever the others do, the call returns after losing at most two exchanges, its own writes only
        lower the tier, and the tier it leaves is no higher than the one requested. */
    method RestrictTo(requested: OperatingMode) returns (losses: nat)
      requires Sound()
      modifies this
      ensures Sound() && Lowered(old(cell), cell)
      ensures TierOf(cell) <= Tier(requested)
      ensures requested == ReadOnly || old(Current()) == ReadOnly ==> Current() == ReadOnly
      ensures requested == Manufacturing || old(Current()) == Manufacturing ==>
                Current() == ReadOnly || Current() == Manufacturing
      ensures losses <= 2
    {
      losses := 0;
      Others();
      var current := cell;
      while true
        invariant Sound() && Lowered(old(cell), cell) && Stored(current)
        invariant Lowered(current, cell) && losses + TierOf(current) <= 2
        decreases TierOf(current)
      {
        Others();
        var next := Encode(Restricted(Decode(current), requested));
        NextIsLower(current, requested);
        if next == current {
          return;
        }
        var ok, observed := CompareExchange(current, next);
        if ok {
          return;
        }
        current := observed;
        losses := losses + 1;
      }
    }
  }

  // ----- every interleaving -----

  datatype Call =
    | Started(requested: OperatingMode)
    | Comparing(requested: OperatingMode, current: u8, losses: nat)
    | Returned(requested: OperatingMode, losses: nat)

  datatype State = State(cell: u8, calls: map<nat, Call>)

  datatype Step = Begin(id: nat, mode: OperatingMode) | Load(id: nat) | Try(id: nat)

  /** One atomic step; a step that is not enabled changes nothing. */
  function Next(s: State, step: Step): State {
    match step
    case Begin(id, mode) => if id in s.calls then s else s.(calls := s.calls[id := Started(mode)])
    case Load(id) =>
      if id in s.calls && s.calls[id].Started? then
        s.(calls := s.calls[id := Comparing(s.calls[id].requested, s.cell, 0)])
      else s
    case Try(id) =>
      if id in s.calls && s.calls[id].Comparing? then
        var c := s.calls[id];
        var next := Encode(Restricted(Decode(c.current), c.requested));
        if next == c.current then s.(calls := s.calls[id := Returned(c.requested, c.losses)])
        else if s.cell == c.current then State(next, s.calls[id := Returned(c.requested, c.losses)])
        else s.(calls := s.calls[id := Comparing(c.requested, s.cell, c.losses + 1)])
      else s
  }

  /** What holds of a call while the cell holds `cell`. */
  ghost predicate CallHolds(cell: u8, c: Call) {
    match c
    case Started(_) => true
    case Comparing(_, current, losses) => Stored(current) && Lowered(current, cell) && losses + TierOf(current) <= 2
    case Returned(requested, losses) => TierOf(cell) <= Tier(requested) && losses <= 2
  }

  /** The tier held is the initial one or one that was asked for. */
  ghost predicate TierExplained(s: State, initial: OperatingMode) {
    TierOf(s.cell) == Tier(initial) || exists id :: id in s.calls && Tier(s.calls[id].requested) == TierOf(s.cell)
  }

  ghost predicate Consistent(s: State, initial: OperatingMode) {
    && Stored(s.cell) && TierOf(s.cell) <= Tier(initial)
    && (TierOf(s.cell) == Tier(initial) ==> Decode(s.cell) == initial)
    && (forall id | id in s.calls :: CallHolds(s.cell, s.calls[id]))
    && TierExplained(s, initial)
  }

  lemma {:induction false} LoweredKeeps(cell: u8, lower: u8, c: Call)
    requires CallHolds(cell, c) && Lowered(cell, lower)
    ensures CallHolds(lower, c)
  {
  }

  lemma {:induction false} TryKeeps(s: State, id: nat, initial: OperatingMode)
    requires Consistent(s, initial) && id in s.calls && s.calls[id].Comparing?
    ensures Lowered(s.cell, Next(s, Try(id)).cell) && Consistent(Next(s, Try(id)), initial)
  {
    var c, t := s.calls[id], Next(s, Try(id));
    assert CallHolds(s.cell, c);
    NextIsLower(c.current, c.requested);
    forall other | other in t.calls
      ensures CallHolds(t.cell, t.calls[other])
    {
      if other != id {
        LoweredKeeps(s.cell, t.cell, s.calls[other]);
      }
    }
    assert t.calls[id].requested == c.requested;
    if TierOf(t.cell) != TierOf(s.cell) {
      assert Tier(t.calls[id].requested) == TierOf(t.cell);
    } else {
      StillExplained(s, t, initial);
    }
  }

  lemma {:induction false} StillExplained(s: State, t: State, initial: OperatingMode)
    requires TierExplained(s, initial) && TierOf(t.cell) == TierOf(s.cell)
    requires forall id | id in s.calls :: id in t.calls && t.calls[id].requested == s.calls[id].requested
    ensures TierExplained(t, initial)
  {
    if TierOf(s.cell) != Tier(initial) {
      var id :| id in s.calls && Tier(s.calls[id].requested) == TierOf(s.cell);
      assert id in t.calls && Tier(t.calls[id].requested) == TierOf(t.cell);
    }
  }

  /** No step raises the tier, and every step keeps what holds. */
  lemma {:induction false} StepKeeps(s: State, step: Step, initial: OperatingMode)
    requires Consistent(s, initial)
    ensures Lowered(s.cell, Next(s, step).cell) && Consistent(Next(s, step), initial)
  {
    if step.Try? && step.id in s.calls && s.calls[step.id].Comparing? {
      TryKeeps(s, step.id, initial);
    } else {
      var t := Next(s, step);
      assert t.cell == s.cell;
      StillExplained(s, t, initial);
    }
  }

  function Run(s: State, steps: seq<Step>): State {
    if steps == [] then s else Next(Run(s, steps[..|steps| - 1]), steps[|steps| - 1])
  }

  lemma {:induction false} RunKeeps(s: State, steps: seq<Step>, initial: OperatingMode)
    requires Consistent(s, initial)
    ensures Consistent(Run(s, steps), initial) && TierOf(Run(s, steps).cell) <= TierOf(s.cell)
  {
    if steps != [] {
      RunKeeps(s, steps[..|steps| - 1], initial);
      StepKeeps(Run(s, steps[..|steps| - 1]), steps[|steps| - 1], initial);
    }
  }

  lemma {:induction false} RunCut(s: State, a: seq<Step>, b: seq<Step>)
    ensures Run(s, a + b) == Run(Run(s, a), b)
    decreases |b|
  {
    if b == [] {
      assert a + b == a;
    } else {
      assert (a + b)[..|a + b| - 1] == a + b[..|b| - 1];
      RunCut(s, a, b[..|b| - 1]);
    }
  }

  function Held(initial: OperatingMode): State {
    State(Encode(initial), map[])
  }

  /** In every interleaving: the tier never rises; what a returned call asked for holds from then on,
      and it lost at most two exchanges. */
  lemma {:induction false} ModeNeverRises(initial: OperatingMode, steps: seq<Step>, more: seq<Step>)
    ensures var now, later := Run(Held(initial), steps), Run(Held(initial), steps + more);
            && TierOf(later.cell) <= TierOf(now.cell) <= Tier(initial)
            && (forall id | id in now.calls && now.calls[id].Returned? ::
                  TierOf(later.cell) <= Tier(now.calls[id].requested) && now.calls[id].losses <= 2)
  {
    StoringKeepsModes(initial);
    RunKeeps(Held(initial), steps, initial);
    RunCut(Held(initial), steps, more);
    var now := Run(Held(initial), steps);
    RunKeeps(now, more, initial);
    assert forall id | id in now.calls :: CallHolds(now.cell, now.calls[id]);
  }

  /** Once every call has returned, the tier is the lowest of the initial one and all those requested. */
  lemma {:induction false} FinalTierIsTheMinimum(initial: OperatingMode, steps: seq<Step>)
    requires forall id | id in Run(Held(initial), steps).calls :: Run(Held(initial), steps).calls[id].Returned?
    ensures var s := Run(Held(initial), steps);
            && TierOf(s.cell) <= Tier(initial)
            && (forall id | id in s.calls :: TierOf(s.cell) <= Tier(s.calls[id].requested))
            && (TierOf(s.cell) == Tier(initial) ||
                 exists id :: id in s.calls && Tier(s.calls[id].requested) == TierOf(s.cell))
  {
    StoringKeepsModes(initial);
    RunKeeps(Held(initial), steps, initial);
    var s := Run(Held(initial), steps);
    assert forall id | id in s.calls :: CallHolds(s.cell, s.calls[id]);
  }

  ghost predicate AllReturned(s: State) {
    forall id | id in s.calls :: s.calls[id].Returned?
  }

  ghost predicate Requests(s: State, mode: OperatingMode) {
    exists id :: id in s.calls && s.calls[id].requested == mode
  }

  /** Although `Write` and `Experimental` tie, the guard ends in one mode: only a request of a lower tier
      ever replaces the mode held, and each lower tier has one mode.  So the outcome depends on the
      initial mode and on which modes were requested, not on the interleaving. */
  lemma {:induction false} FinalModeIsSettled(initial: OperatingMode, one: seq<Step>, two: seq<Step>)
    requires AllReturned(Run(Held(initial), one)) && AllReturned(Run(Held(initial), two))
    requires forall mode :: Requests(Run(Held(initial), one), mode) <==> Requests(Run(Held(initial), two), mode)
    ensures Run(Held(initial), one).cell == Run(Held(initial), two).cell
  {
    FinalTierIsTheMinimum(initial, one);
    FinalTierIsTheMinimum(initial, two);
    var s, t := Run(Held(initial), one), Run(Held(initial), two);
    AtMost(s, t);
    AtMost(t, s);
    StoringKeepsModes(initial);
    RunKeeps(Held(initial), one, initial);
    RunKeeps(Held(initial), two, initial);
    OneModeBelow(s.cell, t.cell, initial);
  }

  lemma {:induction false} AtMost(s: State, t: State)
    requires forall mode :: Requests(t, mode) ==> Requests(s, mode)
    requires forall id | id in s.calls :: TierOf(s.cell) <= Tier(s.calls[id].requested)
    ensures forall id | id in t.calls :: TierOf(s.cell) <= Tier(t.calls[id].requested)
  {
    forall id | id in t.calls
      ensures TierOf(s.cell) <= Tier(t.calls[id].requested)
    {
      assert Requests(t, t.calls[id].requested);
      var other :| other in s.calls && s.calls[other].requested == t.calls[id].requested;
    }
  }

  lemma {:induction false} OneModeBelow(a: u8, b: u8, initial: OperatingMode)
    requires Stored(a) && Stored(b) && TierOf(a) == TierOf(b)
    requires TierOf(a) == Tier(initial) ==> Decode(a) == initial == Decode(b)
    requires TierOf(a) <= Tier(initial)
    ensures a == b
  {
  }

  /** Once every call has returned, the mode is the lowest of the initial one and all those requested:
      reading only if anyone asked for it, else manufacturing if anyone did, else as it was. */
  lemma {:induction false} FinalModeExactly(initial: OperatingMode, steps: seq<Step>)
    requires AllReturned(Run(Held(initial), steps))
    ensures var s := Run(Held(initial), steps);
            Decode(s.cell) ==
            if initial == ReadOnly || Requests(s, ReadOnly) then ReadOnly
            else if initial == Manufacturing || Requests(s, Manufacturing) then Manufacturing
            else initial
  {
    FinalTierIsTheMinimum(initial, steps);
    StoringKeepsModes(initial);
    RunKeeps(Held(initial), steps, initial);
    var s := Run(Held(initial), steps);
    if TierOf(s.cell) != Tier(initial) {
      var id :| id in s.calls && Tier(s.calls[id].requested) == TierOf(s.cell);
      assert Requests(s, s.calls[id].requested);
    }
  }
}
