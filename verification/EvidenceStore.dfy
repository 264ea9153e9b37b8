/** A bounded store of artefacts behind URIs, against the full history of what was put in it. */
module EvidenceStores {
  import opened Wrappers
  import opened Text

  datatype Entry<B> = Entry(id: nat, kind: string, summary: string, body: B, bytes: nat)

  datatype Handle = Handle(uri: string, id: nat)

  datatype LookupError = Malformed | Expired | Unknown

  function UriOf(scheme: string, kind: string, id: nat): string {
    scheme + "://" + kind + "/" + Decimal(id)
  }

  // ----- retention -----

  function TotalBytes<B>(entries: seq<Entry<B>>): nat {
    if entries == [] then 0 else entries[0].bytes + TotalBytes(entries[1..])
  }

  datatype Limits = Limits(capacity: nat, maxBytes: nat)

  predicate Fits<B>(entries: seq<Entry<B>>, limits: Limits) {
    |entries| <= limits.capacity && TotalBytes(entries) <= limits.maxBytes
  }

  /** The longest suffix within both budgets. */
  function Retained<B>(history: seq<Entry<B>>, limits: Limits): (r: seq<Entry<B>>)
    ensures |r| <= |history|
  {
    if history == [] || Fits(history, limits) then history else Retained(history[1..], limits)
  }

  lemma {:induction false} TotalAppend<B>(entries: seq<Entry<B>>, e: Entry<B>)
    ensures TotalBytes(entries + [e]) == TotalBytes(entries) + e.bytes
  {
    if entries == [] {
      assert (entries + [e])[1..] == [];
    } else {
      assert (entries + [e])[1..] == entries[1..] + [e];
      TotalAppend(entries[1..], e);
    }
  }

  lemma {:induction false} TotalSuffix<B>(entries: seq<Entry<B>>, k: nat)
    requires k <= |entries|
    ensures TotalBytes(entries[k..]) <= TotalBytes(entries)
  {
    if k > 0 {
      assert entries[1..][k - 1..] == entries[k..];
      TotalSuffix(entries[1..], k - 1);
    } else {
      assert entries[0..] == entries;
    }
  }

  /** How many of the oldest entries have been dropped. */
  function Dropped<B>(history: seq<Entry<B>>, limits: Limits): nat {
    |history| - |Retained(history, limits)|
  }

  lemma {:induction false} RetainedIsSuffix<B>(history: seq<Entry<B>>, limits: Limits)
    ensures Retained(history, limits) == history[Dropped(history, limits)..]
    ensures Fits(Retained(history, limits), limits)
  {
    if history != [] && !Fits(history, limits) {
      RetainedIsSuffix(history[1..], limits);
      assert history[1..][Dropped(history[1..], limits)..] == history[Dropped(history[1..], limits) + 1..];
    } else {
      assert history[0..] == history;
    }
  }

  /** Sizes add up, entry by entry. */
  lemma {:induction false} BytesAdd<B>(a: seq<Entry<B>>, b: seq<Entry<B>>)
    ensures TotalBytes<B>([]) == 0
    ensures |a| == 1 ==> TotalBytes(a) == a[0].bytes
    ensures TotalBytes(a + b) == TotalBytes(a) + TotalBytes(b)
    decreases |b|
  {
    if |a| == 1 {
      assert a[1..] == [];
    }
    if b == [] {
      assert a + b == a;
    } else {
      var init, last := b[..|b| - 1], b[|b| - 1];
      assert a + b == a + init + [last] && b == init + [last];
      BytesAdd(a, init);
      TotalAppend(a + init, last);
      TotalAppend(init, last);
    }
  }

  /** What is retained keeps to both budgets, and no longer suffix does. */
  lemma {:induction false} RetainedIsLongest<B>(history: seq<Entry<B>>, limits: Limits, k: nat)
    requires k <= |history|
    ensures |history| - k <= limits.capacity && TotalBytes(history[k..]) <= limits.maxBytes <==>
            k >= Dropped(history, limits)
  {
    RetainedIsSuffix(history, limits);
    var d := Dropped(history, limits);
    if k >= d {
      assert history[d..][k - d..] == history[k..];
      TotalSuffix(history[d..], k - d);
    } else {
      ShorterOverflows(history, limits, k);
    }
  }

  lemma {:induction false} ShorterOverflows<B>(history: seq<Entry<B>>, limits: Limits, k: nat)
    requires k < Dropped(history, limits)
    ensures !Fits(history[k..], limits)
  {
    if k == 0 {
      assert history[0..] == history;
    } else {
      RetainedIsSuffix(history[1..], limits);
      ShorterOverflows(history[1..], limits, k - 1);
      assert history[1..][k - 1..] == history[k..];
    }
  }

  /** Evicting as entries arrive keeps what evicting once from the whole history would. */
  lemma {:induction false} RetainedIncremental<B>(history: seq<Entry<B>>, e: Entry<B>, limits: Limits)
    ensures Retained(history + [e], limits) == Retained(Retained(history, limits) + [e], limits)
  {
    if history != [] && !Fits(history, limits) {
      TotalAppend(history, e);
      assert (history + [e])[1..] == history[1..] + [e];
      RetainedIncremental(history[1..], e, limits);
    }
  }

  /** Once dropped, an entry stays dropped. */
  lemma {:induction false} DroppedGrows<B>(history: seq<Entry<B>>, more: seq<Entry<B>>, limits: Limits)
    ensures Dropped(history, limits) <= Dropped(history + more, limits)
    decreases |more|
  {
    if more == [] {
      assert history + more == history;
      RetainedIsSuffix(history, limits);
    } else {
      var next := history + [more[0]];
      RetainedIncremental(history, more[0], limits);
      RetainedIsSuffix(history, limits);
      RetainedIsSuffix(next, limits);
      RetainedIsSuffix(Retained(history, limits) + [more[0]], limits);
      DroppedGrows(next, more[1..], limits);
      assert next + more[1..] == history + more;
    }
  }

  // ----- handles -----

  function LastIndexOf(s: string, c: char): (r: Option<nat>)
    ensures r.Some? ==> r.value < |s| && s[r.value] == c && forall j | r.value < j < |s| :: s[j] != c
    ensures r.None? ==> c !in s
  {
    if s == "" then None
    else if s[|s| - 1] == c then Some(|s| - 1)
    else
      assert s == s[..|s| - 1] + [s[|s| - 1]];
      LastIndexOf(s[..|s| - 1], c)
  }

  /** An unsigned 64-bit numeral; one leading `+` is allowed. */
  function ParseId(s: string): Option<nat> {
    var digits := if s != "" && s[0] == '+' then s[1..] else s;
    if digits != "" && AllDigits(digits) && DecimalValue(digits) <= U64_MAX then Some(DecimalValue(digits)) else None
  }

  function ParseUri(scheme: string, uri: string): Result<(string, nat), LookupError> {
    if !StartsWith(uri, scheme) || !StartsWith(uri[|scheme|..], "://") then Failure(Malformed)
    else
      var rest := uri[|scheme| + 3..];
      match LastIndexOf(rest, '/')
      case None => Failure(Malformed)
      case Some(i) =>
        if i == 0 then Failure(Malformed)
        else
          match ParseId(rest[i + 1..])
          case None => Failure(Malformed)
          case Some(id) => Success((rest[..i], id))
  }

  lemma {:induction false} LastIndexUnique(s: string, c: char, i: nat)
    requires i < |s| && s[i] == c && c !in s[i + 1..]
    ensures LastIndexOf(s, c) == Some(i)
  {
    forall j | i < j < |s|
      ensures s[j] != c
    {
      assert s[j] == s[i + 1..][j - i - 1];
    }
  }

  lemma {:induction false} UriParts(scheme: string, kind: string, id: nat)
    ensures var uri, digits := UriOf(scheme, kind, id), Decimal(id);
            && StartsWith(uri, scheme) && StartsWith(uri[|scheme|..], "://")
            && |scheme| + 3 <= |uri| && uri[|scheme| + 3..] == kind + ['/'] + digits
  {
    var uri, rest := UriOf(scheme, kind, id), kind + ['/'] + Decimal(id);
    assert uri == scheme + ("://" + rest);
    assert uri[..|scheme|] == scheme && uri[|scheme|..] == "://" + rest;
    assert uri[|scheme|..][..3] == "://" && uri[|scheme|..][3..] == rest;
    assert uri[|scheme| + 3..] == uri[|scheme|..][3..];
  }

  lemma {:induction false} LastSlash(kind: string, digits: string)
    requires AllDigits(digits)
    ensures var rest := kind + ['/'] + digits;
            LastIndexOf(rest, '/') == Some(|kind|) && rest[..|kind|] == kind && rest[|kind| + 1..] == digits
  {
    var rest := kind + ['/'] + digits;
    assert rest[|kind| + 1..] == digits && rest[..|kind|] == kind && rest[|kind|] == '/';
    assert '/' !in digits;
    LastIndexUnique(rest, '/', |kind|);
  }

  lemma {:induction false} IdParses(id: nat)
    requires id <= U64_MAX
    ensures ParseId(Decimal(id)) == Some(id)
  {
    ValueOfDecimal(id);
    assert Decimal(id)[0] != '+';
  }

  /** Every URI the store prints for a kind that is not empty parses back to that kind and id. */
  lemma {:induction false} UriRoundTrip(scheme: string, kind: string, id: nat)
    requires kind != "" && id <= U64_MAX
    ensures ParseUri(scheme, UriOf(scheme, kind, id)) == Success((kind, id))
  {
    hide UriOf, LastIndexOf, ParseId, StartsWith, Decimal;
    UriParts(scheme, kind, id);
    LastSlash(kind, Decimal(id));
    IdParses(id);
  }

  /** `digits` writes `id`, perhaps after one plus sign. */
  ghost predicate WritesId(digits: string, id: nat) {
    && id < 0x1_0000_0000_0000_0000
    && exists bare ::
         && (digits == bare || digits == "+" + bare)
         && bare != "" && AllDigits(bare) && DecimalValue(bare) == id
  }

  ghost predicate IsUri(scheme: string, uri: string, kind: string, digits: string, id: nat) {
    uri == scheme + "://" + kind + "/" + digits && kind != "" && WritesId(digits, id)
  }

  lemma {:induction false} IdExactly(digits: string, id: nat)
    ensures ParseId(digits) == Some(id) <==> WritesId(digits, id)
    ensures WritesId(digits, id) ==> '/' !in digits
  {
    if WritesId(digits, id) {
      var bare :| (digits == bare || digits == "+" + bare) && bare != "" && AllDigits(bare) && DecimalValue(bare) == id;
      assert digits == "+" + bare ==> digits[1..] == bare;
      assert digits[0] == '+' ==> digits == "+" + bare;
    }
    if ParseId(digits) == Some(id) {
      var bare := if digits[0] == '+' then digits[1..] else digits;
      assert digits == bare || digits == "+" + bare;
    }
  }

  /** How a URI falls apart. */
  ghost predicate Cut(scheme: string, uri: string, kind: string, digits: string) {
    && StartsWith(uri, scheme) && StartsWith(uri[|scheme|..], "://")
    && var rest := uri[|scheme| + 3..];
    && LastIndexOf(rest, '/') == Some(|kind|) && rest[..|kind|] == kind && rest[|kind| + 1..] == digits
  }

  lemma {:induction false} UriFallsApart(scheme: string, uri: string, kind: string, digits: string)
    requires '/' !in digits && uri == scheme + "://" + kind + "/" + digits
    ensures Cut(scheme, uri, kind, digits)
  {
    var rest := kind + ['/'] + digits;
    assert uri == scheme + ("://" + rest);
    assert uri[..|scheme|] == scheme && uri[|scheme|..] == "://" + rest;
    assert uri[|scheme|..][..3] == "://" && uri[|scheme|..][3..] == rest;
    assert uri[|scheme| + 3..] == uri[|scheme|..][3..];
    assert rest[|kind| + 1..] == digits && rest[..|kind|] == kind && rest[|kind|] == '/';
    LastIndexUnique(rest, '/', |kind|);
  }

  lemma {:induction false} UriComesTogether(scheme: string, uri: string, kind: string, digits: string)
    requires Cut(scheme, uri, kind, digits)
    ensures uri == scheme + "://" + kind + "/" + digits
  {
    var tail := uri[|scheme| + 3..];
    assert uri[|scheme|..][3..] == tail && uri == scheme + ("://" + tail);
    assert tail == kind + "/" + digits;
  }

  /** A handle is the scheme, a kind that is not empty and a number; anything else is malformed. */
  lemma {:induction false} UriExactly(scheme: string, uri: string)
    ensures forall kind, id: nat ::
              ParseUri(scheme, uri) == Success((kind, id)) <==> exists digits :: IsUri(scheme, uri, kind, digits, id)
    ensures ParseUri(scheme, uri).Failure? ==> ParseUri(scheme, uri) == Failure(Malformed)
  {
    hide ParseId, LastIndexOf, WritesId;
    forall kind, id: nat
      ensures ParseUri(scheme, uri) == Success((kind, id)) <==> exists digits :: IsUri(scheme, uri, kind, digits, id)
    {
      if ParseUri(scheme, uri) == Success((kind, id)) {
        var digits := uri[|scheme| + 3..][|kind| + 1..];
        IdExactly(digits, id);
        UriComesTogether(scheme, uri, kind, digits);
        assert IsUri(scheme, uri, kind, digits, id);
      }
      if digits :| IsUri(scheme, uri, kind, digits, id) {
        IdExactly(digits, id);
        UriFallsApart(scheme, uri, kind, digits);
      }
    }
  }

  function Find<B>(entries: seq<Entry<B>>, kind: string, id: nat): Option<Entry<B>> {
    if entries == [] then None
    else if entries[0].id == id && entries[0].kind == kind then Some(entries[0])
    else Find(entries[1..], kind, id)
  }

  function Lookup<B>(
      scheme: string, entries: seq<Entry<B>>, highWater: nat, uri: string): Result<Entry<B>, LookupError>
  {
    match ParseUri(scheme, uri)
    case Failure(e) => Failure(e)
    case Success((kind, id)) =>
      match Find(entries, kind, id)
      case Some(entry) => Success(entry)
      case None =>
        if id <= highWater && forall i | 0 <= i < |entries| :: entries[i].id != id
        then Failure(Expired) else Failure(Unknown)
  }

  // ----- the store -----

  /** Ids count up from one without a gap. */
  ghost predicate Numbered<B>(history: seq<Entry<B>>) {
    forall i | 0 <= i < |history| :: history[i].id == i + 1
  }

  class EvidenceStore<B> {
    const scheme: string
    const limits: Limits
    const size: B -> nat
    var entries: seq<Entry<B>>
    var bytes: nat
    var highWater: nat
    /** Everything ever put in, oldest first. */
    ghost var history: seq<Entry<B>>

    ghost predicate Sound()
      reads this
    {
      && limits.capacity >= 1 && limits.maxBytes >= 1
      && Numbered(history) && highWater == |history|
      && entries == Retained(history, limits)
      && bytes == TotalBytes(entries)
    }

    /** Both bounds are at least one. */
    constructor (scheme: string, capacity: nat, maxBytes: nat, size: B -> nat)
      ensures Sound() && history == [] && this.scheme == scheme && this.size == size
      ensures limits == Limits(if capacity < 1 then 1 else capacity, if maxBytes < 1 then 1 else maxBytes)
    {
      this.scheme := scheme;
      limits := Limits(if capacity < 1 then 1 else capacity, if maxBytes < 1 then 1 else maxBytes);
      this.size := size;
      entries, bytes, highWater, history := [], 0, 0, [];
    }

    method Put(kind: string, summary: string, body: B) returns (handle: Handle)
      requires Sound() && highWater < U64_MAX
      modifies this
      ensures Sound()
      ensures history == old(history) + [Entry(highWater, kind, summary, body, size(body))]
      ensures highWater == old(highWater) + 1
      ensures handle.id == highWater && handle.uri == scheme + "://" + kind + "/" + Decimal(highWater)
    {
      hide Retained, TotalBytes;
      highWater := highWater + 1;
      var entry := Entry(highWater, kind, summary, body, size(body));
      TotalAppend(entries, entry);
      RetainedIncremental(history, entry, limits);
      history := history + [entry];
      bytes := bytes + entry.bytes;
      entries := entries + [entry];
      while |entries| > limits.capacity || bytes > limits.maxBytes
        invariant Retained(entries, limits) == Retained(history, limits) && bytes == TotalBytes(entries)
        invariant highWater == |history| == old(highWater) + 1 && history == old(history) + [entry]
        decreases |entries|
      {
        NothingFits<B>(limits);
        PopFront(entries, limits);
        var dropped := entries[0];
        entries := entries[1..];
        bytes := SaturatingSub(bytes, dropped.bytes);
      }
      FitsNow(entries, limits);
      handle := Handle(UriOf(scheme, kind, entry.id), entry.id);
    }

    method Get(uri: string) returns (r: Result<Entry<B>, LookupError>)
      requires Sound()
      ensures r == Lookup(scheme, entries, highWater, uri)
    {
      var parsed := ParseUri(scheme, uri);
      if parsed.Failure? {
        return Failure(parsed.error);
      }
      var (kind, id) := parsed.value;
      var found := Find(entries, kind, id);
      if found.Some? {
        return Success(found.value);
      }
      r := if id <= highWater && forall i | 0 <= i < |entries| :: entries[i].id != id
           then Failure(Expired) else Failure(Unknown);
    }
  }

  function SaturatingSub(a: nat, b: nat): nat {
    if a < b then 0 else a - b
  }

  lemma {:induction false} NothingFits<B>(limits: Limits)
    ensures TotalBytes<B>([]) == 0
  {
  }

  lemma {:induction false} PopFront<B>(entries: seq<Entry<B>>, limits: Limits)
    requires entries != [] && !Fits(entries, limits)
    ensures Retained(entries, limits) == Retained(entries[1..], limits)
    ensures TotalBytes(entries) == entries[0].bytes + TotalBytes(entries[1..])
  {
  }

  lemma {:induction false} FitsNow<B>(entries: seq<Entry<B>>, limits: Limits)
    requires Fits(entries, limits)
    ensures Retained(entries, limits) == entries
  {
  }

  // ----- what handles resolve to -----

  lemma {:induction false} FindIn<B>(entries: seq<Entry<B>>, kind: string, id: nat, first: nat)
    requires forall i | 0 <= i < |entries| :: entries[i].id == first + i
    ensures Find(entries, kind, id).Some? <==>
              first <= id < first + |entries| && entries[id - first].kind == kind
    ensures Find(entries, kind, id).Some? ==> Find(entries, kind, id).value == entries[id - first]
  {
    if entries != [] {
      assert forall i | 0 <= i < |entries[1..]| :: entries[1..][i].id == first + 1 + i;
      FindIn(entries[1..], kind, id, first + 1);
    }
  }

  /** A lookup says what became of the id: its entry, if that is retained and of the kind asked for;
      `Expired` for every other id up to the high-water mark that is not retained; else `Unknown`. */
  lemma {:induction false} LookupMeaning<B>(scheme: string, history: seq<Entry<B>>, limits: Limits, uri: string)
    requires Numbered(history) && ParseUri(scheme, uri).Success?
    ensures var (kind, id) := ParseUri(scheme, uri).value;
            var retained := Dropped(history, limits) < id <= |history|;
            Lookup(scheme, Retained(history, limits), |history|, uri) ==
            if retained && history[id - 1].kind == kind then Success(history[id - 1])
            else if id <= |history| && !retained then Failure(Expired)
            else Failure(Unknown)
  {
    hide ParseUri, Retained, Dropped;
    var (kind, id) := ParseUri(scheme, uri).value;
    EntryMeaning(history, limits, kind, id);
  }

  lemma {:induction false} EntryMeaning<B>(history: seq<Entry<B>>, limits: Limits, kind: string, id: nat)
    requires Numbered(history)
    ensures var entries := Retained(history, limits);
            var retained := Dropped(history, limits) < id <= |history|;
            && Find(entries, kind, id) ==
                 (if retained && history[id - 1].kind == kind then Some(history[id - 1]) else None)
            && (retained <==> !forall i | 0 <= i < |entries| :: entries[i].id != id)
  {
    hide Retained, Find;
    RetainedIsSuffix(history, limits);
    var entries, d := Retained(history, limits), Dropped(history, limits);
    assert forall i | 0 <= i < |entries| :: entries[i] == history[d + i] && entries[i].id == d + 1 + i;
    FindIn(entries, kind, id, d + 1);
    if d < id <= |history| {
      assert entries[id - d - 1].id == id;
    }
  }

  /** A handle issued with a kind resolves to its own entry or to `Expired`, whatever was put in since,
      and once `Expired` it stays so. */
  lemma {:induction false} HandlesResolve<B>(
      scheme: string, history: seq<Entry<B>>, more: seq<Entry<B>>, limits: Limits, i: nat)
    requires Numbered(history + more) && i < |history| && |history + more| <= U64_MAX && history[i].kind != ""
    ensures var uri := UriOf(scheme, history[i].kind, history[i].id);
            var now := Lookup(scheme, Retained(history, limits), |history|, uri);
            var later := Lookup(scheme, Retained(history + more, limits), |history + more|, uri);
            && (now == Success(history[i]) || now == Failure(Expired))
            && (later == Success(history[i]) || later == Failure(Expired))
            && (now == Failure(Expired) ==> later == Failure(Expired))
  {
    assert forall k | 0 <= k < |history| :: history[k] == (history + more)[k];
    assert Numbered(history);
    var uri := UriOf(scheme, history[i].kind, history[i].id);
    UriRoundTrip(scheme, history[i].kind, history[i].id);
    LookupMeaning(scheme, history, limits, uri);
    LookupMeaning(scheme, history + more, limits, uri);
    DroppedGrows(history, more, limits);
  }

  /** `Expired` is said of exactly the ids up to the last one dropped.  That means "issued, since
      evicted" just when the id is not zero and the kind is the one that id was issued with. */
  lemma {:induction false} ExpiredExactly<B>(scheme: string, history: seq<Entry<B>>, limits: Limits, uri: string)
    requires Numbered(history) && ParseUri(scheme, uri).Success?
    ensures var (kind, id) := ParseUri(scheme, uri).value;
            var answer := Lookup(scheme, Retained(history, limits), |history|, uri);
            && (answer == Failure(Expired) <==> id <= Dropped(history, limits))
            && (answer == Failure(Expired) ==>
                  ((exists i | 0 <= i < Dropped(history, limits) :: history[i].id == id && history[i].kind == kind) <==>
                   id != 0 && history[id - 1].kind == kind))
  {
    hide ParseUri, Retained, Lookup;
    LookupMeaning(scheme, history, limits, uri);
    var (kind, id) := ParseUri(scheme, uri).value;
    if 0 < id <= Dropped(history, limits) {
      assert history[id - 1].id == id;
    }
  }

  /** Nothing was ever stored, and yet. */
  lemma {:induction false} ZeroIsExpired<B>(scheme: string, kind: string, limits: Limits)
    requires kind != ""
    ensures Lookup<B>(scheme, Retained<B>([], limits), 0, UriOf(scheme, kind, 0)) == Failure(Expired)
  {
    UriRoundTrip(scheme, kind, 0);
  }

  /** A handle with an empty kind is one the store itself calls malformed. */
  lemma {:induction false} EmptyKindIsMalformed<B>(scheme: string, entries: seq<Entry<B>>, highWater: nat, id: nat)
    ensures Lookup(scheme, entries, highWater, UriOf(scheme, "", id)) == Failure(Malformed)
  {
    hide UriOf, LastIndexOf, ParseId, StartsWith, Decimal;
    UriParts(scheme, "", id);
    LastSlash("", Decimal(id));
  }
}
