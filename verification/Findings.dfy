/** Numbering the repeated findings of one run, and comparing two runs. */
module Findings {
  import opened Text
  import opened Sorting

  datatype Severity = Error | Warning | Info

  datatype Finding = Finding(
    id: string,
    validator: string,
    severity: Severity,
    rule: string,
    location: string,
    message: string)

  const NUL: char := 0 as char

  // ----- identities -----

  /** The digest, cut to twelve hex digits, is taken to be injective. */
  ghost predicate Collisionless(hash: string -> string) {
    forall a, b :: hash(a) == hash(b) ==> a == b
  }

  /** What is hashed for a finding. */
  function Key(validator: string, rule: string, location: string): string {
    validator + [NUL] + rule + [NUL] + location
  }

  function ComputeId(hash: string -> string, validator: string, rule: string, location: string): string {
    hash(Key(validator, rule, location))
  }

  /** Fields without NUL make the separator unambiguous: different findings hash different keys. */
  lemma {:induction false} KeyInjective(v1: string, r1: string, l1: string, v2: string, r2: string, l2: string)
    requires NUL !in v1 && NUL !in r1 && NUL !in v2 && NUL !in r2
    requires Key(v1, r1, l1) == Key(v2, r2, l2)
    ensures v1 == v2 && r1 == r2 && l1 == l2
  {
    assert Key(v1, r1, l1) == v1 + [NUL] + (r1 + [NUL] + l1);
    assert Key(v2, r2, l2) == v2 + [NUL] + (r2 + [NUL] + l2);
    CutOnce(v1, r1 + [NUL] + l1, v2, r2 + [NUL] + l2, NUL);
    CutOnce(r1, l1, r2, l2, NUL);
  }

  lemma {:induction false} CutOnce(a: string, x: string, b: string, y: string, c: char)
    requires c !in a && c !in b && a + [c] + x == b + [c] + y
    ensures a == b && x == y
  {
    IndexOfIn(a, c, x);
    IndexOfIn(b, c, y);
    var s := a + [c] + x;
    assert s[..|a|] == a && s[|a| + 1..] == x;
    assert s == b + [c] + y && s[..|b|] == b && s[|b| + 1..] == y;
  }

  /** How often NUL occurs in a key: twice, and once for each in a field. */
  lemma {:induction false} KeyCounts(v: string, r: string, l: string)
    ensures multiset(Key(v, r, l))[NUL] == multiset(v)[NUL] + multiset(r)[NUL] + multiset(l)[NUL] + 2
  {
    assert Key(v, r, l) == v + ([NUL] + (r + ([NUL] + l)));
  }

  lemma {:induction false} CutAtNul(s: string) returns (a: string, b: string)
    requires NUL in s
    ensures s == a + [NUL] + b
  {
    var i :| 0 <= i < |s| && s[i] == NUL;
    a, b := s[..i], s[i + 1..];
  }

  /** A key is that of one finding only. */
  ghost predicate OwnKey(v: string, r: string, l: string) {
    forall v1, r1, l1 | Key(v1, r1, l1) == Key(v, r, l) :: v1 == v && r1 == r && l1 == l
  }

  /** A finding shares its key with no other if and only if none of its fields holds a NUL. */
  lemma {:induction false} KeyExactly(v: string, r: string, l: string)
    ensures OwnKey(v, r, l) <==> NUL !in v && NUL !in r && NUL !in l
  {
    forall v1, r1, l1 | Key(v1, r1, l1) == Key(v, r, l) && NUL !in v && NUL !in r && NUL !in l
      ensures v1 == v && r1 == r && l1 == l
    {
      KeyCounts(v, r, l);
      KeyCounts(v1, r1, l1);
      assert NUL !in v1 && NUL !in r1;
      KeyInjective(v1, r1, l1, v, r, l);
    }
    if NUL in v {
      var a, b := CutAtNul(v);
      assert Key(a, b, r + [NUL] + l) == Key(v, r, l) && a != v;
    } else if NUL in r {
      var a, b := CutAtNul(r);
      assert Key(v, a, b + [NUL] + l) == Key(v, r, l) && a != r;
    } else if NUL in l {
      var a, b := CutAtNul(l);
      assert Key(v, r + [NUL] + a, b) == Key(v, r, l) && b != l;
    }
  }

  /** Two findings of one validator with one id: the NUL in the rule of one is in the location of the other. */
  lemma {:induction false} NulConfusesFields(hash: string -> string)
    ensures ComputeId(hash, "erc", "a" + [NUL] + "b", "c") == ComputeId(hash, "erc", "a", "b" + [NUL] + "c")
    ensures "a" + [NUL] + "b" != "a"
  {
    assert Key("erc", "a" + [NUL] + "b", "c") == Key("erc", "a", "b" + [NUL] + "c");
    assert |"a" + [NUL] + "b"| != |"a"|;
  }

  // ----- numbering repeats -----

  function Suffix(key: string, n: nat): string {
    if n == 0 then key else key + ['#'] + Decimal(n)
  }

  lemma {:induction false} SuffixOfKey(validator: string, rule: string, location: string, n: nat)
    ensures Key(validator, rule, Suffix(location, n)) == Suffix(Key(validator, rule, location), n)
  {
  }

  lemma {:induction false} NoLaterHash(a: string, m: string)
    requires '#' !in m
    ensures var s := a + ['#'] + m; s[|a|] == '#' && forall k | |a| < k < |s| :: s[k] != '#'
    ensures var s := a + ['#'] + m; s[..|a|] == a && s[|a| + 1..] == m
  {
    var s := a + ['#'] + m;
    forall k | |a| < k < |s|
      ensures s[k] != '#'
    {
      assert s[k] == m[k - |a| - 1];
    }
  }

  lemma {:induction false} LastHash(a: string, m: string, b: string, n: string)
    requires '#' !in m && '#' !in n && a + ['#'] + m == b + ['#'] + n
    ensures a == b && m == n
  {
    NoLaterHash(a, m);
    NoLaterHash(b, n);
  }

  /** Numbering branches: a key carries at most one number, so it comes from itself or from one parent. */
  lemma {:induction false} SuffixInjective(a: string, m: nat, b: string, n: nat)
    requires Suffix(a, m) == Suffix(b, n) && (m == 0 <==> n == 0)
    ensures a == b && m == n
  {
    if m != 0 {
      DigitsHaveNoHash(Decimal(m));
      DigitsHaveNoHash(Decimal(n));
      LastHash(a, Decimal(m), b, Decimal(n));
      DecimalInjective(m, n);
    }
  }

  lemma {:induction false} DigitsHaveNoHash(s: string)
    requires AllDigits(s)
    ensures '#' !in s
  {
  }

  lemma {:induction false} SameKeySuffix(hash: string -> string, key: string, m: nat, n: nat)
    requires Collisionless(hash) && hash(Suffix(key, m)) == hash(Suffix(key, n))
    ensures m == n
  {
    assert |Suffix(key, m)| == |key| <==> m == 0;
    assert |Suffix(key, n)| == |key| <==> n == 0;
    SuffixInjective(key, m, key, n);
  }

  /** `n` is the first number whose id is not taken. */
  ghost predicate Slot(hash: string -> string, taken: set<string>, key: string, n: nat) {
    hash(Suffix(key, n)) !in taken && Filled(hash, taken, key, n)
  }

  ghost predicate Given(hash: string -> string, taken: set<string>, key: string, n: nat, id: string) {
    Slot(hash, taken, key, n) && id == hash(Suffix(key, n))
  }

  ghost predicate GivenSome(hash: string -> string, taken: set<string>, key: string, id: string) {
    exists n :: Given(hash, taken, key, n, id)
  }

  ghost predicate Filled(hash: string -> string, taken: set<string>, key: string, n: nat) {
    forall k: nat | k < n :: hash(Suffix(key, k)) in taken
  }

  ghost function SetOf(ids: seq<string>): set<string> {
    set id | id in ids
  }

  /** Pigeonhole: no more numbers can be taken than there are ids. */
  lemma {:induction false} FilledBound(hash: string -> string, ids: seq<string>, key: string, n: nat)
    requires Collisionless(hash) && Filled(hash, SetOf(ids), key, n)
    ensures n <= |ids|
  {
    var used := Numbered(hash, key, n);
    NumberedSize(hash, key, n);
    assert used <= SetOf(ids);
    assert |SetOf(ids)| == |used| + |SetOf(ids) - used|;
    SetOfSize(ids);
  }

  ghost function Numbered(hash: string -> string, key: string, n: nat): set<string> {
    set k: nat | k < n :: hash(Suffix(key, k))
  }

  lemma {:induction false} NumberedSize(hash: string -> string, key: string, n: nat)
    requires Collisionless(hash)
    ensures |Numbered(hash, key, n)| == n
  {
    hide Suffix, Collisionless;
    if n > 0 {
      NumberedSize(hash, key, n - 1);
      assert Numbered(hash, key, n) == Numbered(hash, key, n - 1) + {hash(Suffix(key, n - 1))};
      forall k: nat | k < n - 1
        ensures hash(Suffix(key, k)) != hash(Suffix(key, n - 1))
      {
        if hash(Suffix(key, k)) == hash(Suffix(key, n - 1)) {
          SameKeySuffix(hash, key, k, n - 1);
        }
      }
    }
  }

  lemma {:induction false} SetOfSize(ids: seq<string>)
    ensures |SetOf(ids)| <= |ids|
    ensures NoRepeats(ids) ==> |SetOf(ids)| == |ids|
  {
    if ids != [] {
      var init, last := ids[..|ids| - 1], ids[|ids| - 1];
      SetOfSize(init);
      assert ids == init + [last];
      assert SetOf(ids) == SetOf(init) + {last};
      assert NoRepeats(ids) ==> last !in init;
    }
  }

  /** The ids given, in order, to findings with these keys. */
  ghost predicate Records(hash: string -> string, keys: seq<string>, ids: seq<string>) {
    if keys == [] then ids == []
    else
      && ids != []
      && Records(hash, keys[..|keys| - 1], ids[..|ids| - 1])
      && GivenSome(hash, SetOf(ids[..|ids| - 1]), keys[|keys| - 1], ids[|ids| - 1])
  }

  lemma {:induction false} RecordsOneMore(
      hash: string -> string, keys: seq<string>, ids: seq<string>, key: string, n: nat)
    requires Records(hash, keys, ids) && Slot(hash, SetOf(ids), key, n)
    ensures Records(hash, keys + [key], ids + [hash(Suffix(key, n))])
    ensures SetOf(ids + [hash(Suffix(key, n))]) == SetOf(ids) + {hash(Suffix(key, n))}
  {
    assert (keys + [key])[..|keys|] == keys;
    assert (ids + [hash(Suffix(key, n))])[..|ids|] == ids;
    assert Given(hash, SetOf(ids), key, n, hash(Suffix(key, n)));
  }

  /** No two findings of a set share an id. */
  lemma {:induction false} RecordsDistinct(hash: string -> string, keys: seq<string>, ids: seq<string>)
    requires Records(hash, keys, ids)
    ensures |ids| == |keys| && NoRepeats(ids)
  {
    if keys != [] {
      var init := ids[..|ids| - 1];
      RecordsDistinct(hash, keys[..|keys| - 1], init);
      assert ids[|ids| - 1] !in SetOf(init);
      forall i, j | 0 <= i < j < |ids|
        ensures ids[i] != ids[j]
      {
        assert ids[i] == init[i] && init[i] in SetOf(init);
      }
    }
  }

  class FindingSet {
    const hash: string -> string
    var findings: seq<Finding>
    /** The keys pushed so far, in order. */
    ghost var keys: seq<string>

    ghost predicate Sound()
      reads this
    {
      Collisionless(hash) && Records(hash, keys, Ids(findings))
    }

    constructor (hash: string -> string)
      requires Collisionless(hash)
      ensures Sound() && keys == [] && findings == []
    {
      this.hash := hash;
      findings, keys := [], [];
    }

    /** Give the finding the first free number; at most as many numbers are tried as there are findings,
        plus one. */
    method Push(validator: string, severity: Severity, rule: string, location: string, message: string)
      returns (ghost ordinal: nat)
      requires Sound()
      modifies this
      ensures Sound() && keys == old(keys) + [Key(validator, rule, location)]
      ensures ordinal <= |old(findings)|
      ensures Slot(hash, SetOf(Ids(old(findings))), Key(validator, rule, location), ordinal)
      ensures var where := if ordinal == 0 then location else location + "#" + Decimal(ordinal);
              var id := hash(validator + [0 as char] + rule + [0 as char] + where);
              findings == old(findings) + [Finding(id, validator, severity, rule, where, message)]
      ensures forall i | 0 <= i < |old(findings)| :: old(findings)[i].id != findings[|old(findings)|].id
    {
      hide *;
      var number := 0;
      var where := location;
      var id := ComputeId(hash, validator, rule, where);
      ghost var key, ids := Key(validator, rule, location), Ids(findings);
      SoundParts();
      NumberedId(hash, validator, rule, location, 0);
      NothingFilled(hash, ids, key);
      while exists i | 0 <= i < |findings| :: findings[i].id == id
        invariant findings == old(findings) && keys == old(keys)
        invariant where == (if number == 0 then location else location + "#" + Decimal(number))
        invariant id == hash(Suffix(key, number))
        invariant id == ComputeId(hash, validator, rule, where)
        invariant number <= |findings| && Filled(hash, SetOf(ids), key, number)
        decreases |findings| - number
      {
        IdTaken(findings, id);
        NumberTaken(hash, ids, key, number);
        number := number + 1;
        where := location + "#" + Decimal(number);
        id := ComputeId(hash, validator, rule, where);
        NumberedId(hash, validator, rule, location, number);
      }
      IdFree(hash, findings, key, number);
      IdSpelt(hash, validator, rule, where);
      RecordsOneMore(hash, keys, ids, key, number);
      ghost var before := findings;
      findings := findings + [Finding(id, validator, severity, rule, where, message)];
      IdsAppend(before, Finding(id, validator, severity, rule, where, message));
      keys := keys + [key];
      ordinal := number;
      MakeSound();
    }

    lemma {:induction false} SoundParts()
      requires Sound()
      ensures Collisionless(hash) && Records(hash, keys, Ids(findings))
    {
    }

    lemma {:induction false} MakeSound()
      requires Collisionless(hash) && Records(hash, keys, Ids(findings))
      ensures Sound()
    {
    }
  }

  lemma {:induction false} NumberedId(hash: string -> string, validator: string, rule: string, location: string, n: nat)
    ensures ComputeId(hash, validator, rule, Suffix(location, n)) == hash(Suffix(Key(validator, rule, location), n))
    ensures Suffix(location, n) == if n == 0 then location else location + "#" + Decimal(n)
  {
    SuffixOfKey(validator, rule, location, n);
  }

  lemma {:induction false} IdSpelt(hash: string -> string, validator: string, rule: string, location: string)
    ensures ComputeId(hash, validator, rule, location) ==
            hash(validator + [0 as char] + rule + [0 as char] + location)
  {
  }

  lemma {:induction false} IdTaken(findings: seq<Finding>, id: string)
    requires exists i | 0 <= i < |findings| :: findings[i].id == id
    ensures id in SetOf(Ids(findings)) && |Ids(findings)| == |findings|
  {
    var i :| 0 <= i < |findings| && findings[i].id == id;
    assert Ids(findings)[i] == id;
  }

  lemma {:induction false} NumberTaken(hash: string -> string, ids: seq<string>, key: string, n: nat)
    requires Collisionless(hash) && Filled(hash, SetOf(ids), key, n) && hash(Suffix(key, n)) in SetOf(ids)
    ensures Filled(hash, SetOf(ids), key, n + 1) && n + 1 <= |ids|
  {
    FilledBound(hash, ids, key, n + 1);
  }

  lemma {:induction false} IdFree(hash: string -> string, findings: seq<Finding>, key: string, n: nat)
    requires Filled(hash, SetOf(Ids(findings)), key, n)
    requires !exists i | 0 <= i < |findings| :: findings[i].id == hash(Suffix(key, n))
    ensures Slot(hash, SetOf(Ids(findings)), key, n)
  {
  }

  function Ids(findings: seq<Finding>): (ids: seq<string>)
    ensures |ids| == |findings| && forall i | 0 <= i < |ids| :: ids[i] == findings[i].id
  {
    seq(|findings|, i requires 0 <= i < |findings| => findings[i].id)
  }

  lemma {:induction false} IdsAppend(findings: seq<Finding>, f: Finding)
    ensures Ids(findings + [f]) == Ids(findings) + [f.id]
  {
  }

  // ----- the order findings arrive in -----

  /** No key in `all` is a numbered form that repeats of a key in `counts` lay claim to. */
  ghost predicate NoClash(counts: multiset<string>, all: multiset<string>) {
    forall key, n: nat | key in counts && 1 <= n < counts[key] :: Suffix(key, n) !in all
  }

  /** One id for each number below the count of each key. */
  ghost function Expected(hash: string -> string, counts: multiset<string>): set<string> {
    set key, n: nat | key in counts && n < counts[key] :: hash(Suffix(key, n))
  }

  lemma {:induction false} InExpected(
      hash: string -> string, counts: multiset<string>, all: multiset<string>,
      key: string, n: nat, bound: multiset<string>)
    requires Collisionless(hash) && counts <= all && NoClash(counts, all)
    requires key in all && NoClash(bound, all) && (n == 0 || n < bound[key])
    ensures hash(Suffix(key, n)) in Expected(hash, counts) <==> n < counts[key]
  {
    if hash(Suffix(key, n)) in Expected(hash, counts) {
      var k, i: nat :| k in counts && i < counts[k] && hash(Suffix(k, i)) == hash(Suffix(key, n));
      assert Suffix(k, i) == Suffix(key, n);
      if (i == 0) == (n == 0) {
        SuffixInjective(k, i, key, n);
      } else {
        assert false;
      }
    }
  }

  /** Without clashes each key gets exactly the numbers below its count. */
  lemma {:induction false} RecordsExpected(
      hash: string -> string, keys: seq<string>, ids: seq<string>, all: multiset<string>)
    requires Collisionless(hash) && Records(hash, keys, ids)
    requires multiset(keys) <= all && NoClash(multiset(keys), all)
    ensures SetOf(ids) == Expected(hash, multiset(keys))
  {
    hide *;
    if keys == [] {
      NoRecords(hash, ids);
      NothingExpected(hash, multiset([]));
    } else {
      var init, last := keys[..|keys| - 1], keys[|keys| - 1];
      LastRecord(hash, keys, ids);
      var before := ids[..|ids| - 1];
      FewerClash(multiset(init), last, all);
      RecordsExpected(hash, init, before, all);
      NextExpected(hash, multiset(init), SetOf(before), last, ids[|ids| - 1], all);
      OneMoreExpected(hash, multiset(init), last);
    }
  }

  lemma {:induction false} NoRecords(hash: string -> string, ids: seq<string>)
    requires Records(hash, [], ids)
    ensures SetOf(ids) == {}
  {
  }

  lemma {:induction false} LastRecord(hash: string -> string, keys: seq<string>, ids: seq<string>)
    requires Records(hash, keys, ids) && keys != []
    ensures ids != []
    ensures var init, before := keys[..|keys| - 1], ids[..|ids| - 1];
            && Records(hash, init, before)
            && GivenSome(hash, SetOf(before), keys[|keys| - 1], ids[|ids| - 1])
            && SetOf(ids) == SetOf(before) + {ids[|ids| - 1]}
            && multiset(keys) == multiset(init) + multiset{keys[|keys| - 1]}
  {
    hide GivenSome, SetOf;
    LastApart(keys);
    LastApart(ids);
    SetOfAppend(ids[..|ids| - 1], ids[|ids| - 1]);
  }

  lemma {:induction false} LastApart(s: seq<string>)
    ensures s != [] ==> s == s[..|s| - 1] + [s[|s| - 1]]
    ensures s != [] ==> multiset(s) == multiset(s[..|s| - 1]) + multiset{s[|s| - 1]}
  {
    if s != [] {
      assert s == s[..|s| - 1] + [s[|s| - 1]];
    }
  }

  lemma {:induction false} SetOfAppend(ids: seq<string>, id: string)
    ensures SetOf(ids + [id]) == SetOf(ids) + {id}
  {
  }

  lemma {:induction false} FewerClash(counts: multiset<string>, key: string, all: multiset<string>)
    requires NoClash(counts + multiset{key}, all)
    ensures NoClash(counts, all)
  {
  }

  /** The id given to the next finding of a key is the one its count says. */
  lemma {:induction false} NextExpected(
      hash: string -> string, counts: multiset<string>, taken: set<string>, key: string, id: string,
      all: multiset<string>)
    requires Collisionless(hash) && counts + multiset{key} <= all
    requires NoClash(counts, all) && NoClash(counts + multiset{key}, all)
    requires taken == Expected(hash, counts) && GivenSome(hash, taken, key, id)
    ensures id == hash(Suffix(key, counts[key]))
  {
    hide Collisionless, Expected, NoClash, Suffix;
    var n :| Given(hash, taken, key, n, id);
    var c, more := counts[key], counts + multiset{key};
    assert key in all by {
      assert key in more;
    }
    InExpected(hash, counts, all, key, c, more);
    if n < c {
      InExpected(hash, counts, all, key, n, more);
    }
  }

  lemma {:induction false} OneMoreExpected(hash: string -> string, counts: multiset<string>, key: string)
    ensures Expected(hash, counts + multiset{key}) == Expected(hash, counts) + {hash(Suffix(key, counts[key]))}
  {
    var more := counts + multiset{key};
    forall id | id in Expected(hash, more)
      ensures id in Expected(hash, counts) + {hash(Suffix(key, counts[key]))}
    {
      var k, n: nat :| k in more && n < more[k] && id == hash(Suffix(k, n));
      if !(k == key && n == counts[key]) {
        assert k in counts && n < counts[k];
      }
    }
    assert key in more && counts[key] < more[key];
    forall id | id in Expected(hash, counts)
      ensures id in Expected(hash, more)
    {
      var k, n: nat :| k in counts && n < counts[k] && id == hash(Suffix(k, n));
      assert k in more && n < more[k];
    }
  }

  /** The ids a multiset of findings ends with do not depend on the order they are pushed in. */
  ghost predicate OrderFree(hash: string -> string, counts: multiset<string>) {
    forall keys1, ids1, keys2, ids2 | Records(hash, keys1, ids1) && Records(hash, keys2, ids2)
        && multiset(keys1) == counts && multiset(keys2) == counts :: SetOf(ids1) == SetOf(ids2)
  }

  lemma {:induction false} NoClashIsOrderFree(hash: string -> string, counts: multiset<string>)
    requires Collisionless(hash) && NoClash(counts, counts)
    ensures OrderFree(hash, counts)
  {
    forall keys1, ids1, keys2, ids2 | Records(hash, keys1, ids1) && Records(hash, keys2, ids2)
        && multiset(keys1) == counts && multiset(keys2) == counts
      ensures SetOf(ids1) == SetOf(ids2)
    {
      RecordsExpected(hash, keys1, ids1, counts);
      RecordsExpected(hash, keys2, ids2, counts);
    }
  }

  /** Each reported key has its own id taken, by itself or by a numbered form of another. */
  lemma {:induction false} ReportedIsTaken(hash: string -> string, keys: seq<string>, ids: seq<string>, key: string)
    requires Records(hash, keys, ids) && key in keys
    ensures hash(key) in SetOf(ids)
  {
    var init, before := keys[..|keys| - 1], ids[..|ids| - 1];
    assert keys == init + [keys[|keys| - 1]];
    assert ids == before + [ids[|ids| - 1]];
    if key in init {
      ReportedIsTaken(hash, init, before, key);
    } else {
      var n :| Given(hash, SetOf(before), key, n, ids[|ids| - 1]);
      if n > 0 {
        assert hash(Suffix(key, 0)) in SetOf(before);
      }
    }
  }

  lemma {:induction false} FirstSlot(hash: string -> string, ids: seq<string>, key: string) returns (n: nat)
    requires Collisionless(hash)
    ensures Slot(hash, SetOf(ids), key, n)
  {
    n := 0;
    while hash(Suffix(key, n)) in SetOf(ids)
      invariant n <= |ids| && Filled(hash, SetOf(ids), key, n)
      decreases |ids| - n
    {
      FilledBound(hash, ids, key, n + 1);
      n := n + 1;
    }
  }

  /** Any further findings can be recorded. */
  lemma {:induction false} RecordMore(hash: string -> string, keys: seq<string>, ids: seq<string>, more: seq<string>)
    returns (out: seq<string>)
    requires Collisionless(hash) && Records(hash, keys, ids)
    ensures Records(hash, keys + more, out) && SetOf(ids) <= SetOf(out)
    decreases |more|
  {
    if more == [] {
      out := ids;
      assert keys + more == keys;
    } else {
      var n := FirstSlot(hash, ids, more[0]);
      RecordsOneMore(hash, keys, ids, more[0], n);
      out := RecordMore(hash, keys + [more[0]], ids + [hash(Suffix(more[0], n))], more[1..]);
      assert keys + [more[0]] + more[1..] == keys + more;
    }
  }

  /** A numbered form nobody reported, of a key nobody reports any more, stays out. */
  lemma {:induction false} StaysOut(
      hash: string -> string, keys: seq<string>, ids: seq<string>, more: seq<string>, key: string, n: nat)
    returns (out: seq<string>)
    requires Collisionless(hash) && Records(hash, keys, ids) && n >= 1
    requires key !in more && Suffix(key, n) !in more && hash(Suffix(key, n)) !in SetOf(ids)
    ensures Records(hash, keys + more, out) && hash(Suffix(key, n)) !in SetOf(out)
    decreases |more|
  {
    hide *;
    if more == [] {
      out := ids;
      assert keys + more == keys;
    } else {
      var i := FirstSlot(hash, ids, more[0]);
      RecordsOneMore(hash, keys, ids, more[0], i);
      OtherProducer(hash, more[0], i, key, n);
      assert keys + [more[0]] + more[1..] == keys + more;
      out := StaysOut(hash, keys + [more[0]], ids + [hash(Suffix(more[0], i))], more[1..], key, n);
    }
  }

  lemma {:induction false} OtherProducer(hash: string -> string, other: string, i: nat, key: string, n: nat)
    requires Collisionless(hash) && n >= 1 && other != key && other != Suffix(key, n)
    ensures hash(Suffix(other, i)) != hash(Suffix(key, n))
  {
    if i > 0 && Suffix(other, i) == Suffix(key, n) {
      SuffixInjective(other, i, key, n);
    }
  }

  function Repeat(key: string, count: nat): seq<string> {
    seq(count, i => key)
  }

  /** Taking a slot: it lies beyond what was filled, and fills one number more. */
  lemma {:induction false} SlotTaken(
      hash: string -> string, ids: seq<string>, key: string, n: nat, filled: nat, taken: nat)
    requires Slot(hash, SetOf(ids), key, n) && Filled(hash, SetOf(ids), key, filled)
    requires hash(Suffix(key, taken)) in SetOf(ids)
    ensures n >= filled && n != taken
    ensures var out := ids + [hash(Suffix(key, n))];
            Filled(hash, SetOf(out), key, n + 1) && hash(Suffix(key, n)) in SetOf(out) && SetOf(ids) <= SetOf(out)
    ensures hash(Suffix(key, n)) !in SetOf(ids)
  {
  }

  /** Pushing one key `count` times when its number `n` is already taken reaches past `count - 1`. */
  lemma {:induction false} PushRepeated(
      hash: string -> string, keys: seq<string>, ids: seq<string>, key: string, count: nat, n: nat)
    returns (out: seq<string>, top: nat)
    requires Collisionless(hash) && Records(hash, keys, ids) && hash(Suffix(key, n)) in SetOf(ids) && count >= 1
    ensures Records(hash, keys + Repeat(key, count), out) && SetOf(ids) <= SetOf(out)
    ensures hash(Suffix(key, top)) in SetOf(out) && hash(Suffix(key, top)) !in SetOf(ids)
    ensures Filled(hash, SetOf(out), key, top + 1)
    ensures top >= (if count > n then count else count - 1)
  {
    hide *;
    RepeatOneMore(key, count);
    if count == 1 {
      top := FirstSlot(hash, ids, key);
      NothingFilled(hash, ids, key);
      SlotTaken(hash, ids, key, top, 0, n);
      RecordsOneMore(hash, keys, ids, key, top);
      out := ids + [hash(Suffix(key, top))];
    } else {
      var before, last := PushRepeated(hash, keys, ids, key, count - 1, n);
      top := FirstSlot(hash, before, key);
      SlotTaken(hash, before, key, top, last + 1, n);
      RecordsOneMore(hash, keys + Repeat(key, count - 1), before, key, top);
      out := before + [hash(Suffix(key, top))];
      ConcatAssoc(keys, Repeat(key, count - 1), [key]);
    }
  }

  lemma {:induction false} NothingFilled(hash: string -> string, ids: seq<string>, key: string)
    ensures Filled(hash, SetOf(ids), key, 0)
  {
  }

  lemma {:induction false} RepeatOneMore(key: string, count: nat)
    requires count >= 1
    ensures Repeat(key, count) == Repeat(key, count - 1) + [key]
    ensures Repeat(key, 1) == [key]
  {
  }

  lemma {:induction false} RepeatCount(key: string, count: nat)
    ensures multiset(Repeat(key, count)) == multiset{}[key := count]
  {
    if count > 0 {
      RepeatCount(key, count - 1);
      assert Repeat(key, count) == Repeat(key, count - 1) + [key];
    }
  }

  lemma {:induction false} Listing(counts: multiset<string>) returns (keys: seq<string>)
    ensures multiset(keys) == counts
  {
    keys := [];
    var rest := counts;
    while |rest| > 0
      invariant multiset(keys) + rest == counts
      decreases |rest|
    {
      var key :| key in rest;
      keys := keys + [key];
      rest := rest - multiset{key};
    }
  }

  /** Pushing the repeated key first, or last, gives different ids. */
  lemma {:induction false} TwoOrders(hash: string -> string, rest: seq<string>, key: string, c: nat, n: nat)
    returns (firstIds: seq<string>, lastIds: seq<string>)
    requires Collisionless(hash) && 1 <= n < c && Suffix(key, n) in rest && key !in rest
    ensures Records(hash, Repeat(key, c) + rest, firstIds) && Records(hash, rest + Repeat(key, c), lastIds)
    ensures SetOf(firstIds) != SetOf(lastIds)
  {
    hide *;
    var none: seq<string> := [];
    NothingRecorded(hash);
    var restIds := RecordMore(hash, none, none, rest);
    assert none + rest == rest;
    ReportedIsTaken(hash, rest, restIds, Suffix(key, n));
    var top;
    lastIds, top := PushRepeated(hash, rest, restIds, key, c, n);
    if Suffix(key, top) in rest {
      ReportedIsTaken(hash, rest, restIds, Suffix(key, top));
    }
    var ownIds := RecordMore(hash, none, none, Repeat(key, c));
    assert none + Repeat(key, c) == Repeat(key, c);
    OwnNumbers(hash, key, c, ownIds, top);
    firstIds := StaysOut(hash, Repeat(key, c), ownIds, rest, key, top);
  }

  lemma {:induction false} NothingRecorded(hash: string -> string)
    ensures Records(hash, [], [])
  {
  }

  lemma {:induction false} ClashIsOrderDependent(hash: string -> string, counts: multiset<string>, key: string, n: nat)
    requires Collisionless(hash) && 1 <= n < counts[key] && Suffix(key, n) in counts
    ensures !OrderFree(hash, counts)
  {
    hide Records, Repeat;
    var c := counts[key];
    var rest := Listing(counts[key := 0]);
    assert key !in multiset(rest);
    assert Suffix(key, n) in multiset(rest);
    var firstIds, lastIds := TwoOrders(hash, rest, key, c, n);
    RepeatCount(key, c);
    assert multiset(rest + Repeat(key, c)) == counts;
    assert multiset(Repeat(key, c) + rest) == counts;
  }

  lemma {:induction false} OwnNumbers(hash: string -> string, key: string, count: nat, ids: seq<string>, n: nat)
    requires Collisionless(hash) && Records(hash, Repeat(key, count), ids) && n >= count
    ensures hash(Suffix(key, n)) !in SetOf(ids)
  {
    RepeatCount(key, count);
    var all := multiset(Repeat(key, count));
    forall k, i: nat | k in all && 1 <= i < all[k]
      ensures Suffix(k, i) !in all
    {
      assert |Suffix(k, i)| > |k|;
    }
    RecordsExpected(hash, Repeat(key, count), ids, all);
    if hash(Suffix(key, n)) in Expected(hash, all) {
      var k, i: nat :| k in all && i < all[k] && hash(Suffix(k, i)) == hash(Suffix(key, n));
      SameKeySuffix(hash, key, i, n);
      assert false;
    }
  }

  /** Exactly when the ids do not depend on the order of the findings. */
  lemma {:induction false} OrderFreeExactly(hash: string -> string, counts: multiset<string>)
    requires Collisionless(hash)
    ensures OrderFree(hash, counts) <==> NoClash(counts, counts)
  {
    if NoClash(counts, counts) {
      NoClashIsOrderFree(hash, counts);
    } else {
      var key, n: nat :| key in counts && 1 <= n < counts[key] && Suffix(key, n) in counts;
      ClashIsOrderDependent(hash, counts, key, n);
    }
  }

  /** Locations without '#' never clash, whatever the validator and the rule are called. */
  lemma {:induction false} PlainLocationsNeverClash(counts: multiset<string>, all: multiset<string>)
    requires forall key | key in all :: PlainKey(key)
    ensures NoClash(counts, all)
  {
    forall key | key in all
      ensures PlainTail(key)
    {
      var v, r, l :| key == Key(v, r, l) && '#' !in l;
      assert key[|v| + |r| + 1] == NUL && key[|v| + |r| + 1..] == [NUL] + l;
    }
    forall key, n: nat | key in counts && 1 <= n < counts[key]
      ensures Suffix(key, n) !in all
    {
      NumberedTail(key, n);
    }
  }

  /** What follows some NUL holds no '#'. */
  ghost predicate PlainTail(s: string) {
    exists i | 0 <= i < |s| :: s[i] == NUL && '#' !in s[i..]
  }

  lemma {:induction false} NumberedTail(key: string, n: nat)
    requires n >= 1
    ensures !PlainTail(Suffix(key, n))
  {
    var s := Suffix(key, n);
    DigitsHaveNoNul(Decimal(n));
    assert forall i | |key| < i < |s| :: s[i] == Decimal(n)[i - |key| - 1] && s[i] in Decimal(n);
    assert s[|key|] == '#';
    forall i | 0 <= i < |s| && s[i] == NUL
      ensures '#' in s[i..]
    {
      assert i < |key|;
      assert s[i..][|key| - i] == '#';
    }
  }

  lemma {:induction false} DigitsHaveNoNul(s: string)
    requires AllDigits(s)
    ensures NUL !in s
  {
  }

  ghost predicate PlainKey(key: string) {
    exists v, r, l :: key == Key(v, r, l) && '#' !in l
  }

  // ----- two runs -----

  datatype Delta = Delta(fixed: set<string>, introduced: set<string>, survived: nat)

  function Between(before: seq<Finding>, after: seq<Finding>): Delta {
    var gone := set f | f in before :: f.id;
    var come := set f | f in after :: f.id;
    Delta(gone - come, come - gone, |gone * come|)
  }

  lemma {:induction false} IdSet(findings: seq<Finding>)
    ensures (set f | f in findings :: f.id) == SetOf(Ids(findings))
  {
    forall id | id in SetOf(Ids(findings))
      ensures exists f :: f in findings && f.id == id
    {
      var i :| 0 <= i < |findings| && Ids(findings)[i] == id;
      assert findings[i] in findings;
    }
    forall f | f in findings
      ensures f.id in SetOf(Ids(findings))
    {
      var i :| 0 <= i < |findings| && findings[i] == f;
      assert Ids(findings)[i] == f.id;
    }
  }

  /** Every finding of either run is counted once, however the locations read. */
  lemma {:induction false} DeltaAccounts(hash: string -> string, before: seq<Finding>, beforeKeys: seq<string>,
                                         after: seq<Finding>, afterKeys: seq<string>)
    requires Records(hash, beforeKeys, Ids(before)) && Records(hash, afterKeys, Ids(after))
    ensures var d := Between(before, after);
            |d.fixed| + d.survived == |before| && |d.introduced| + d.survived == |after|
  {
    RecordsDistinct(hash, beforeKeys, Ids(before));
    RecordsDistinct(hash, afterKeys, Ids(after));
    IdSet(before);
    IdSet(after);
    SetOfSize(Ids(before));
    SetOfSize(Ids(after));
    var a, b := SetOf(Ids(before)), SetOf(Ids(after));
    assert a == (a - b) + (a * b);
    assert b == (b - a) + (a * b);
  }

  lemma {:induction false} SetStep<T>(e: set<T>, x: T, b: set<T>)
    requires x !in e
    ensures |(e + {x}) - b| == |e - b| + (if x in b then 0 else 1)
  {
    if x in b {
      assert (e + {x}) - b == e - b;
    } else {
      assert (e + {x}) - b == (e - b) + {x};
    }
  }

  lemma {:induction false} MultisetStep<T>(e: multiset<T>, x: T, b: multiset<T>)
    ensures |(e + multiset{x}) - b| == |e - b| + (if e[x] < b[x] then 0 else 1)
  {
    if e[x] < b[x] {
      assert (e + multiset{x}) - b == e - b;
    } else {
      assert (e + multiset{x}) - b == (e - b) + multiset{x};
    }
  }

  lemma {:induction false} DifferenceCount(
      hash: string -> string, a: multiset<string>, b: multiset<string>, all: multiset<string>)
    requires Collisionless(hash) && a <= all && b <= all && NoClash(a, all) && NoClash(b, all)
    ensures |Expected(hash, a) - Expected(hash, b)| == |a - b|
    decreases |a|
  {
    hide Expected, Collisionless, Suffix;
    if |a| == 0 {
      NothingExpected(hash, a);
      assert |a - b| == 0;
    } else {
      var key :| key in a;
      var less := a - multiset{key};
      assert a == less + multiset{key};
      DifferenceCount(hash, less, b, all);
      OneMoreExpected(hash, less, key);
      InExpected(hash, less, all, key, less[key], a);
      InExpected(hash, b, all, key, less[key], a);
      SetStep(Expected(hash, less), hash(Suffix(key, less[key])), Expected(hash, b));
      MultisetStep(less, key, b);
    }
  }

  lemma {:induction false} NothingExpected(hash: string -> string, a: multiset<string>)
    requires |a| == 0
    ensures Expected(hash, a) == {}
  {
  }

  /** Two runs without clashes compare as multisets do: the summed positive count differences. */
  lemma {:induction false} DeltaCounts(hash: string -> string, before: seq<Finding>, beforeKeys: seq<string>,
                                       after: seq<Finding>, afterKeys: seq<string>)
    requires Collisionless(hash)
    requires Records(hash, beforeKeys, Ids(before)) && Records(hash, afterKeys, Ids(after))
    requires NoClash(multiset(beforeKeys), multiset(beforeKeys + afterKeys))
    requires NoClash(multiset(afterKeys), multiset(beforeKeys + afterKeys))
    ensures var d := Between(before, after);
            var a, b := multiset(beforeKeys), multiset(afterKeys);
            && |d.fixed| == |a - b| && |d.introduced| == |b - a| && d.survived == |a * b|
            && (d.fixed == {} && d.introduced == {} <==> a == b)
  {
    var a, b, all := multiset(beforeKeys), multiset(afterKeys), multiset(beforeKeys + afterKeys);
    RecordsExpected(hash, beforeKeys, Ids(before), all);
    RecordsExpected(hash, afterKeys, Ids(after), all);
    IdSet(before);
    IdSet(after);
    DifferenceCount(hash, a, b, all);
    DifferenceCount(hash, b, a, all);
    DeltaAccounts(hash, before, beforeKeys, after, afterKeys);
    RecordsDistinct(hash, beforeKeys, Ids(before));
    assert a == (a - b) + (a * b);
    assert |before| == |beforeKeys| == |a|;
    if |a - b| == 0 && |b - a| == 0 {
      assert a - b == multiset{} && b - a == multiset{};
      assert a == a * b && b == b * a;
    }
  }
}
