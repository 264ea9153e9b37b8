/** Strings as the program handles them: code-point order, splitting on a separator,
    and decimal numerals. */
module Text {

  const U64_MAX: nat := 0xFFFF_FFFF_FFFF_FFFF

  // ----- order -----

  /** Strict lexicographic order by code point, which is also the byte order of UTF-8. */
  predicate Less(a: string, b: string) {
    if b == "" then false
    else if a == "" then true
    else if a[0] != b[0] then a[0] < b[0]
    else Less(a[1..], b[1..])
  }

  lemma {:induction false} LessTotal(a: string, b: string)
    ensures Less(a, b) || a == b || Less(b, a)
  {
    if a != "" && b != "" && a[0] == b[0] {
      LessTotal(a[1..], b[1..]);
      assert a == [a[0]] + a[1..] && b == [b[0]] + b[1..];
    }
  }

  lemma {:induction false} LessTransitive(a: string, b: string, c: string)
    requires Less(a, b) && Less(b, c)
    ensures Less(a, c)
  {
    if a != "" && a[0] == b[0] && b[0] == c[0] {
      LessTransitive(a[1..], b[1..], c[1..]);
    }
  }

  lemma {:induction false} LessIrreflexive(a: string)
    ensures !Less(a, a)
  {
    if a != "" {
      LessIrreflexive(a[1..]);
    }
  }

  lemma {:induction false} LessFacts(a: string, b: string, c: string)
    ensures Less(a, b) || a == b || Less(b, a)
    ensures !(Less(a, b) && Less(b, a)) && !Less(a, a)
    ensures Less(a, b) && Less(b, c) ==> Less(a, c)
  {
    LessTotal(a, b);
    LessIrreflexive(a);
    if Less(a, b) && Less(b, a) {
      LessTransitive(a, b, a);
    }
    if Less(a, b) && Less(b, c) {
      LessTransitive(a, b, c);
    }
  }

  /** `a` and `b` agree up to `i`, where `a` ends or holds the lesser character. */
  ghost predicate LessAt(a: string, b: string, i: nat) {
    i <= |a| && i < |b| && a[..i] == b[..i] && (i == |a| || (i < |a| && a[i] < b[i]))
  }

  lemma {:induction false} SameHead<T>(a: seq<T>, b: seq<T>, i: nat)
    requires i <= |a| && i <= |b| && a[..i] == b[..i]
    ensures i > 0 ==> a[0] == b[0]
  {
    assert i > 0 ==> a[..i][0] == b[..i][0];
  }

  /** The order by the first character that differs, an end coming before any character. */
  lemma {:induction false} LessExactly(a: string, b: string)
    ensures Less(a, b) <==> exists i: nat :: LessAt(a, b, i)
  {
    if a == "" || b == "" || a[0] != b[0] {
      if Less(a, b) {
        assert LessAt(a, b, 0);
      }
      if i: nat :| LessAt(a, b, i) {
        SameHead(a, b, i);
      }
    } else {
      LessExactly(a[1..], b[1..]);
      if i: nat :| LessAt(a[1..], b[1..], i) {
        assert a[..i + 1] == [a[0]] + a[1..][..i] && b[..i + 1] == [b[0]] + b[1..][..i];
        assert LessAt(a, b, i + 1);
      }
      if i: nat :| LessAt(a, b, i) {
        assert i > 0;
        assert a[1..][..i - 1] == a[..i][1..] && b[1..][..i - 1] == b[..i][1..];
        assert LessAt(a[1..], b[1..], i - 1);
      }
    }
  }

  /** Paths compare component by component. */
  predicate PathLess(a: seq<string>, b: seq<string>) {
    if b == [] then false
    else if a == [] then true
    else if a[0] != b[0] then Less(a[0], b[0])
    else PathLess(a[1..], b[1..])
  }

  lemma {:induction false} PathTotal(a: seq<string>, b: seq<string>)
    ensures PathLess(a, b) || a == b || PathLess(b, a)
    ensures PathLess(a, b) ==> !PathLess(b, a)
  {
    if a != [] && b != [] {
      LessTotal(a[0], b[0]);
      if Less(a[0], b[0]) && Less(b[0], a[0]) {
        LessTransitive(a[0], b[0], a[0]);
        LessIrreflexive(a[0]);
      }
      PathTotal(a[1..], b[1..]);
      assert a == [a[0]] + a[1..] && b == [b[0]] + b[1..];
    }
  }

  lemma {:induction false} PathTransitive(a: seq<string>, b: seq<string>, c: seq<string>)
    requires PathLess(a, b) && PathLess(b, c)
    ensures PathLess(a, c)
  {
    if a != [] {
      if a[0] == b[0] && b[0] == c[0] {
        PathTransitive(a[1..], b[1..], c[1..]);
      } else if a[0] != b[0] && b[0] != c[0] {
        LessTransitive(a[0], b[0], c[0]);
        LessIrreflexive(a[0]);
      }
    }
  }

  /** `a` and `b` agree up to component `i`, where `a` ends or holds the lesser component. */
  ghost predicate PathLessAt(a: seq<string>, b: seq<string>, i: nat) {
    i <= |a| && i < |b| && a[..i] == b[..i] && (i == |a| || (i < |a| && a[i] != b[i] && Less(a[i], b[i])))
  }

  lemma {:induction false} PathLessExactly(a: seq<string>, b: seq<string>)
    ensures PathLess(a, b) <==> exists i: nat :: PathLessAt(a, b, i)
  {
    hide Less;
    if a == [] || b == [] || a[0] != b[0] {
      if PathLess(a, b) {
        assert PathLessAt(a, b, 0);
      }
      if i: nat :| PathLessAt(a, b, i) {
        SameHead(a, b, i);
      }
    } else {
      PathLessExactly(a[1..], b[1..]);
      if i: nat :| PathLessAt(a[1..], b[1..], i) {
        assert a[..i + 1] == [a[0]] + a[1..][..i] && b[..i + 1] == [b[0]] + b[1..][..i];
        assert PathLessAt(a, b, i + 1);
      }
      if i: nat :| PathLessAt(a, b, i) {
        assert i > 0;
        assert a[1..][..i - 1] == a[..i][1..] && b[1..][..i - 1] == b[..i][1..];
        assert PathLessAt(a[1..], b[1..], i - 1);
      }
    }
  }

  /** Named so that a proof can use it without opening the sequences up. */
  lemma {:induction false} ConcatAssoc<T>(a: seq<T>, b: seq<T>, c: seq<T>)
    ensures a + (b + c) == a + b + c
  {
  }

  lemma {:induction false} TakeOneMore<T>(s: seq<T>, k: nat)
    requires k < |s|
    ensures s[..k + 1] == s[..k] + [s[k]]
  {
  }

  lemma {:induction false} SliceOneMore<T>(s: seq<T>, from: nat, k: nat)
    requires from <= k < |s|
    ensures s[from..k + 1] == s[from..k] + [s[k]] && s[from..] == s[from..k + 1] + s[k + 1..]
  {
  }

  // ----- searching -----

  predicate StartsWith(s: string, prefix: string) {
    |prefix| <= |s| && s[..|prefix|] == prefix
  }

  predicate Contains(s: string, part: string) {
    exists i | 0 <= i <= |s| :: StartsWith(s[i..], part)
  }

  /** Position of the first `c` in `s`, or the length of `s`. */
  function IndexOf(s: string, c: char): (n: nat)
    ensures n <= |s|
    ensures c !in s[..n]
    ensures n < |s| ==> s[n] == c
  {
    if s == "" || s[0] == c then 0
    else
      var n := IndexOf(s[1..], c);
      assert s[..n + 1] == [s[0]] + s[1..][..n];
      n + 1
  }

  lemma {:induction false} IndexOfIn(p: string, c: char, rest: string)
    requires c !in p
    ensures IndexOf(p + [c] + rest, c) == |p|
  {
    var s := p + [c] + rest;
    assert s[|p|] == c;
    assert forall i | 0 <= i < |p| :: s[i] == p[i] && p[i] in p;
  }

  // ----- splitting and joining -----

  function Split(s: string, sep: char): (parts: seq<string>)
    ensures |parts| >= 1
  {
    if s == "" then [""]
    else if s[0] == sep then [""] + Split(s[1..], sep)
    else
      var rest := Split(s[1..], sep);
      [[s[0]] + rest[0]] + rest[1..]
  }

  function Join(parts: seq<string>, sep: char): string
    requires |parts| >= 1
  {
    if |parts| == 1 then parts[0] else parts[0] + [sep] + Join(parts[1..], sep)
  }

  ghost predicate Free(parts: seq<string>, c: char) {
    forall i | 0 <= i < |parts| :: c !in parts[i]
  }

  lemma {:induction false} JoinOfSplit(s: string, sep: char)
    ensures Join(Split(s, sep), sep) == s
  {
    if s != "" {
      JoinOfSplit(s[1..], sep);
      var rest := Split(s[1..], sep);
      if s[0] == sep {
        assert Split(s, sep)[1..] == rest;
      } else {
        assert Split(s, sep)[1..] == rest[1..];
      }
    }
  }

  lemma {:induction false} SplitFree(s: string, sep: char)
    ensures Free(Split(s, sep), sep)
  {
    if s != "" {
      SplitFree(s[1..], sep);
    }
  }

  /** No part of a split holds a character the string did not hold. */
  lemma {:induction false} SplitKeeps(s: string, sep: char, c: char)
    requires c !in s
    ensures Free(Split(s, sep), c)
  {
    if s != "" {
      SplitKeeps(s[1..], sep, c);
    }
  }

  lemma {:induction false} SplitPrepend(p: string, s: string, sep: char)
    requires sep !in p
    ensures Split(p + s, sep) == [p + Split(s, sep)[0]] + Split(s, sep)[1..]
  {
    if p == "" {
      assert p + s == s;
      assert "" + Split(s, sep)[0] == Split(s, sep)[0];
    } else {
      assert (p + s)[1..] == p[1..] + s;
      SplitPrepend(p[1..], s, sep);
      assert [p[0]] + (p[1..] + Split(s, sep)[0]) == p + Split(s, sep)[0];
    }
  }

  /** The last part is what follows the last separator. */
  lemma {:induction false} SplitLast(p: string, s: string, sep: char)
    requires sep !in s
    ensures var parts := Split(p + [sep] + s, sep); parts[|parts| - 1] == s && |parts| >= 2
  {
    if p == "" {
      assert (p + [sep] + s)[1..] == s;
      SplitPrepend(s, "", sep);
      assert s + "" == s;
    } else {
      SplitLast(p[1..], s, sep);
      assert (p + [sep] + s)[1..] == p[1..] + [sep] + s;
    }
  }

  lemma {:induction false} SplitOfJoin(parts: seq<string>, sep: char)
    requires |parts| >= 1 && Free(parts, sep)
    ensures Split(Join(parts, sep), sep) == parts
  {
    if |parts| == 1 {
      SplitPrepend(parts[0], "", sep);
      assert parts[0] + "" == parts[0];
    } else {
      var tail := [sep] + Join(parts[1..], sep);
      SplitOfJoin(parts[1..], sep);
      assert tail[1..] == Join(parts[1..], sep);
      SplitPrepend(parts[0], tail, sep);
      assert parts[0] + tail == Join(parts, sep);
      assert parts[0] + "" == parts[0];
      assert parts == [parts[0]] + parts[1..];
    }
  }

  lemma {:induction false} JoinAvoids(parts: seq<string>, sep: char, c: char)
    requires |parts| >= 1 && Free(parts, c) && c != sep
    ensures c !in Join(parts, sep)
  {
    if |parts| > 1 {
      JoinAvoids(parts[1..], sep, c);
    }
  }

  // ----- white space -----

  /** Unicode white space, as `trim` understands it. */
  predicate IsSpace(c: char) {
    var n := c as int;
    || 9 <= n <= 13 || n == 0x20 || n == 0x85 || n == 0xA0 || n == 0x1680
    || 0x2000 <= n <= 0x200A || n == 0x2028 || n == 0x2029 || n == 0x202F || n == 0x205F || n == 0x3000
  }

  function TrimStart(s: string): string {
    if s != "" && IsSpace(s[0]) then TrimStart(s[1..]) else s
  }

  function TrimEnd(s: string): string {
    if s != "" && IsSpace(s[|s| - 1]) then TrimEnd(s[..|s| - 1]) else s
  }

  function Trim(s: string): string {
    TrimEnd(TrimStart(s))
  }

  /** The code points with the Unicode property White_Space. */
  const WHITE_SPACE: set<int> :=
    {0x9, 0xA, 0xB, 0xC, 0xD, 0x20, 0x85, 0xA0, 0x1680, 0x2000, 0x2001, 0x2002, 0x2003, 0x2004, 0x2005, 0x2006,
     0x2007, 0x2008, 0x2009, 0x200A, 0x2028, 0x2029, 0x202F, 0x205F, 0x3000}

  ghost predicate Blank(s: string) {
    forall i | 0 <= i < |s| :: s[i] as int in WHITE_SPACE
  }

  lemma {:induction false} SpaceExactly(c: char)
    ensures IsSpace(c) <==> c as int in WHITE_SPACE
  {
  }

  lemma {:induction false} StartTrimmed(s: string) returns (front: string)
    ensures s == front + TrimStart(s) && Blank(front)
    ensures TrimStart(s) != "" ==> !IsSpace(TrimStart(s)[0])
  {
    if s != "" && IsSpace(s[0]) {
      SpaceExactly(s[0]);
      front := StartTrimmed(s[1..]);
      front := [s[0]] + front;
    } else {
      front := "";
    }
  }

  lemma {:induction false} EndTrimmed(s: string) returns (back: string)
    ensures s == TrimEnd(s) + back && Blank(back)
    ensures TrimEnd(s) != "" ==> !IsSpace(TrimEnd(s)[|TrimEnd(s)| - 1])
  {
    if s != "" && IsSpace(s[|s| - 1]) {
      SpaceExactly(s[|s| - 1]);
      back := EndTrimmed(s[..|s| - 1]);
      assert s == s[..|s| - 1] + [s[|s| - 1]];
      back := back + [s[|s| - 1]];
    } else {
      back := "";
    }
  }

  lemma {:induction false} StartOff(front: string, rest: string)
    requires Blank(front) && (rest == "" || !IsSpace(rest[0]))
    ensures TrimStart(front + rest) == rest
  {
    if front == "" {
      assert front + rest == rest;
    } else {
      SpaceExactly(front[0]);
      assert (front + rest)[1..] == front[1..] + rest && (front + rest)[0] == front[0];
      StartOff(front[1..], rest);
    }
  }

  lemma {:induction false} EndOff(rest: string, back: string)
    requires Blank(back) && (rest == "" || !IsSpace(rest[|rest| - 1]))
    ensures TrimEnd(rest + back) == rest
    decreases |back|
  {
    if back == "" {
      assert rest + back == rest;
    } else {
      var s, last := rest + back, back[|back| - 1];
      SpaceExactly(last);
      assert s[|s| - 1] == last && s[..|s| - 1] == rest + back[..|back| - 1];
      EndOff(rest, back[..|back| - 1]);
    }
  }

  lemma {:induction false} BlankJoin(a: string, b: string)
    requires Blank(a) && Blank(b)
    ensures Blank(a + b)
  {
  }

  /** `t` stands in `s` between white space, and has none of its own at either end. */
  ghost predicate TrimmedTo(s: string, t: string) {
    exists front, back :: Around(s, front, t, back) && Edged(t)
  }

  ghost predicate Around(s: string, front: string, t: string, back: string) {
    s == front + t + back && Blank(front) && Blank(back)
  }

  ghost predicate Edged(t: string) {
    t == "" || (t[0] as int !in WHITE_SPACE && t[|t| - 1] as int !in WHITE_SPACE)
  }

  lemma {:induction false} TrimTakesOff(front: string, name: string, back: string)
    requires Blank(front) && Blank(back)
    requires name == "" || (!IsSpace(name[0]) && !IsSpace(name[|name| - 1]))
    ensures Trim(front + name + back) == name
  {
    if name == "" {
      BlankJoin(front, back);
      assert front + name + back == (front + back) + "";
      StartOff(front + back, "");
    } else {
      assert front + name + back == front + (name + back);
      StartOff(front, name + back);
      EndOff(name, back);
    }
  }

  /** Trimming takes off the white space at both ends and no more. */
  lemma {:induction false} TrimExactly(s: string, t: string)
    ensures Trim(s) == t <==> TrimmedTo(s, t)
  {
    hide IsSpace, TrimStart, TrimEnd;
    EdgedExactly(t);
    if Trim(s) == t {
      var front := StartTrimmed(s);
      var back := EndTrimmed(TrimStart(s));
      assert front + (t + back) == front + t + back;
      assert t != "" ==> t[0] == TrimStart(s)[0];
      assert Around(s, front, t, back);
    }
    if TrimmedTo(s, t) {
      var front, back :| Around(s, front, t, back) && Edged(t);
      TrimTakesOff(front, t, back);
    }
  }

  lemma {:induction false} EdgedExactly(t: string)
    ensures Edged(t) <==> t == "" || (!IsSpace(t[0]) && !IsSpace(t[|t| - 1]))
  {
    if t != "" {
      SpaceExactly(t[0]);
      SpaceExactly(t[|t| - 1]);
    }
  }

  // ----- decimal numerals -----

  predicate IsDigit(c: char) {
    '0' <= c <= '9'
  }

  /** True of the empty string too, as an iterator's `all` is. */
  predicate AllDigits(s: string) {
    forall i | 0 <= i < |s| :: IsDigit(s[i])
  }

  function Digit(d: nat): (c: char)
    requires d < 10
    ensures IsDigit(c)
  {
    '0' + d as char
  }

  function Decimal(n: nat): (s: string)
    ensures |s| >= 1 && AllDigits(s)
  {
    if n < 10 then [Digit(n)] else Decimal(n / 10) + [Digit(n % 10)]
  }

  function DecimalValue(s: string): nat
    requires AllDigits(s)
  {
    if s == "" then 0
    else 10 * DecimalValue(s[..|s| - 1]) + (s[|s| - 1] as int - '0' as int)
  }

  /** A numeral written with leading zeros. */
  predicate Padded(s: string) {
    AllDigits(s) && |s| > 1 && s[0] == '0'
  }

  lemma {:induction false} ValueOfDecimal(n: nat)
    ensures DecimalValue(Decimal(n)) == n
  {
    if n < 10 {
      assert Decimal(n)[..0] == "";
    } else {
      ValueOfDecimal(n / 10);
      var s := Decimal(n);
      assert s[..|s| - 1] == Decimal(n / 10);
    }
  }

  lemma {:induction false} DecimalInjective(m: nat, n: nat)
    requires Decimal(m) == Decimal(n)
    ensures m == n
  {
    ValueOfDecimal(m);
    ValueOfDecimal(n);
  }

  lemma {:induction false} DecimalOfValue(s: string)
    requires s != "" && AllDigits(s)
    ensures |Decimal(DecimalValue(s))| <= |s|
    ensures Decimal(DecimalValue(s)) == s <==> !Padded(s)
    ensures DecimalValue(s) == 0 <==> forall i | 0 <= i < |s| :: s[i] == '0'
    ensures Padded(s) ==> |Decimal(DecimalValue(s))| < |s|
  {
    hide Decimal, DecimalValue;
    var init, last := s[..|s| - 1], s[|s| - 1];
    assert s == init + [last];
    LastDigit(s);
    var d := DecimalValue(s) % 10;
    if init == "" {
      OneDigit(d);
    } else {
      DecimalOfValue(init);
      var v := DecimalValue(init);
      assert init[0] == s[0] && forall i | 0 <= i < |init| :: init[i] == s[i];
      OneDigit(d);
      if v == 0 {
        assert s[0] == '0';
      } else {
        MoreDigits(DecimalValue(s));
        SmallDecimal(v);
        assert |init| == 1 ==> Decimal(v) == init && s[0] != '0';
        assert Decimal(DecimalValue(s)) == Decimal(v) + [last];
      }
    }
  }

  lemma {:induction false} LastDigit(s: string)
    requires s != "" && AllDigits(s)
    ensures AllDigits(s[..|s| - 1])
    ensures DecimalValue(s) / 10 == DecimalValue(s[..|s| - 1]) && s[|s| - 1] == Digit(DecimalValue(s) % 10)
    ensures DecimalValue("") == 0
  {
  }

  lemma {:induction false} OneDigit(d: nat)
    requires d < 10
    ensures Decimal(d) == [Digit(d)] && (Digit(d) == '0' <==> d == 0)
  {
  }

  lemma {:induction false} MoreDigits(n: nat)
    requires n >= 10
    ensures Decimal(n) == Decimal(n / 10) + [Digit(n % 10)]
  {
  }

  lemma {:induction false} SmallDecimal(v: nat)
    ensures |Decimal(v)| == 1 ==> v < 10 && Decimal(v) == [Digit(v)]
  {
    if v >= 10 {
      MoreDigits(v);
    }
  }
}
