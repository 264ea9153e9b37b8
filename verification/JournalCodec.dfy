/** A line format in which the fields follow one another, each written so that its end can be told:
    everything asked of the line format is true of it at once. */
module JournalCodecs {
  import opened Wrappers
  import opened Text
  import opened Disks
  import opened Journals

  const ZERO: byte := 48
  const ONE: byte := 49
  const CLOSE: byte := 125

  function Unary(n: nat): Bytes {
    if n == 0 then [ONE] else [ZERO] + Unary(n - 1)
  }

  function Codes(s: string): Bytes {
    if s == "" then [] else Unary(s[0] as nat) + Codes(s[1..])
  }

  function OfString(s: string): Bytes {
    Unary(|s|) + Codes(s)
  }

  function OfOption(s: Option<string>): Bytes {
    match s
    case None => Unary(0)
    case Some(value) => Unary(1) + OfString(value)
  }

  function OfDocument(d: DocumentEntry): Bytes {
    OfString(d.path) + (OfOption(d.before) + OfString(d.after))
  }

  function OfDocuments(ds: seq<DocumentEntry>): Bytes {
    if ds == [] then Unary(0) else Unary(1) + (OfDocument(ds[0]) + OfDocuments(ds[1..]))
  }

  function OfFlag(b: bool): Bytes {
    Unary(if b then 1 else 0)
  }

  function Body(e: JournalEntry): Bytes {
    OfString(e.id) + (OfFlag(e.outcome.Applied?) + (OfDocuments(e.documents) + (OfOption(e.root) +
    (OfOption(e.preSnapshotPath) + (OfOption(e.postSnapshotPath) + (OfFlag(e.imagesOmitted) +
    OfOption(e.rollbackToken)))))))
  }

  function Rendered(e: JournalEntry): Bytes {
    [BRACE] + Body(e) + [CLOSE]
  }

  // ----- what was written can be told from what follows it -----

  lemma {:induction false} UnaryFirst(m: nat, n: nat, r: Bytes, q: Bytes)
    requires Unary(m) + r == Unary(n) + q
    ensures m == n && r == q
  {
    var a, b := Unary(m) + r, Unary(n) + q;
    assert a[0] == (if m == 0 then ONE else ZERO) && b[0] == (if n == 0 then ONE else ZERO);
    assert a[1..] == (if m == 0 then r else Unary(m - 1) + r);
    assert b[1..] == (if n == 0 then q else Unary(n - 1) + q);
    if m != 0 {
      UnaryFirst(m - 1, n - 1, r, q);
    }
  }

  lemma {:induction false} CodesFirst(s: string, t: string, r: Bytes, q: Bytes)
    requires |s| == |t| && Codes(s) + r == Codes(t) + q
    ensures s == t && r == q
  {
    if s == "" {
      assert Codes(s) + r == r && Codes(t) + q == q;
    } else {
      ConcatAssoc(Unary(s[0] as nat), Codes(s[1..]), r);
      ConcatAssoc(Unary(t[0] as nat), Codes(t[1..]), q);
      UnaryFirst(s[0] as nat, t[0] as nat, Codes(s[1..]) + r, Codes(t[1..]) + q);
      CodesFirst(s[1..], t[1..], r, q);
      assert s == [s[0]] + s[1..] && t == [t[0]] + t[1..];
    }
  }

  lemma {:induction false} StringFirst(s: string, t: string, r: Bytes, q: Bytes)
    requires OfString(s) + r == OfString(t) + q
    ensures s == t && r == q
  {
    ConcatAssoc(Unary(|s|), Codes(s), r);
    ConcatAssoc(Unary(|t|), Codes(t), q);
    UnaryFirst(|s|, |t|, Codes(s) + r, Codes(t) + q);
    CodesFirst(s, t, r, q);
  }

  lemma {:induction false} OptionFirst(s: Option<string>, t: Option<string>, r: Bytes, q: Bytes)
    requires OfOption(s) + r == OfOption(t) + q
    ensures s == t && r == q
  {
    hide Unary, OfString;
    var a := if s.Some? then OfString(s.value) else [];
    var b := if t.Some? then OfString(t.value) else [];
    assert a + r == (if s.Some? then OfString(s.value) + r else r);
    assert b + q == (if t.Some? then OfString(t.value) + q else q);
    ConcatAssoc(Unary(1), a, r);
    ConcatAssoc(Unary(1), b, q);
    UnaryFirst(if s.Some? then 1 else 0, if t.Some? then 1 else 0, a + r, b + q);
    if s.Some? {
      StringFirst(s.value, t.value, r, q);
    }
  }

  lemma {:induction false} DocumentFirst(d: DocumentEntry, e: DocumentEntry, r: Bytes, q: Bytes)
    requires OfDocument(d) + r == OfDocument(e) + q
    ensures d == e && r == q
  {
    hide OfString, OfOption;
    ConcatAssoc(OfString(d.path), OfOption(d.before) + OfString(d.after), r);
    ConcatAssoc(OfString(e.path), OfOption(e.before) + OfString(e.after), q);
    ConcatAssoc(OfOption(d.before), OfString(d.after), r);
    ConcatAssoc(OfOption(e.before), OfString(e.after), q);
    StringFirst(d.path, e.path, OfOption(d.before) + (OfString(d.after) + r),
                OfOption(e.before) + (OfString(e.after) + q));
    OptionFirst(d.before, e.before, OfString(d.after) + r, OfString(e.after) + q);
    StringFirst(d.after, e.after, r, q);
  }

  lemma {:induction false} DocumentsFirst(d: seq<DocumentEntry>, e: seq<DocumentEntry>, r: Bytes, q: Bytes)
    requires OfDocuments(d) + r == OfDocuments(e) + q
    ensures d == e && r == q
    decreases |d|
  {
    hide Unary, OfDocument;
    var a := if d == [] then [] else OfDocument(d[0]) + OfDocuments(d[1..]);
    var b := if e == [] then [] else OfDocument(e[0]) + OfDocuments(e[1..]);
    ConcatAssoc(Unary(1), a, r);
    ConcatAssoc(Unary(1), b, q);
    assert [] + r == r && [] + q == q;
    UnaryFirst(if d == [] then 0 else 1, if e == [] then 0 else 1, a + r, b + q);
    if d != [] {
      ConcatAssoc(OfDocument(d[0]), OfDocuments(d[1..]), r);
      ConcatAssoc(OfDocument(e[0]), OfDocuments(e[1..]), q);
      DocumentFirst(d[0], e[0], OfDocuments(d[1..]) + r, OfDocuments(e[1..]) + q);
      DocumentsFirst(d[1..], e[1..], r, q);
      assert d == [d[0]] + d[1..] && e == [e[0]] + e[1..];
    }
  }

  lemma {:induction false} FlagFirst(b: bool, c: bool, r: Bytes, q: Bytes)
    requires OfFlag(b) + r == OfFlag(c) + q
    ensures b == c && r == q
  {
    UnaryFirst(if b then 1 else 0, if c then 1 else 0, r, q);
  }

  lemma {:induction false} BodyInjective(d: JournalEntry, e: JournalEntry)
    requires Body(d) == Body(e)
    ensures d == e
  {
    hide OfString, OfOption, OfDocuments, OfFlag;
    var d8, e8 := OfOption(d.rollbackToken), OfOption(e.rollbackToken);
    var d7, e7 := OfFlag(d.imagesOmitted) + d8, OfFlag(e.imagesOmitted) + e8;
    var d6, e6 := OfOption(d.postSnapshotPath) + d7, OfOption(e.postSnapshotPath) + e7;
    var d5, e5 := OfOption(d.preSnapshotPath) + d6, OfOption(e.preSnapshotPath) + e6;
    var d4, e4 := OfOption(d.root) + d5, OfOption(e.root) + e5;
    var d3, e3 := OfDocuments(d.documents) + d4, OfDocuments(e.documents) + e4;
    var d2, e2 := OfFlag(d.outcome.Applied?) + d3, OfFlag(e.outcome.Applied?) + e3;
    StringFirst(d.id, e.id, d2, e2);
    FlagFirst(d.outcome.Applied?, e.outcome.Applied?, d3, e3);
    DocumentsFirst(d.documents, e.documents, d4, e4);
    OptionFirst(d.root, e.root, d5, e5);
    OptionFirst(d.preSnapshotPath, e.preSnapshotPath, d6, e6);
    OptionFirst(d.postSnapshotPath, e.postSnapshotPath, d7, e7);
    FlagFirst(d.imagesOmitted, e.imagesOmitted, d8, e8);
    assert d8 + [] == d8 && e8 + [] == e8;
    OptionFirst(d.rollbackToken, e.rollbackToken, [], []);
  }

  // ----- no brace inside -----

  ghost predicate Digits(b: Bytes) {
    forall i | 0 <= i < |b| :: b[i] == ZERO || b[i] == ONE
  }

  lemma {:induction false} DigitsAppend(a: Bytes, b: Bytes)
    requires Digits(a) && Digits(b)
    ensures Digits(a + b)
  {
  }

  lemma {:induction false} UnaryDigits(n: nat)
    ensures Digits(Unary(n))
  {
    if n > 0 {
      UnaryDigits(n - 1);
    }
  }

  lemma {:induction false} StringDigits(s: string)
    ensures Digits(OfString(s)) && Digits(Codes(s))
  {
    hide Digits, Unary;
    UnaryDigits(|s|);
    if s == "" {
      assert Digits(Codes(s)) by {
        NoDigits();
      }
    } else {
      StringDigits(s[1..]);
      UnaryDigits(s[0] as nat);
      DigitsAppend(Unary(s[0] as nat), Codes(s[1..]));
    }
    DigitsAppend(Unary(|s|), Codes(s));
  }

  lemma {:induction false} NoDigits()
    ensures Digits([])
  {
  }

  lemma {:induction false} OptionDigits(s: Option<string>)
    ensures Digits(OfOption(s))
  {
    hide Digits, Unary, OfString;
    UnaryDigits(0);
    UnaryDigits(1);
    if s.Some? {
      StringDigits(s.value);
      DigitsAppend(Unary(1), OfString(s.value));
    }
  }

  lemma {:induction false} DocumentsDigits(ds: seq<DocumentEntry>)
    ensures Digits(OfDocuments(ds))
  {
    hide Digits, Unary, OfString, OfOption;
    UnaryDigits(0);
    UnaryDigits(1);
    if ds != [] {
      var d := ds[0];
      StringDigits(d.path);
      OptionDigits(d.before);
      StringDigits(d.after);
      DigitsAppend(OfOption(d.before), OfString(d.after));
      DigitsAppend(OfString(d.path), OfOption(d.before) + OfString(d.after));
      DocumentsDigits(ds[1..]);
      DigitsAppend(OfDocument(d), OfDocuments(ds[1..]));
      DigitsAppend(Unary(1), OfDocument(d) + OfDocuments(ds[1..]));
    }
  }

  lemma {:induction false} BodyDigits(e: JournalEntry)
    ensures Digits(Body(e))
  {
    hide Digits, Unary, OfString, OfOption, OfDocuments;
    var e8 := OfOption(e.rollbackToken);
    var e7 := OfFlag(e.imagesOmitted) + e8;
    var e6 := OfOption(e.postSnapshotPath) + e7;
    var e5 := OfOption(e.preSnapshotPath) + e6;
    var e4 := OfOption(e.root) + e5;
    var e3 := OfDocuments(e.documents) + e4;
    var e2 := OfFlag(e.outcome.Applied?) + e3;
    UnaryDigits(0);
    UnaryDigits(1);
    StringDigits(e.id);
    DocumentsDigits(e.documents);
    OptionDigits(e.root);
    OptionDigits(e.preSnapshotPath);
    OptionDigits(e.postSnapshotPath);
    OptionDigits(e.rollbackToken);
    DigitsAppend(OfFlag(e.imagesOmitted), e8);
    DigitsAppend(OfOption(e.postSnapshotPath), e7);
    DigitsAppend(OfOption(e.preSnapshotPath), e6);
    DigitsAppend(OfOption(e.root), e5);
    DigitsAppend(OfDocuments(e.documents), e4);
    DigitsAppend(OfFlag(e.outcome.Applied?), e3);
    DigitsAppend(OfString(e.id), e2);
  }

  // ----- the format -----

  ghost function Parsed(b: Bytes): Option<JournalEntry> {
    if exists e :: Rendered(e) == b then
      var e :| Rendered(e) == b;
      Some(e)
    else None
  }

  predicate Ascii(b: Bytes) {
    forall i | 0 <= i < |b| :: b[i] < 128
  }

  ghost function UnaryCodec(): Codec {
    Codec(e => Rendered(e), b => Parsed(b), b => Ascii(b))
  }

  lemma {:induction false} RenderedShape(e: JournalEntry)
    ensures var text := Rendered(e);
            && |text| >= 2 && text[0] == BRACE && text[|text| - 1] == CLOSE && NEWLINE !in text && Ascii(text)
            && forall i | 0 < i < |text| - 1 :: text[i] == ZERO || text[i] == ONE
  {
    BodyDigits(e);
    hide Body;
    var text, body := Rendered(e), Body(e);
    assert forall i | 0 < i < |text| - 1 :: text[i] == body[i - 1];
  }

  lemma {:induction false} ParsedExactly(b: Bytes, e: JournalEntry)
    ensures Parsed(Rendered(e)) == Some(e)
    ensures (forall d :: Rendered(d) != b) ==> Parsed(b) == None
  {
    hide Body;
    var d := Parsed(Rendered(e)).value;
    assert Rendered(d) == Rendered(e);
    assert Rendered(d)[1..|Rendered(d)| - 1] == Body(d) && Rendered(e)[1..|Rendered(e)| - 1] == Body(e);
    BodyInjective(d, e);
  }

  /** All the laws asked of the line format hold of this one. */
  lemma {:induction false} LawsCanBeMet()
    ensures LineCodec(UnaryCodec())
  {
    hide Rendered, Parsed;
    var codec := UnaryCodec();
    forall e
      ensures Renders(codec, e)
    {
      RenderedShape(e);
      ParsedExactly([], e);
      forall n | 0 <= n < |Rendered(e)|
        ensures Parsed(Rendered(e)[..n]).None?
      {
        PartIsNone(e, n);
      }
    }
    forall text, e
      ensures Glues(codec, text, e)
    {
      RenderedShape(e);
      forall n | 0 < n <= |Rendered(e)|
        ensures Ascii(text + Rendered(e)[..n]) ==> Ascii(text)
        ensures text != [] ==> Parsed(text + Rendered(e)[..n]).None?
      {
        GluedIsNone(text, e, n);
      }
    }
    forall text
      ensures Parsed(text).Some? ==> Ascii(text)
    {
      ParsedIsAscii(text);
    }
  }

  lemma {:induction false} ParsedIsAscii(text: Bytes)
    ensures Parsed(text).Some? ==> Ascii(text)
  {
    hide Rendered;
    if Parsed(text).Some? {
      RenderedShape(Parsed(text).value);
    }
  }

  lemma {:induction false} PartIsNone(e: JournalEntry, n: nat)
    requires n < |Rendered(e)|
    ensures Parsed(Rendered(e)[..n]).None?
  {
    hide Rendered;
    var part := Rendered(e)[..n];
    RenderedShape(e);
    forall d
      ensures Rendered(d) != part
    {
      RenderedShape(d);
      assert n > 0 ==> part[n - 1] == Rendered(e)[n - 1];
    }
    ParsedExactly(part, e);
  }

  lemma {:induction false} GluedIsNone(text: Bytes, e: JournalEntry, n: nat)
    requires 0 < n <= |Rendered(e)|
    ensures Ascii(text + Rendered(e)[..n]) ==> Ascii(text)
    ensures text != [] ==> Parsed(text + Rendered(e)[..n]).None?
  {
    hide Rendered;
    var all := text + Rendered(e)[..n];
    RenderedShape(e);
    assert all[|text|] == BRACE && forall i | 0 <= i < |text| :: all[i] == text[i];
    if text != [] {
      forall d
        ensures Rendered(d) != all
      {
        RenderedShape(d);
      }
      ParsedExactly(all, e);
    }
  }
}
