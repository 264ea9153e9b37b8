/** References to earlier outputs: their text, how they are read, looked up and rewritten. */
module Refs {
  import opened Wrappers
  import opened Text
  import opened Json

  // ----- references and their printed form -----

  datatype Segment = Key(name: string) | Index(index: nat)

  datatype Reference = Reference(op: string, path: seq<Segment>)

  function SegmentText(segment: Segment): string {
    match segment
    case Key(k) => k
    case Index(i) => Decimal(i)
  }

  function PathText(path: seq<Segment>): string {
    if path == [] then "" else "." + SegmentText(path[0]) + PathText(path[1..])
  }

  /** What stands between the braces. */
  function Body(reference: Reference): string {
    reference.op + PathText(reference.path)
  }

  function Show(reference: Reference): string {
    "${" + Body(reference) + "}"
  }

  datatype RefError =
    | Unterminated(text: string)
    | Malformed(text: string)
    | UnknownOp(reference: string, op: string)
    | NoSuchPath(reference: string)
    | NotScalar(reference: string)

  function Code(error: RefError): string {
    match error
    case Unterminated(_) => "ref_unterminated"
    case Malformed(_) => "ref_malformed"
    case UnknownOp(_, _) => "ref_unknown_op"
    case NoSuchPath(_) => "ref_no_such_path"
    case NotScalar(_) => "ref_not_scalar"
  }

  function Describe(error: RefError): string {
    match error
    case Unterminated(text) => "'" + text + "' opens a ${ reference and never closes it"
    case Malformed(text) => "'${" + text + "}' is not a reference; expected ${op} or ${op.field.0}"
    case UnknownOp(r, op) => r + " refers to '" + op + "', which is not an earlier operation in this plan"
    case NoSuchPath(r) => r + " has no such field in that operation's output"
    case NotScalar(r) => r + " resolves to an object or array, which cannot be embedded in a string"
  }

  // ----- parsing one reference -----

  predicate IsIdChar(c: char) {
    'a' <= c <= 'z' || 'A' <= c <= 'Z' || IsDigit(c) || c == '_' || c == '-'
  }

  predicate IsValidRefTarget(target: string) {
    target != "" && forall i | 0 <= i < |target| :: IsIdChar(target[i]) || target[i] == '/'
  }

  /** The position an `ops[N]` target names. */
  function PositionTarget(target: string): Option<nat> {
    if !StartsWith(target, "ops[") || |target| < 5 || target[|target| - 1] != ']' then None
    else
      var digits := target[4..|target| - 1];
      if digits == "" || !AllDigits(digits) || DecimalValue(digits) > U64_MAX then None
      else Some(DecimalValue(digits))
  }

  predicate IsTarget(target: string) {
    IsValidRefTarget(target) || PositionTarget(target).Some?
  }

  /** One dotted part after the target; `None` when it makes the reference malformed. */
  function ParseSegment(part: string): Option<Segment> {
    if part == "" then None
    else if AllDigits(part) then
      if DecimalValue(part) <= U64_MAX then Some(Index(DecimalValue(part))) else None
    else Some(Key(part))
  }

  function ParsePath(parts: seq<string>): Option<seq<Segment>> {
    if parts == [] then Some([])
    else
      match ParseSegment(parts[0])
      case None => None
      case Some(segment) =>
        match ParsePath(parts[1..])
        case None => None
        case Some(rest) => Some([segment] + rest)
  }

  function ParseReference(body: string): Result<Reference, RefError> {
    var parts := Split(body, '.');
    if !IsTarget(parts[0]) then Failure(Malformed(body))
    else
      match ParsePath(parts[1..])
      case None => Failure(Malformed(body))
      case Some(path) => Success(Reference(parts[0], path))
  }

  lemma {:induction false} ParsePathSplit(front: seq<string>, back: seq<string>)
    ensures ParsePath(front + back) ==
            if ParsePath(front).Some? && ParsePath(back).Some?
            then Some(ParsePath(front).value + ParsePath(back).value) else None
  {
    if front == [] {
      assert front + back == back;
      assert ParsePath(back).Some? ==> [] + ParsePath(back).value == ParsePath(back).value;
    } else {
      assert (front + back)[1..] == front[1..] + back;
      ParsePathSplit(front[1..], back);
      if ParsePath(front).Some? && ParsePath(back).Some? {
        var first := [ParseSegment(front[0]).value];
        var rest := ParsePath(front[1..]).value;
        assert first + (rest + ParsePath(back).value) == (first + rest) + ParsePath(back).value;
      }
    }
  }

  method ReadReference(body: string) returns (r: Result<Reference, RefError>)
    ensures r == ParseReference(body)
  {
    var parts := Split(body, '.');
    var op := parts[0];
    if !IsValidRefTarget(op) && PositionTarget(op).None? {
      return Failure(Malformed(body));
    }
    var path := [];
    for i := 1 to |parts|
      invariant ParsePath(parts[1..i]) == Some(path)
    {
      SliceOneMore(parts, 1, i);
      ParsePathSplit(parts[1..i], [parts[i]]);
      ParsePathSplit(parts[1..i + 1], parts[i + 1..]);
      assert ParsePath([parts[i]]) ==
             match ParseSegment(parts[i]) case None => None case Some(segment) => Some([segment]) by {
        assert [parts[i]][1..] == [] && ParsePath([]) == Some([]);
        assert forall segment: Segment :: [segment] + [] == [segment];
      }
      var part := parts[i];
      if part == "" {
        return Failure(Malformed(body));
      }
      if AllDigits(part) {
        if DecimalValue(part) > U64_MAX {
          return Failure(Malformed(body));
        }
        path := path + [Index(DecimalValue(part))];
      } else {
        path := path + [Key(part)];
      }
    }
    assert parts[1..|parts|] == parts[1..];
    r := Success(Reference(op, path));
  }

  // ----- parsing a string -----

  /** What the cursor meets, one character or one reference at a time. */
  datatype Token = Chr(c: char) | Ref(reference: Reference)

  datatype Piece = Text(text: string) | Named(reference: Reference)

  /** What a string comes to: no reference at all, nothing but one, or text with references in it. */
  datatype Parsed = Literal(text: string) | Whole(reference: Reference) | Mixed(pieces: seq<Piece>)

  predicate StartsEscape(s: string) {
    |s| >= 3 && s[0] == '$' && s[1] == '$' && s[2] == '{'
  }

  predicate StartsRef(s: string) {
    |s| >= 2 && s[0] == '$' && s[1] == '{'
  }

  /** The tokens of `s`, the unread rest of the string `whole`. */
  function Tokens(whole: string, s: string): Result<seq<Token>, RefError> {
    if s == "" then Success([])
    else if StartsEscape(s) then
      var rest :- Tokens(whole, s[3..]);
      Success([Chr('$'), Chr('{')] + rest)
    else if StartsRef(s) then
      var n := IndexOf(s[2..], '}');
      if n == |s[2..]| then Failure(Unterminated(whole))
      else
        var reference :- ParseReference(s[2..][..n]);
        var rest :- Tokens(whole, s[3 + n..]);
        Success([Ref(reference)] + rest)
    else
      var rest :- Tokens(whole, s[1..]);
      Success([Chr(s[0])] + rest)
  }

  function Flush(literal: string): seq<Piece> {
    if literal == "" then [] else [Text(literal)]
  }

  /** Tokens gathered into runs of text and references, `literal` being the open run. */
  function Group(literal: string, tokens: seq<Token>): seq<Piece>
    decreases |tokens|
  {
    if tokens == [] then Flush(literal)
    else match tokens[0]
      case Chr(c) => Group(literal + [c], tokens[1..])
      case Ref(r) => Flush(literal) + [Named(r)] + Group("", tokens[1..])
  }

  function Classify(pieces: seq<Piece>): Parsed {
    if |pieces| > 1 then Mixed(pieces)
    else if pieces == [] then Literal("")
    else match pieces[0]
      case Text(t) => Literal(t)
      case Named(r) => Whole(r)
  }

  function Parse(s: string): Result<Parsed, RefError> {
    var tokens :- Tokens(s, s);
    Success(Classify(Group("", tokens)))
  }

  /** Where the cursor loop ends up from position `s` with `pieces` done and `literal` open. */
  ghost function Remaining(whole: string, s: string, pieces: seq<Piece>, literal: string)
    : Result<seq<Piece>, RefError>
  {
    var tokens :- Tokens(whole, s);
    Success(pieces + Group(literal, tokens))
  }

  /** Text that opens no reference reads as itself, character by character. */
  lemma {:induction false} PlainTokens(whole: string, s: string, literal: string)
    requires forall i | 0 <= i < |s| :: !StartsRef(s[i..]) && !StartsEscape(s[i..])
    ensures Tokens(whole, s).Success?
    ensures Group(literal, Tokens(whole, s).value) == Flush(literal + s)
  {
    if s == "" {
      assert literal + s == literal;
    } else {
      assert !StartsRef(s[0..]) && !StartsEscape(s[0..]) && s[0..] == s;
      forall i | 0 <= i < |s[1..]|
        ensures !StartsRef(s[1..][i..]) && !StartsEscape(s[1..][i..])
      {
        assert s[1..][i..] == s[i + 1..];
      }
      PlainTokens(whole, s[1..], literal + [s[0]]);
      assert literal + s == literal + [s[0]] + s[1..];
      var rest := Tokens(whole, s[1..]).value;
      assert ([Chr(s[0])] + rest)[1..] == rest;
    }
  }

  lemma {:induction false} NoMarkerIsPlain(s: string)
    requires !Contains(s, "${") && !Contains(s, "$$")
    ensures forall i | 0 <= i < |s| :: !StartsRef(s[i..]) && !StartsEscape(s[i..])
  {
    forall i | 0 <= i < |s|
      ensures !StartsRef(s[i..]) && !StartsEscape(s[i..])
    {
      assert !StartsWith(s[i..], "${") && !StartsWith(s[i..], "$$");
      if |s[i..]| >= 2 {
        assert s[i..][..2] == [s[i..][0], s[i..][1]];
      }
    }
  }

  lemma {:induction false} NothingRemains(whole: string, pieces: seq<Piece>, literal: string)
    ensures Remaining(whole, "", pieces, literal) == Success(pieces + Flush(literal))
  {
  }

  method ParseString(input: string) returns (r: Result<Parsed, RefError>)
    ensures r == Parse(input)
  {
    if !Contains(input, "${") && !Contains(input, "$$") {
      NoMarkerIsPlain(input);
      PlainTokens(input, input, "");
      assert "" + input == input;
      return Success(Literal(input));
    }
    var found := ReadPieces(input);
    if found.Failure? {
      return Failure(found.error);
    }
    var pieces := found.value;
    assert forall more: seq<Piece> :: [] + more == more;
    if |pieces| > 1 {
      return Success(Mixed(pieces));
    }
    if pieces == [] {
      return Success(Literal(""));
    }
    match pieces[0]
    case Text(t) => r := Success(Literal(t));
    case Named(n) => r := Success(Whole(n));
  }

  /** The cursor loop. */
  method ReadPieces(input: string) returns (r: Result<seq<Piece>, RefError>)
    ensures r == Remaining(input, input, [], "")
  {
    hide Remaining, ParseReference;
    var pieces: seq<Piece> := [];
    var literal := "";
    var i := 0;
    ghost var goal := Remaining(input, input, [], "");
    assert input[0..] == input;
    while i < |input|
      invariant 0 <= i <= |input|
      invariant Remaining(input, input[i..], pieces, literal) == goal
    {
      if input[i] == '$' && i + 2 < |input| && input[i + 1] == '$' && input[i + 2] == '{' {
        EscapeStep(input, i, pieces, literal);
        literal := literal + "${";
        i := i + 3;
        continue;
      }
      if input[i] == '$' && i + 1 < |input| && input[i + 1] == '{' {
        var off := IndexOf(input[i + 2..], '}');
        if off == |input[i + 2..]| {
          UnterminatedStep(input, i, pieces, literal);
          return Failure(Unterminated(input));
        }
        var end := i + 2 + off;
        var reference := ReadReference(input[i + 2..end]);
        RefStep(input, i, off, pieces, literal);
        if reference.Failure? {
          return Failure(reference.error);
        }
        assert literal == "" ==> pieces + Flush(literal) == pieces;
        if literal != "" {
          pieces := pieces + [Text(literal)];
          literal := "";
        }
        pieces := pieces + [Named(reference.value)];
        i := end + 1;
        continue;
      }
      CursorView(input, i);
      CharStep(input, i, pieces, literal);
      literal := literal + [input[i]];
      i := i + 1;
    }
    assert input[i..] == "";
    NothingRemains(input, pieces, literal);
    assert literal == "" ==> pieces + Flush(literal) == pieces;
    if literal != "" {
      pieces := pieces + [Text(literal)];
    }
    r := Success(pieces);
  }

  /** The cursor's tests at position `i`, seen from the unread rest. */
  lemma {:induction false} CursorView(s: string, i: nat)
    requires i <= |s|
    ensures StartsEscape(s[i..]) <==> i + 2 < |s| && s[i] == '$' && s[i + 1] == '$' && s[i + 2] == '{'
    ensures StartsRef(s[i..]) <==> i + 1 < |s| && s[i] == '$' && s[i + 1] == '{'
  {
    assert forall k | 0 <= k < |s[i..]| :: s[i..][k] == s[i + k];
  }

  lemma {:induction false} EscapeStep(whole: string, i: nat, pieces: seq<Piece>, literal: string)
    requires i + 2 < |whole| && whole[i] == '$' && whole[i + 1] == '$' && whole[i + 2] == '{'
    ensures Remaining(whole, whole[i..], pieces, literal) == Remaining(whole, whole[i + 3..], pieces, literal + "${")
  {
    CursorView(whole, i);
    assert whole[i..][3..] == whole[i + 3..];
    var next := Tokens(whole, whole[i + 3..]);
    if next.Success? {
      var tokens := [Chr('$'), Chr('{')] + next.value;
      assert tokens[1..] == [Chr('{')] + next.value && tokens[1..][1..] == next.value;
      assert Group(literal, tokens) == Group(literal + ['$'], tokens[1..]);
      assert literal + "${" == literal + ['$'] + ['{'];
    }
  }

  lemma {:induction false} UnterminatedStep(whole: string, i: nat, pieces: seq<Piece>, literal: string)
    requires i + 1 < |whole| && whole[i] == '$' && whole[i + 1] == '{'
    requires IndexOf(whole[i + 2..], '}') == |whole[i + 2..]|
    ensures Remaining(whole, whole[i..], pieces, literal) == Failure(Unterminated(whole))
  {
    CursorView(whole, i);
    assert whole[i..][2..] == whole[i + 2..];
  }

  lemma {:induction false} RefStep(whole: string, i: nat, n: nat, pieces: seq<Piece>, literal: string)
    requires i + 1 < |whole| && whole[i] == '$' && whole[i + 1] == '{'
    requires n == IndexOf(whole[i + 2..], '}') < |whole[i + 2..]|
    ensures Remaining(whole, whole[i..], pieces, literal) ==
            match ParseReference(whole[i + 2..i + 2 + n])
            case Failure(e) => Failure(e)
            case Success(r) => Remaining(whole, whole[i + 3 + n..], pieces + Flush(literal) + [Named(r)], "")
  {
    CursorView(whole, i);
    assert whole[i..][2..] == whole[i + 2..] && whole[i + 2..][..n] == whole[i + 2..i + 2 + n];
    assert whole[i..][3 + n..] == whole[i + 3 + n..];
    var parsed := ParseReference(whole[i + 2..i + 2 + n]);
    var next := Tokens(whole, whole[i + 3 + n..]);
    if parsed.Success? && next.Success? {
      assert ([Ref(parsed.value)] + next.value)[1..] == next.value;
      var tail := Group("", next.value);
      assert pieces + (Flush(literal) + [Named(parsed.value)] + tail)
          == (pieces + Flush(literal) + [Named(parsed.value)]) + tail;
    }
  }

  lemma {:induction false} CharStep(whole: string, i: nat, pieces: seq<Piece>, literal: string)
    requires i < |whole| && !StartsEscape(whole[i..]) && !StartsRef(whole[i..])
    ensures Remaining(whole, whole[i..], pieces, literal) ==
              Remaining(whole, whole[i + 1..], pieces, literal + [whole[i]])
  {
    assert whole[i..][1..] == whole[i + 1..];
    var next := Tokens(whole, whole[i + 1..]);
    if next.Success? {
      assert ([Chr(whole[i])] + next.value)[1..] == next.value;
    }
  }

  // ----- looking a reference up -----

  type Outputs = map<string, Json>

  function Step(value: Json, segment: Segment): Option<Json> {
    match (segment, value)
    case (Key(k), Obj(fields)) => Get(fields, k)
    case (Index(i), Arr(items)) => if i < |items| then Some(items[i]) else None
    case (Index(i), Obj(fields)) => Get(fields, Decimal(i))
    case _ => None
  }

  function Walk(value: Json, path: seq<Segment>): Option<Json>
    decreases |path|
  {
    if path == [] then Some(value)
    else match Step(value, path[0])
      case None => None
      case Some(next) => Walk(next, path[1..])
  }

  function Lookup(reference: Reference, outputs: Outputs): Result<Json, RefError> {
    if reference.op !in outputs then Failure(UnknownOp(Show(reference), reference.op))
    else match Walk(outputs[reference.op], reference.path)
      case None => Failure(NoSuchPath(Show(reference)))
      case Some(value) => Success(value)
  }

  method FollowReference(reference: Reference, outputs: Outputs) returns (r: Result<Json, RefError>)
    ensures r == Lookup(reference, outputs)
  {
    if reference.op !in outputs {
      return Failure(UnknownOp(Show(reference), reference.op));
    }
    var cursor := outputs[reference.op];
    for k := 0 to |reference.path|
      invariant Walk(outputs[reference.op], reference.path) == Walk(cursor, reference.path[k..])
    {
      var next := Step(cursor, reference.path[k]);
      assert reference.path[k..][1..] == reference.path[k + 1..];
      if next.None? {
        return Failure(NoSuchPath(Show(reference)));
      }
      cursor := next.value;
    }
    r := Success(cursor);
  }

  // ----- scanning, resolving and rewriting a value -----

  function PieceRefs(pieces: seq<Piece>): seq<Reference> {
    if pieces == [] then []
    else (if pieces[0].Named? then [pieces[0].reference] else []) + PieceRefs(pieces[1..])
  }

  function ParsedRefs(parsed: Parsed): seq<Reference> {
    match parsed
    case Literal(_) => []
    case Whole(r) => [r]
    case Mixed(pieces) => PieceRefs(pieces)
  }

  /** Every reference in a value, in document order, or the first one that does not parse. */
  function Scan(value: Json): Result<seq<Reference>, RefError> {
    match value
    case Str(s) =>
      var parsed :- Parse(s);
      Success(ParsedRefs(parsed))
    case Arr(items) => ScanItems(items)
    case Obj(fields) => ScanFields(fields)
    case _ => Success([])
  }

  function ScanItems(items: seq<Json>): Result<seq<Reference>, RefError> {
    if items == [] then Success([])
    else
      var first :- Scan(items[0]);
      var rest :- ScanItems(items[1..]);
      Success(first + rest)
  }

  function ScanFields(fields: seq<Field>): Result<seq<Reference>, RefError> {
    if fields == [] then Success([])
    else
      var first :- Scan(fields[0].value);
      var rest :- ScanFields(fields[1..]);
      Success(first + rest)
  }

  /** What pushing the findings of a scan onto `out0` comes to. */
  ghost function Pushed(out0: seq<Reference>, found: Result<seq<Reference>, RefError>)
    : Result<seq<Reference>, RefError>
  {
    match found
    case Failure(e) => Failure(e)
    case Success(refs) => Success(out0 + refs)
  }

  /** Scanning into an accumulator, the way the walk over a document pushes what it finds. */
  method ScanInto(value: Json, out0: seq<Reference>) returns (r: Result<seq<Reference>, RefError>)
    ensures r == Pushed(out0, Scan(value))
    decreases value
  {
    match value
    case Str(s) => r := ScanStringInto(s, out0);
    case Arr(items) => r := ScanItemsInto(items, out0);
    case Obj(fields) => r := ScanFieldsInto(fields, out0);
    case _ =>
      assert out0 + [] == out0;
      r := Success(out0);
  }

  method ScanStringInto(s: string, out0: seq<Reference>) returns (r: Result<seq<Reference>, RefError>)
    ensures r == Pushed(out0, Scan(Str(s)))
  {
    var out := out0;
    var parsed := ParseString(s);
    if parsed.Failure? {
      return Failure(parsed.error);
    }
    match parsed.value
    case Literal(_) =>
      assert out0 + [] == out0;
      r := Success(out);
    case Whole(reference) =>
      r := Success(out + [reference]);
    case Mixed(pieces) =>
      out := PushNamed(pieces, out);
      r := Success(out);
  }

  method PushNamed(pieces: seq<Piece>, out0: seq<Reference>) returns (out: seq<Reference>)
    ensures out == out0 + PieceRefs(pieces)
  {
    out := out0;
    assert pieces[0..] == pieces;
    for i := 0 to |pieces|
      invariant out + PieceRefs(pieces[i..]) == out0 + PieceRefs(pieces)
    {
      assert pieces[i..][1..] == pieces[i + 1..];
      if pieces[i].Named? {
        assert out + ([pieces[i].reference] + PieceRefs(pieces[i + 1..]))
            == (out + [pieces[i].reference]) + PieceRefs(pieces[i + 1..]);
        out := out + [pieces[i].reference];
      }
    }
    assert out + [] == out;
  }

  method ScanItemsInto(items: seq<Json>, out0: seq<Reference>) returns (r: Result<seq<Reference>, RefError>)
    ensures r == Pushed(out0, ScanItems(items))
    decreases items
  {
    var out := out0;
    assert items[0..] == items;
    for i := 0 to |items|
      invariant Pushed(out, ScanItems(items[i..])) == Pushed(out0, ScanItems(items))
    {
      assert items[i..][1..] == items[i + 1..];
      var next := ScanInto(items[i], out);
      if next.Failure? {
        return next;
      }
      ghost var rest := ScanItems(items[i + 1..]);
      assert rest.Success? ==>
          out + (Scan(items[i]).value + rest.value) == (out + Scan(items[i]).value) + rest.value;
      out := next.value;
    }
    assert out + [] == out;
    r := Success(out);
  }

  method ScanFieldsInto(fields: seq<Field>, out0: seq<Reference>) returns (r: Result<seq<Reference>, RefError>)
    ensures r == Pushed(out0, ScanFields(fields))
    decreases fields
  {
    var out := out0;
    assert fields[0..] == fields;
    for i := 0 to |fields|
      invariant Pushed(out, ScanFields(fields[i..])) == Pushed(out0, ScanFields(fields))
    {
      assert fields[i..][1..] == fields[i + 1..];
      var next := ScanInto(fields[i].value, out);
      if next.Failure? {
        return next;
      }
      ghost var found, rest := Scan(fields[i].value).value, ScanFields(fields[i + 1..]);
      assert rest.Success? ==> out + (found + rest.value) == (out + found) + rest.value;
      out := next.value;
    }
    assert out + [] == out;
    r := Success(out);
  }

  /** Interpolation: every reference of a mixed string reads as a scalar. */
  function FillPieces(pieces: seq<Piece>, look: Reference -> Result<Json, RefError>): Result<string, RefError> {
    if pieces == [] then Success("")
    else match pieces[0]
      case Text(t) =>
        var rest :- FillPieces(pieces[1..], look);
        Success(t + rest)
      case Named(r) =>
        var found :- look(r);
        match ScalarText(found)
        case None => Failure(NotScalar(Show(r)))
        case Some(t) =>
          var rest :- FillPieces(pieces[1..], look);
          Success(t + rest)
  }

  function Fill(parsed: Parsed, look: Reference -> Result<Json, RefError>): Result<Json, RefError> {
    match parsed
    case Literal(t) => Success(Str(t))
    case Whole(r) => look(r)
    case Mixed(pieces) =>
      var text :- FillPieces(pieces, look);
      Success(Str(text))
  }

  /** Substitution of every reference by what `look` finds for it. */
  function ResolveWith(value: Json, look: Reference -> Result<Json, RefError>): Result<Json, RefError>
    decreases value
  {
    match value
    case Str(s) =>
      var parsed :- Parse(s);
      Fill(parsed, look)
    case Arr(items) =>
      var out :- ResolveItems(items, look);
      Success(Arr(out))
    case Obj(fields) =>
      var out :- ResolveFields(fields, look);
      Success(Obj(out))
    case _ => Success(value)
  }

  function ResolveItems(items: seq<Json>, look: Reference -> Result<Json, RefError>): Result<seq<Json>, RefError>
    decreases items
  {
    if items == [] then Success([])
    else
      var first :- ResolveWith(items[0], look);
      var rest :- ResolveItems(items[1..], look);
      Success([first] + rest)
  }

  function ResolveFields(fields: seq<Field>, look: Reference -> Result<Json, RefError>): Result<seq<Field>, RefError>
    decreases fields
  {
    if fields == [] then Success([])
    else
      var first :- ResolveWith(fields[0].value, look);
      var rest :- ResolveFields(fields[1..], look);
      Success([Field(fields[0].name, first)] + rest)
  }

  function Resolve(value: Json, outputs: Outputs): Result<Json, RefError> {
    ResolveWith(value, r => Lookup(r, outputs))
  }

  datatype RewriteError<E> = Unparsed(error: RefError) | Refused(refusal: E)

  function RewritePieces<E>(pieces: seq<Piece>, target: Reference -> Result<string, E>): Result<string, E> {
    if pieces == [] then Success("")
    else match pieces[0]
      case Text(t) =>
        var rest :- RewritePieces(pieces[1..], target);
        Success(t + rest)
      case Named(r) =>
        var op :- target(r);
        var rest :- RewritePieces(pieces[1..], target);
        Success(Show(Reference(op, r.path)) + rest)
  }

  function RewriteParsed<E>(parsed: Parsed, target: Reference -> Result<string, E>): Result<string, E> {
    match parsed
    case Literal(t) => Success(t)
    case Whole(r) =>
      var op :- target(r);
      Success(Show(Reference(op, r.path)))
    case Mixed(pieces) => RewritePieces(pieces, target)
  }

  function RewriteString<E>(s: string, target: Reference -> Result<string, E>): Result<string, RewriteError<E>> {
    match Parse(s)
    case Failure(e) => Failure(Unparsed(e))
    case Success(parsed) =>
      match RewriteParsed(parsed, target)
      case Failure(e) => Failure(Refused(e))
      case Success(text) => Success(text)
  }

  /** Replace every reference's target by what `target` says, leaving its path and the text around it. */
  function Rewrite<E>(value: Json, target: Reference -> Result<string, E>): Result<Json, RewriteError<E>>
    decreases value
  {
    match value
    case Str(s) =>
      var text :- RewriteString(s, target);
      Success(Str(text))
    case Arr(items) =>
      var out :- RewriteItems(items, target);
      Success(Arr(out))
    case Obj(fields) =>
      var out :- RewriteFields(fields, target);
      Success(Obj(out))
    case _ => Success(value)
  }

  function RewriteItems<E>(items: seq<Json>, target: Reference -> Result<string, E>)
    : Result<seq<Json>, RewriteError<E>>
    decreases items
  {
    if items == [] then Success([])
    else
      var first :- Rewrite(items[0], target);
      var rest :- RewriteItems(items[1..], target);
      Success([first] + rest)
  }

  function RewriteFields<E>(fields: seq<Field>, target: Reference -> Result<string, E>)
    : Result<seq<Field>, RewriteError<E>>
    decreases fields
  {
    if fields == [] then Success([])
    else
      var first :- Rewrite(fields[0].value, target);
      var rest :- RewriteFields(fields[1..], target);
      Success([Field(fields[0].name, first)] + rest)
  }
}
