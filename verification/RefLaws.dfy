/** Laws of the reference syntax: what parser and printer do to each other. */
module RefLaws {
  import opened Wrappers
  import opened Text
  import opened Refs

  // ----- one reference: parse after print, print after parse -----

  predicate GoodSegment(segment: Segment) {
    match segment
    case Key(k) => k != "" && !AllDigits(k) && '.' !in k
    case Index(i) => i <= U64_MAX
  }

  predicate WellFormed(reference: Reference) {
    IsTarget(reference.op) && forall i | 0 <= i < |reference.path| :: GoodSegment(reference.path[i])
  }

  function SegmentTexts(path: seq<Segment>): (texts: seq<string>)
    ensures |texts| == |path|
  {
    if path == [] then [] else [SegmentText(path[0])] + SegmentTexts(path[1..])
  }

  lemma {:induction false} TargetPlain(op: string, c: char)
    requires IsTarget(op) && (c == '.' || c == '}')
    ensures c !in op
  {
    if !IsValidRefTarget(op) {
      var digits := op[4..|op| - 1];
      assert op == op[..4] + digits + [op[|op| - 1]];
      assert AllDigits(digits);
    }
  }

  lemma {:induction false} PathAsJoin(head: string, path: seq<Segment>)
    ensures head + PathText(path) == Join([head] + SegmentTexts(path), '.')
    decreases |path|
  {
    var parts := [head] + SegmentTexts(path);
    if path != [] {
      PathAsJoin(SegmentText(path[0]), path[1..]);
      assert parts[1..] == [SegmentText(path[0])] + SegmentTexts(path[1..]);
    }
  }

  lemma {:induction false} TextsFree(path: seq<Segment>)
    requires forall i | 0 <= i < |path| :: GoodSegment(path[i])
    ensures Free(SegmentTexts(path), '.')
  {
    if path != [] {
      TextsFree(path[1..]);
      assert GoodSegment(path[0]);
      assert '.' !in SegmentText(path[0]);
    }
  }

  lemma {:induction false} PathReparses(path: seq<Segment>)
    requires forall i | 0 <= i < |path| :: GoodSegment(path[i])
    ensures ParsePath(SegmentTexts(path)) == Some(path)
  {
    hide GoodSegment, ParseSegment, SegmentText;
    if path != [] {
      PathReparses(path[1..]);
      SegmentReparses(path[0]);
      assert SegmentTexts(path)[1..] == SegmentTexts(path[1..]);
      assert path == [path[0]] + path[1..];
    }
  }

  lemma {:induction false} SegmentReparses(segment: Segment)
    requires GoodSegment(segment)
    ensures ParseSegment(SegmentText(segment)) == Some(segment)
  {
    if segment.Index? {
      ValueOfDecimal(segment.index);
    }
  }

  /** Printing a well-formed reference and parsing the result gives the reference back. */
  lemma {:induction false} ParseAfterPrint(reference: Reference)
    requires WellFormed(reference)
    ensures ParseReference(Body(reference)) == Success(reference)
  {
    var texts := SegmentTexts(reference.path);
    PathAsJoin(reference.op, reference.path);
    TargetPlain(reference.op, '.');
    TextsFree(reference.path);
    SplitOfJoin([reference.op] + texts, '.');
    PathReparses(reference.path);
    assert ([reference.op] + texts)[1..] == texts;
  }

  lemma {:induction false} ParsedPath(parts: seq<string>)
    requires ParsePath(parts).Some? && Free(parts, '.')
    ensures var path := ParsePath(parts).value;
            && |path| == |parts|
            && (forall i | 0 <= i < |path| :: GoodSegment(path[i]))
            && (forall i | 0 <= i < |path| :: ParseSegment(parts[i]) == Some(path[i]))
            && (forall i | 0 <= i < |path| :: SegmentTexts(path)[i] == SegmentText(path[i]))
  {
    if parts != [] {
      ParsedPath(parts[1..]);
      assert '.' !in parts[0];
      var path := ParsePath(parts).value;
      assert path[1..] == ParsePath(parts[1..]).value;
    }
  }

  /** Whatever the parser accepts is well-formed, and holds no brace the body did not hold. */
  lemma {:induction false} ParsedIsWellFormed(body: string)
    requires ParseReference(body).Success?
    ensures WellFormed(ParseReference(body).value)
    ensures '}' !in body ==> '}' !in Body(ParseReference(body).value)
  {
    var reference := ParseReference(body).value;
    var parts := Split(body, '.');
    SplitFree(body, '.');
    ParsedPath(parts[1..]);
    if '}' !in body {
      SplitKeeps(body, '.', '}');
      PathAsJoin(reference.op, reference.path);
      var texts := SegmentTexts(reference.path);
      forall i | 0 <= i < |texts|
        ensures '}' !in texts[i]
      {
        assert ParseSegment(parts[1..][i]) == Some(reference.path[i]);
        assert '}' !in parts[i + 1];
      }
      JoinAvoids([reference.op] + texts, '.', '}');
    }
  }

  ghost predicate AnyPadded(parts: seq<string>) {
    exists i | 0 <= i < |parts| :: Padded(parts[i])
  }

  lemma {:induction false} JoinGrows(a: seq<string>, b: seq<string>, sep: char)
    requires |a| == |b| >= 1
    requires forall i | 0 <= i < |a| :: |a[i]| <= |b[i]| && (|a[i]| == |b[i]| ==> a[i] == b[i])
    ensures |Join(a, sep)| <= |Join(b, sep)|
    ensures |Join(a, sep)| == |Join(b, sep)| ==> a == b
  {
    if |a| > 1 {
      JoinGrows(a[1..], b[1..], sep);
      if |Join(a, sep)| == |Join(b, sep)| {
        assert a == [a[0]] + a[1..] && b == [b[0]] + b[1..];
      }
    }
  }

  lemma {:induction false} SegmentReprints(part: string)
    requires ParseSegment(part).Some?
    ensures var text := SegmentText(ParseSegment(part).value);
            |text| <= |part| && (|text| == |part| ==> text == part) && (text == part <==> !Padded(part))
  {
    if AllDigits(part) {
      DecimalOfValue(part);
    }
  }

  /** Parsing a body and printing it gives the body back exactly when no index was written
      with leading zeros, and otherwise something shorter. */
  lemma {:induction false} PrintAfterParse(body: string)
    requires ParseReference(body).Success?
    ensures var printed := Body(ParseReference(body).value);
            && (printed == body <==> !AnyPadded(Split(body, '.')[1..]))
            && (printed != body ==> |printed| < |body|)
  {
    var reference := ParseReference(body).value;
    var parts := Split(body, '.');
    SplitFree(body, '.');
    JoinOfSplit(body, '.');
    ParsedParts(body);
    ParsedPath(parts[1..]);
    PathAsJoin(reference.op, reference.path);
    var printed := [reference.op] + SegmentTexts(reference.path);
    hide *;
    PartsReprint(parts, reference.path, printed);
    JoinGrows(printed, parts, '.');
  }

  /** The parts of a body that parses are its target and its segments. */
  lemma {:induction false} ParsedParts(body: string)
    requires ParseReference(body).Success?
    ensures var reference, parts := ParseReference(body).value, Split(body, '.');
            && parts[0] == reference.op && ParsePath(parts[1..]) == Some(reference.path)
            && Free(Split(body, '.'), '.') && Free(parts[1..], '.')
            && Body(reference) == reference.op + PathText(reference.path)
  {
    SplitFree(body, '.');
  }

  /** Printed part by part: the same text where no index is padded, and shorter where one is. */
  lemma {:induction false} PartsReprint(parts: seq<string>, path: seq<Segment>, printed: seq<string>)
    requires |printed| == |parts| == |path| + 1 && printed[0] == parts[0]
    requires forall i | 0 <= i < |path| ::
              ParseSegment(parts[1..][i]) == Some(path[i]) && printed[1..][i] == SegmentText(path[i])
    ensures forall i | 0 <= i < |parts| ::
              |printed[i]| <= |parts[i]| && (|printed[i]| == |parts[i]| ==> printed[i] == parts[i])
    ensures printed == parts <==> !AnyPadded(parts[1..])
  {
    hide Padded, SegmentText, ParseSegment;
    var tail := parts[1..];
    forall i | 0 <= i < |path|
      ensures |printed[i + 1]| <= |tail[i]| && (|printed[i + 1]| == |tail[i]| ==> printed[i + 1] == tail[i])
      ensures printed[i + 1] == tail[i] <==> !Padded(tail[i])
    {
      assert printed[i + 1] == printed[1..][i];
      SegmentReprints(tail[i]);
    }
    assert forall i | 0 <= i < |path| :: tail[i] == parts[i + 1];
    forall i | 0 <= i < |parts|
      ensures |printed[i]| <= |parts[i]| && (|printed[i]| == |parts[i]| ==> printed[i] == parts[i])
    {
      if i > 0 {
        assert tail[i - 1] == parts[i] && printed[(i - 1) + 1] == printed[i];
      }
    }
    if !AnyPadded(tail) {
      assert forall i | 0 <= i < |tail| :: !Padded(tail[i]);
    }
  }

  // ----- strings: tokens printed back -----

  function Print(tokens: seq<Token>): string {
    if tokens == [] then ""
    else (match tokens[0] case Chr(c) => [c] case Ref(r) => Show(r)) + Print(tokens[1..])
  }

  /** The cursor loop, started at the front of `s`, at some point takes the escape branch. */
  predicate TakesEscape(s: string) {
    if s == "" then false
    else if StartsEscape(s) then true
    else if StartsRef(s) then
      var n := IndexOf(s[2..], '}');
      n < |s[2..]| && TakesEscape(s[3 + n..])
    else TakesEscape(s[1..])
  }

  /** A consumed escape is written out in the string, so a string without `$${` takes none. */
  lemma {:induction false} EscapeIsWritten(s: string)
    requires TakesEscape(s)
    ensures Contains(s, "$${")
  {
    if StartsEscape(s) {
      assert s[0..] == s && s[..3] == "$${";
      assert StartsWith(s[0..], "$${");
    } else {
      var k := if StartsRef(s) then 3 + IndexOf(s[2..], '}') else 1;
      EscapeIsWritten(s[k..]);
      var i :| 0 <= i <= |s[k..]| && StartsWith(s[k..][i..], "$${");
      assert s[k..][i..] == s[k + i..];
    }
  }

  /** `there` is `here` with some targets replaced. */
  ghost predicate Retargeted(here: seq<Token>, there: seq<Token>) {
    && |here| == |there|
    && forall i | 0 <= i < |here| ::
         match here[i]
         case Chr(c) => there[i] == here[i]
         case Ref(r) => there[i].Ref? && there[i].reference.path == r.path && IsTarget(there[i].reference.op)
  }

  /** One step of the cursor over a string that parses and holds no escape. */
  lemma {:induction false} TokenStep(whole: string, s: string)
    requires s != "" && Tokens(whole, s).Success? && !TakesEscape(s)
    ensures var tokens := Tokens(whole, s).value;
            && tokens != []
            && !StartsEscape(s)
            && (StartsRef(s) ==>
                  var n := IndexOf(s[2..], '}');
                  && n < |s[2..]|
                  && ParseReference(s[2..][..n]).Success?
                  && tokens[0] == Ref(ParseReference(s[2..][..n]).value)
                  && Tokens(whole, s[3 + n..]) == Success(tokens[1..])
                  && !TakesEscape(s[3 + n..]))
            && (!StartsRef(s) ==>
                  && tokens[0] == Chr(s[0])
                  && Tokens(whole, s[1..]) == Success(tokens[1..])
                  && !TakesEscape(s[1..]))
  {
    var tokens := Tokens(whole, s).value;
    if StartsRef(s) {
      var n := IndexOf(s[2..], '}');
      assert tokens[1..] == Tokens(whole, s[3 + n..]).value;
    } else {
      assert tokens[1..] == Tokens(whole, s[1..]).value;
    }
  }

  /** Replacing targets leaves the first character of the text, and so every later test on it, alone. */
  lemma {:induction false} SameStart(whole: string, s: string, there: seq<Token>)
    requires Tokens(whole, s).Success? && !TakesEscape(s)
    requires Retargeted(Tokens(whole, s).value, there)
    ensures Print(there) == "" <==> s == ""
    ensures s != "" ==> Print(there)[0] == s[0]
    ensures StartsRef(Print(there)) <==> StartsRef(s)
  {
    if s != "" {
      TokenStep(whole, s);
      assert Tokens(whole, s).value[0] == Tokens(whole, s).value[0];
      if StartsRef(s) {
        assert there[0].Ref?;
      } else {
        assert there[0] == Chr(s[0]);
        if s[1..] != "" {
          TokenStep(whole, s[1..]);
          var rest := there[1..];
          assert Tokens(whole, s).value[1] == Tokens(whole, s).value[1..][0];
          assert rest[0] == there[1];
        }
      }
    }
  }

  /** The rewritten text of an escape-free string parses to the rewritten tokens. */
  lemma {:induction false} Reparse(whole: string, s: string, there: seq<Token>, other: string)
    requires Tokens(whole, s).Success? && !TakesEscape(s)
    requires Retargeted(Tokens(whole, s).value, there)
    ensures Tokens(other, Print(there)) == Success(there)
    decreases |s|
  {
    if s != "" {
      TokenStep(whole, s);
      var here := Tokens(whole, s).value;
      var text, rest := Print(there), there[1..];
      assert Retargeted(here[1..], rest);
      if StartsRef(s) {
        var n := IndexOf(s[2..], '}');
        var body := s[2..][..n];
        var reference := there[0].reference;
        assert here[0].Ref?;
        ParsedIsWellFormed(body);
        assert WellFormed(reference);
        BodyAvoidsBrace(here[0].reference, reference);
        Reparse(whole, s[3 + n..], rest, other);
        ReferenceToken(other, reference, Print(rest));
        assert there == [there[0]] + rest;
      } else {
        assert here[0].Chr?;
        assert text == [s[0]] + Print(rest);
        SameStart(whole, s, there);
        SameStart(whole, s[1..], rest);
        Reparse(whole, s[1..], rest, other);
        assert text[1..] == Print(rest);
        assert StartsRef(text[1..]) <==> StartsRef(s[1..]);
        assert there == [there[0]] + rest;
      }
    }
  }

  lemma {:induction false} BodyAvoidsBrace(here: Reference, there: Reference)
    requires '}' !in Body(here) && there.path == here.path && IsTarget(there.op)
    ensures '}' !in Body(there)
  {
    TargetPlain(there.op, '}');
    assert forall c | c in PathText(here.path) :: c in Body(here);
  }

  lemma {:induction false} ReferenceToken(whole: string, reference: Reference, rest: string)
    requires WellFormed(reference) && '}' !in Body(reference)
    ensures Tokens(whole, Show(reference) + rest) ==
            match Tokens(whole, rest)
            case Failure(e) => Failure(e)
            case Success(tokens) => Success([Ref(reference)] + tokens)
  {
    var body := Body(reference);
    var text := Show(reference) + rest;
    assert text == "${" + body + "}" + rest;
    assert text[2..] == body + ['}'] + rest;
    IndexOfIn(body, '}', rest);
    assert text[2..][..|body|] == body;
    assert text[3 + |body|..] == rest;
    ParseAfterPrint(reference);
  }

  // ----- how long a string is against what its tokens print -----

  /** Printing never makes a string longer, and consuming an escape always makes it shorter. */
  lemma {:induction false} PrintShrinks(whole: string, s: string)
    requires Tokens(whole, s).Success?
    ensures |Print(Tokens(whole, s).value)| <= |s|
    ensures TakesEscape(s) ==> |Print(Tokens(whole, s).value)| < |s|
    decreases |s|
  {
    if s != "" {
      var tokens := Tokens(whole, s).value;
      if StartsEscape(s) {
        PrintShrinks(whole, s[3..]);
        PrintTwo(Chr('$'), Chr('{'), Tokens(whole, s[3..]).value);
      } else if StartsRef(s) {
        var n := IndexOf(s[2..], '}');
        PrintShrinks(whole, s[3 + n..]);
        PrintAfterParse(s[2..][..n]);
        PrintOne(tokens[0], Tokens(whole, s[3 + n..]).value);
      } else {
        PrintShrinks(whole, s[1..]);
        PrintOne(tokens[0], Tokens(whole, s[1..]).value);
      }
    }
  }

  lemma {:induction false} PrintOne(first: Token, rest: seq<Token>)
    ensures |Print([first] + rest)| == (match first case Chr(_) => 1 case Ref(r) => 3 + |Body(r)|) + |Print(rest)|
  {
    assert ([first] + rest)[1..] == rest;
  }

  lemma {:induction false} PrintTwo(first: Token, second: Token, rest: seq<Token>)
    requires first.Chr? && second.Chr?
    ensures |Print([first, second] + rest)| == 2 + |Print(rest)|
  {
    PrintOne(second, rest);
    PrintOne(first, [second] + rest);
    assert [first, second] + rest == [first] + ([second] + rest);
  }

  /** A `$` character token directly before a `{` character token. */
  ghost predicate EscapedPair(tokens: seq<Token>) {
    exists i | 0 <= i < |tokens| - 1 :: tokens[i] == Chr('$') && tokens[i + 1] == Chr('{')
  }

  lemma {:induction false} EscapedPairStep(first: Token, rest: seq<Token>)
    ensures EscapedPair([first] + rest) <==>
            EscapedPair(rest) || (first == Chr('$') && rest != [] && rest[0] == Chr('{'))
  {
    var tokens := [first] + rest;
    if EscapedPair(rest) {
      var i :| 0 <= i < |rest| - 1 && rest[i] == Chr('$') && rest[i + 1] == Chr('{');
      assert tokens[i + 1] == Chr('$') && tokens[i + 1 + 1] == Chr('{');
    }
    if EscapedPair(tokens) {
      var i :| 0 <= i < |tokens| - 1 && tokens[i] == Chr('$') && tokens[i + 1] == Chr('{');
      assert i > 0 ==> rest[i - 1] == Chr('$') && rest[i - 1 + 1] == Chr('{');
    }
    if first == Chr('$') && rest != [] && rest[0] == Chr('{') {
      var i := 0;
      assert tokens[i] == Chr('$') && tokens[i + 1] == Chr('{');
    }
  }

  lemma {:induction false} EscapeLeavesPair(whole: string, s: string)
    requires Tokens(whole, s).Success?
    ensures TakesEscape(s) <==> EscapedPair(Tokens(whole, s).value)
    decreases |s|
  {
    if s != "" {
      var tokens := Tokens(whole, s).value;
      if StartsEscape(s) {
        assert tokens[0] == Chr('$') && tokens[0 + 1] == Chr('{');
      } else {
        var k := if StartsRef(s) then 3 + IndexOf(s[2..], '}') else 1;
        EscapeLeavesPair(whole, s[k..]);
        EscapedPairStep(tokens[0], Tokens(whole, s[k..]).value);
        var rest := Tokens(whole, s[k..]).value;
        assert rest != [] && rest[0] == Chr('{') ==> s[k..] != "" && s[k..][0] == '{';
      }
    }
  }

  // ----- rewriting one string -----

  function Retarget<E>(tokens: seq<Token>, target: Reference -> Result<string, E>): Result<seq<Token>, E> {
    if tokens == [] then Success([])
    else match tokens[0]
      case Chr(c) =>
        var rest :- Retarget(tokens[1..], target);
        Success([Chr(c)] + rest)
      case Ref(r) =>
        var op :- target(r);
        var rest :- Retarget(tokens[1..], target);
        Success([Ref(Reference(op, r.path))] + rest)
  }

  /** A target map whose answers can be parsed back. */
  ghost predicate Targets<E(!new)>(target: Reference -> Result<string, E>) {
    forall r: Reference :: IsTarget(r.op) && target(r).Success? ==> IsTarget(target(r).value)
  }

  function RetargetPieces<E>(pieces: seq<Piece>, target: Reference -> Result<string, E>): Result<seq<Piece>, E> {
    if pieces == [] then Success([])
    else match pieces[0]
      case Text(t) =>
        var rest :- RetargetPieces(pieces[1..], target);
        Success([pieces[0]] + rest)
      case Named(r) =>
        var op :- target(r);
        var rest :- RetargetPieces(pieces[1..], target);
        Success([Named(Reference(op, r.path))] + rest)
  }

  /** A parsed string with the target of every reference replaced and nothing else touched. */
  function RetargetParsed<E>(parsed: Parsed, target: Reference -> Result<string, E>): Result<Parsed, E> {
    match parsed
    case Literal(_) => Success(parsed)
    case Whole(r) =>
      var op :- target(r);
      Success(Whole(Reference(op, r.path)))
    case Mixed(pieces) =>
      var out :- RetargetPieces(pieces, target);
      Success(Mixed(out))
  }

  lemma {:induction false} TokensWellFormed(whole: string, s: string)
    requires Tokens(whole, s).Success?
    ensures forall i | 0 <= i < |Tokens(whole, s).value| ::
              Tokens(whole, s).value[i].Ref? ==> WellFormed(Tokens(whole, s).value[i].reference)
    decreases |s|
  {
    if s != "" {
      if StartsEscape(s) {
        TokensWellFormed(whole, s[3..]);
      } else if StartsRef(s) {
        var n := IndexOf(s[2..], '}');
        TokensWellFormed(whole, s[3 + n..]);
        ParsedIsWellFormed(s[2..][..n]);
      } else {
        TokensWellFormed(whole, s[1..]);
      }
    }
  }

  lemma {:induction false} RetargetTokens<E(!new)>(tokens: seq<Token>, target: Reference -> Result<string, E>)
    requires Targets(target) && Retarget(tokens, target).Success?
    requires forall i | 0 <= i < |tokens| :: tokens[i].Ref? ==> WellFormed(tokens[i].reference)
    ensures Retargeted(tokens, Retarget(tokens, target).value)
  {
    if tokens != [] {
      RetargetTokens(tokens[1..], target);
      var there := Retarget(tokens, target).value;
      assert there[1..] == Retarget(tokens[1..], target).value;
      assert tokens[0].Ref? ==> IsTarget(target(tokens[0].reference).value);
      forall i | 0 <= i < |tokens|
        ensures match tokens[i]
                case Chr(c) => there[i] == tokens[i]
                case Ref(r) => there[i].Ref? && there[i].reference.path == r.path && IsTarget(there[i].reference.op)
      {
        if i > 0 {
          assert tokens[i] == tokens[1..][i - 1] && there[i] == there[1..][i - 1];
        }
      }
    }
  }

  /** Grouping and retargeting commute. */
  lemma {:induction false} GroupRetargeted<E>(
      literal: string, tokens: seq<Token>, target: Reference -> Result<string, E>)
    ensures RetargetPieces(Group(literal, tokens), target) == GroupResult(literal, Retarget(tokens, target))
    decreases |tokens|
  {
    if tokens != [] {
      var rest := Retarget(tokens[1..], target);
      match tokens[0] {
        case Chr(c) =>
          GroupRetargeted(literal + [c], tokens[1..], target);
          if rest.Success? {
            assert ([tokens[0]] + rest.value)[1..] == rest.value;
          }
        case Ref(r) =>
          GroupRetargeted("", tokens[1..], target);
          RetargetedRef(literal, tokens, r, target);
      }
    } else if literal != "" {
      assert RetargetPieces([], target) == Success([]);
      assert [Text(literal)][1..] == [] && [Text(literal)] + [] == [Text(literal)];
    }
  }

  function GroupResult<E>(literal: string, tokens: Result<seq<Token>, E>): Result<seq<Piece>, E> {
    match tokens
    case Failure(e) => Failure(e)
    case Success(there) => Success(Group(literal, there))
  }

  lemma {:induction false} RetargetedRef<E>(
      literal: string, tokens: seq<Token>, r: Reference, target: Reference -> Result<string, E>)
    requires tokens != [] && tokens[0] == Ref(r)
    requires RetargetPieces(Group("", tokens[1..]), target) == GroupResult("", Retarget(tokens[1..], target))
    ensures RetargetPieces(Group(literal, tokens), target) == GroupResult(literal, Retarget(tokens, target))
  {
    RetargetFlushed(literal, r, Group("", tokens[1..]), target);
    var rest := Retarget(tokens[1..], target);
    if target(r).Success? && rest.Success? {
      var op := target(r).value;
      assert ([Ref(Reference(op, r.path))] + rest.value)[1..] == rest.value;
    }
  }

  lemma {:induction false} RetargetFlushed<E>(
      literal: string, r: Reference, tail: seq<Piece>, target: Reference -> Result<string, E>)
    ensures RetargetPieces(Flush(literal) + [Named(r)] + tail, target) ==
            if target(r).Failure? then Failure(target(r).error)
            else if RetargetPieces(tail, target).Failure? then RetargetPieces(tail, target)
            else Success(Flush(literal) + [Named(Reference(target(r).value, r.path))] +
                RetargetPieces(tail, target).value)
  {
    var pieces := [Named(r)] + tail;
    assert pieces[1..] == tail;
    assert Flush(literal) + [Named(r)] + tail == Flush(literal) + pieces;
    if literal == "" {
      assert Flush(literal) + pieces == pieces;
      assert forall p: seq<Piece> :: Flush(literal) + p == p;
    } else {
      RetargetText(literal, pieces, target);
      if RetargetPieces(pieces, target).Success? {
        var op, rest := target(r).value, RetargetPieces(tail, target).value;
        assert Flush(literal) + ([Named(Reference(op, r.path))] + rest)
            == Flush(literal) + [Named(Reference(op, r.path))] + rest;
      }
    }
  }

  lemma {:induction false} RetargetText<E>(literal: string, pieces: seq<Piece>, target: Reference -> Result<string, E>)
    ensures RetargetPieces([Text(literal)] + pieces, target) ==
            if RetargetPieces(pieces, target).Failure? then RetargetPieces(pieces, target)
            else Success([Text(literal)] + RetargetPieces(pieces, target).value)
  {
    assert ([Text(literal)] + pieces)[1..] == pieces;
  }

  /** What rewriting a run of pieces writes is the retargeted tokens, printed. */
  lemma {:induction false} PiecesPrinted(literal: string, tokens: seq<Token>)
    ensures PiecesText(Group(literal, tokens)) == literal + Print(tokens)
    decreases |tokens|
  {
    if tokens != [] {
      match tokens[0] {
        case Chr(c) =>
          PiecesPrinted(literal + [c], tokens[1..]);
          PrintedChr(literal, tokens, c);
        case Ref(r) =>
          PiecesPrinted("", tokens[1..]);
          PrintedRef(literal, tokens, r);
      }
    }
  }

  lemma {:induction false} PrintedChr(literal: string, tokens: seq<Token>, c: char)
    requires tokens != [] && tokens[0] == Chr(c)
    requires PiecesText(Group(literal + [c], tokens[1..])) == literal + [c] + Print(tokens[1..])
    ensures PiecesText(Group(literal, tokens)) == literal + Print(tokens)
  {
    assert Print(tokens) == [c] + Print(tokens[1..]);
    assert Group(literal, tokens) == Group(literal + [c], tokens[1..]);
    ConcatAssoc(literal, [c], Print(tokens[1..]));
  }

  lemma {:induction false} PrintedRef(literal: string, tokens: seq<Token>, r: Reference)
    requires tokens != [] && tokens[0] == Ref(r)
    requires PiecesText(Group("", tokens[1..])) == "" + Print(tokens[1..])
    ensures PiecesText(Group(literal, tokens)) == literal + Print(tokens)
  {
    var p, tail := Print(tokens[1..]), Group("", tokens[1..]);
    assert "" + p == p;
    assert Print(tokens) == Show(r) + p;
    assert Group(literal, tokens) == Flush(literal) + [Named(r)] + tail;
    TextFlushed(literal, r, tail);
    ConcatAssoc(literal, Show(r), p);
  }

  lemma {:induction false} TextFlushed(literal: string, r: Reference, tail: seq<Piece>)
    ensures PiecesText(Flush(literal) + [Named(r)] + tail) == literal + Show(r) + PiecesText(tail)
  {
    var pieces := [Named(r)] + tail;
    assert pieces[1..] == tail;
    assert PiecesText(pieces) == Show(r) + PiecesText(tail);
    assert Flush(literal) + [Named(r)] + tail == Flush(literal) + pieces;
    if literal == "" {
      assert Flush(literal) + pieces == pieces;
      assert literal + Show(r) == Show(r);
    } else {
      assert (Flush(literal) + pieces)[1..] == pieces;
      assert literal + (Show(r) + PiecesText(tail)) == literal + Show(r) + PiecesText(tail);
    }
  }

  function PiecesText(pieces: seq<Piece>): string {
    if pieces == [] then ""
    else (match pieces[0] case Text(t) => t case Named(r) => Show(r)) + PiecesText(pieces[1..])
  }

  lemma {:induction false} RewritePiecesText<E>(pieces: seq<Piece>, target: Reference -> Result<string, E>)
    ensures RewritePieces(pieces, target) ==
            match RetargetPieces(pieces, target)
            case Failure(e) => Failure(e)
            case Success(there) => Success(PiecesText(there))
  {
    if pieces != [] {
      RewritePiecesText(pieces[1..], target);
      var rest := RetargetPieces(pieces[1..], target);
      if rest.Success? {
        match pieces[0]
        case Text(t) => assert ([pieces[0]] + rest.value)[1..] == rest.value;
        case Named(r) =>
          if target(r).Success? {
            assert ([Named(Reference(target(r).value, r.path))] + rest.value)[1..] == rest.value;
          }
      }
    }
  }

  lemma {:induction false} ClassifyCommutes<E>(pieces: seq<Piece>, target: Reference -> Result<string, E>)
    ensures RewriteParsed(Classify(pieces), target) == RewritePieces(pieces, target)
    ensures RetargetParsed(Classify(pieces), target) ==
            match RetargetPieces(pieces, target)
            case Failure(e) => Failure(e)
            case Success(there) => Success(Classify(there))
  {
    RetargetLength(pieces, target);
    if |pieces| == 1 {
      assert pieces[1..] == [];
      assert forall t: string :: t + "" == t;
      assert forall p: Piece :: [p] + [] == [p];
    }
  }

  lemma {:induction false} RetargetLength<E>(pieces: seq<Piece>, target: Reference -> Result<string, E>)
    ensures RetargetPieces(pieces, target).Success? ==> |RetargetPieces(pieces, target).value| == |pieces|
  {
    if pieces != [] {
      RetargetLength(pieces[1..], target);
    }
  }

  /** Rewriting a string prints its retargeted tokens. */
  lemma {:induction false} RewriteStringPrints<E>(s: string, target: Reference -> Result<string, E>)
    requires Parse(s).Success?
    ensures var there := Retarget(Tokens(s, s).value, target);
            && RewriteString(s, target) == (match there
                                            case Failure(e) => Failure(Refused(e))
                                            case Success(tokens) => Success(Print(tokens)))
            && RetargetParsed(Parse(s).value, target) == (match there
                                                          case Failure(e) => Failure(e)
                                                          case Success(tokens) => Success(Classify(Group("", tokens))))
  {
    var tokens := Tokens(s, s).value;
    var pieces := Group("", tokens);
    ClassifyCommutes(pieces, target);
    RewritePiecesText(pieces, target);
    GroupRetargeted("", tokens, target);
    var there := Retarget(tokens, target);
    if there.Success? {
      PiecesPrinted("", there.value);
      assert "" + Print(there.value) == Print(there.value);
    }
  }

  function Chars(text: string): seq<Token> {
    seq(|text|, i requires 0 <= i < |text| => Chr(text[i]))
  }

  function Ungroup(pieces: seq<Piece>): seq<Token> {
    if pieces == [] then []
    else (match pieces[0] case Text(t) => Chars(t) case Named(r) => [Ref(r)]) + Ungroup(pieces[1..])
  }

  lemma {:induction false} UngroupGroup(literal: string, tokens: seq<Token>)
    ensures Ungroup(Group(literal, tokens)) == Chars(literal) + tokens
    decreases |tokens|
  {
    if tokens != [] {
      match tokens[0] {
        case Chr(c) =>
          UngroupGroup(literal + [c], tokens[1..]);
          assert Chars(literal + [c]) + tokens[1..] == Chars(literal) + tokens;
        case Ref(r) =>
          UngroupGroup("", tokens[1..]);
          UngroupRef(literal, tokens, r);
      }
    }
  }

  lemma {:induction false} UngroupRef(literal: string, tokens: seq<Token>, r: Reference)
    requires tokens != [] && tokens[0] == Ref(r)
    requires Ungroup(Group("", tokens[1..])) == Chars("") + tokens[1..]
    ensures Ungroup(Group(literal, tokens)) == Chars(literal) + tokens
  {
    var tail := Group("", tokens[1..]);
    assert Chars("") + tokens[1..] == tokens[1..];
    assert Group(literal, tokens) == Flush(literal) + [Named(r)] + tail;
    UngroupFlushed(literal, r, tail);
    assert tokens == [Ref(r)] + tokens[1..];
    ConcatAssoc(Chars(literal), [Ref(r)], tokens[1..]);
  }

  lemma {:induction false} UngroupFlushed(literal: string, r: Reference, tail: seq<Piece>)
    ensures Ungroup(Flush(literal) + [Named(r)] + tail) == Chars(literal) + [Ref(r)] + Ungroup(tail)
  {
    var pieces := [Named(r)] + tail;
    assert pieces[1..] == tail;
    assert Ungroup(pieces) == [Ref(r)] + Ungroup(tail);
    assert Flush(literal) + [Named(r)] + tail == Flush(literal) + pieces;
    if literal == "" {
      assert Flush(literal) + pieces == pieces;
      assert Chars(literal) + [Ref(r)] == [Ref(r)];
    } else {
      assert (Flush(literal) + pieces)[1..] == pieces;
      assert Chars(literal) + ([Ref(r)] + Ungroup(tail)) == Chars(literal) + [Ref(r)] + Ungroup(tail);
    }
  }

  lemma {:induction false} ClassifyInjective(a: seq<Token>, b: seq<Token>)
    requires Classify(Group("", a)) == Classify(Group("", b))
    ensures a == b
  {
    UngroupGroup("", a);
    UngroupGroup("", b);
    assert Chars("") + a == a && Chars("") + b == b;
    GroupNonEmpty("", a);
    GroupNonEmpty("", b);
    assert Group("", a) == Group("", b);
  }

  lemma {:induction false} GroupNonEmpty(literal: string, tokens: seq<Token>)
    ensures forall p | p in Group(literal, tokens) :: p.Text? ==> p.text != ""
    decreases |tokens|
  {
    if tokens != [] {
      GroupNonEmpty(if tokens[0].Chr? then literal + [tokens[0].c] else "", tokens[1..]);
    }
  }

  /** What a rewritten string says: `parse_string` reads it as the original pieces with their
      targets replaced if, and only if, reading the original consumed no `$${` escape. */
  lemma {:induction false} RewriteStringExact<E(!new)>(s: string, target: Reference -> Result<string, E>)
    requires Targets(target) && RewriteString(s, target).Success?
    ensures RetargetParsed(Parse(s).value, target).Success?
    ensures Parse(RewriteString(s, target).value) == Success(RetargetParsed(Parse(s).value, target).value)
            <==> !TakesEscape(s)
  {
    RewriteStringPrints(s, target);
    var here := Tokens(s, s).value;
    var there := Retarget(here, target).value;
    var text := Print(there);
    TokensWellFormed(s, s);
    RetargetTokens(here, target);
    if !TakesEscape(s) {
      Reparse(s, s, there, text);
    } else {
      EscapeLeavesPair(s, s);
      var i :| 0 <= i < |here| - 1 && here[i] == Chr('$') && here[i + 1] == Chr('{');
      assert there[i] == here[i] && there[i + 1] == here[i + 1];
      assert EscapedPair(there);
      NotReparsed(there, text);
    }
  }

  /** Tokens with an escaped pair never come back from their own printed text. */
  lemma {:induction false} NotReparsed(there: seq<Token>, text: string)
    requires EscapedPair(there) && text == Print(there)
    ensures Parse(text) != Success(Classify(Group("", there)))
  {
    if Tokens(text, text).Success? {
      var again := Tokens(text, text).value;
      PrintShrinks(text, text);
      EscapeLeavesPair(text, text);
      assert again != there;
      if Classify(Group("", again)) == Classify(Group("", there)) {
        ClassifyInjective(again, there);
        assert false;
      }
    }
  }

  /** Printing the pieces of a string gives the string back exactly when it holds no escape
      and no index with leading zeros. */
  lemma {:induction false} PrintedStringExact(s: string)
    requires Parse(s).Success?
    ensures Print(Tokens(s, s).value) == s <==> !TakesEscape(s) && !TakesPadded(s)
  {
    PrintedSuffix(s, s);
  }

  /** The cursor loop at some point reads a reference with a zero-padded index. */
  ghost predicate TakesPadded(s: string) {
    if s == "" then false
    else if StartsEscape(s) then TakesPadded(s[3..])
    else if StartsRef(s) then
      var n := IndexOf(s[2..], '}');
      n < |s[2..]| && (AnyPadded(Split(s[2..][..n], '.')[1..]) || TakesPadded(s[3 + n..]))
    else TakesPadded(s[1..])
  }

  lemma {:induction false} PrintedSuffix(whole: string, s: string)
    requires Tokens(whole, s).Success?
    ensures Print(Tokens(whole, s).value) == s <==> !TakesEscape(s) && !TakesPadded(s)
    decreases |s|
  {
    PrintShrinks(whole, s);
    if s != "" && !StartsEscape(s) {
      var tokens := Tokens(whole, s).value;
      var k := if StartsRef(s) then 3 + IndexOf(s[2..], '}') else 1;
      var rest := Tokens(whole, s[k..]).value;
      PrintedSuffix(whole, s[k..]);
      PrintShrinks(whole, s[k..]);
      assert tokens[1..] == rest;
      if StartsRef(s) {
        var body := s[2..][..k - 3];
        PrintAfterParse(body);
        RefSplit(s, k - 3);
        WrappedEqual(Body(ParseReference(body).value), body, Print(rest), s[k..]);
      } else {
        assert s == [s[0]] + s[1..];
        assert Print(tokens) == [s[0]] + Print(rest);
        assert Print(tokens)[1..] == Print(rest);
      }
    }
  }

  lemma {:induction false} RefSplit(s: string, n: nat)
    requires StartsRef(s) && n == IndexOf(s[2..], '}') < |s[2..]|
    ensures s == "${" + s[2..][..n] + "}" + s[3 + n..]
  {
  }

  lemma {:induction false} WrappedEqual(a: string, b: string, x: string, y: string)
    requires |a| <= |b| && |x| <= |y|
    ensures "${" + a + "}" + x == "${" + b + "}" + y <==> a == b && x == y
  {
    var left, right := "${" + a + "}" + x, "${" + b + "}" + y;
    if left == right {
      assert |left| == 3 + |a| + |x| && |right| == 3 + |b| + |y|;
      assert a == left[2..][..|a|] && b == right[2..][..|b|];
      assert x == left[3 + |a|..] && y == right[3 + |b|..];
    }
  }
}
