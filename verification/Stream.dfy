/** Reassembling an event stream that arrives in chunks. */
module Streams {
  import opened Wrappers
  import opened Text

  // ----- lines -----

  function TrimReturns(s: string): string {
    if s != "" && s[|s| - 1] == '\r' then TrimReturns(s[..|s| - 1]) else s
  }

  datatype LineKind = Skip | Done | Payload(data: string)

  function Classify(raw: string): LineKind {
    var line := TrimReturns(raw);
    if !StartsWith(line, "data:") then Skip
    else
      var data := Trim(line[5..]);
      if data == "" then Skip else if data == "[DONE]" then Done else Payload(data)
  }

  // ----- the buffer -----

  /** What draining a buffer line by line gives: the payloads, what stays in it, and whether it was
      cleared by a `[DONE]` line. */
  datatype Drained = Drained(payloads: seq<string>, rest: string, cleared: bool)

  function Drain(buf: string): (d: Drained)
    ensures d.cleared ==> d.rest == ""
  {
    var pos := IndexOf(buf, '\n');
    if pos == |buf| then Drained([], buf, false)
    else
      match Classify(buf[..pos])
      case Skip => Drain(buf[pos + 1..])
      case Done => Drained([], "", true)
      case Payload(data) =>
        var more := Drain(buf[pos + 1..]);
        more.(payloads := [data] + more.payloads)
  }

  /** Payloads in the order the chunks bring them. */
  function Fed(buf: string, chunks: seq<string>): seq<string>
    decreases |chunks|
  {
    if chunks == [] then []
    else
      var d := Drain(buf + chunks[0]);
      d.payloads + Fed(d.rest, chunks[1..])
  }

  function Concat(chunks: seq<string>): string {
    if chunks == [] then "" else chunks[0] + Concat(chunks[1..])
  }

  /** The payloads of a text read whole: those of its complete lines before the first `[DONE]`. */
  function Events(text: string): seq<string> {
    Drain(text).payloads
  }

  /** What follows the first `[DONE]` line. */
  function AfterDone(text: string): (tail: string)
    requires Drain(text).cleared
    ensures |tail| <= |text|
  {
    var pos := IndexOf(text, '\n');
    if Classify(text[..pos]).Done? then text[pos + 1..] else AfterDone(text[pos + 1..])
  }

  /** Started anywhere, no line of it carries a payload. */
  ghost predicate Inert(tail: string) {
    forall i, j | 0 <= i <= j < |tail| && tail[j] == '\n' && '\n' !in tail[i..j] :: !Classify(tail[i..j]).Payload?
  }

  lemma {:induction false} DrainStep(buf: string, line: string, more: string)
    requires '\n' !in line && buf == line + ['\n'] + more
    ensures IndexOf(buf, '\n') == |line| && buf[..|line|] == line && buf[|line| + 1..] == more
  {
    IndexOfIn(line, '\n', more);
  }

  lemma {:induction false} CutLine(buf: string, b: string)
    requires IndexOf(buf, '\n') < |buf|
    ensures var pos := IndexOf(buf, '\n');
            && IndexOf(buf + b, '\n') == pos && (buf + b)[..pos] == buf[..pos] &&
                 (buf + b)[pos + 1..] == buf[pos + 1..] + b
  {
    var pos := IndexOf(buf, '\n');
    assert buf + b == buf[..pos] + ['\n'] + (buf[pos + 1..] + b);
    DrainStep(buf + b, buf[..pos], buf[pos + 1..] + b);
  }

  lemma {:induction false} FirstLine(buf: string)
    requires IndexOf(buf, '\n') < |buf|
    ensures var pos := IndexOf(buf, '\n');
            var kind, more := Classify(buf[..pos]), Drain(buf[pos + 1..]);
            && (kind.Done? ==> Drain(buf) == Drained([], "", true))
            && (kind.Skip? ==> Drain(buf) == more)
            && (kind.Payload? ==> Drain(buf) == more.(payloads := [kind.data] + more.payloads))
            && (kind.Done? ==> AfterDone(buf) == buf[pos + 1..])
            && (!kind.Done? && more.cleared ==> AfterDone(buf) == AfterDone(buf[pos + 1..]))
  {
  }

  /** Draining `a + b`, from draining `a` and then what it left with `b`. */
  ghost predicate Cuts(a: string, b: string) {
    var d, w := Drain(a), Drain(a + b);
    if d.cleared then w == Drained(d.payloads, "", true) && AfterDone(a + b) == AfterDone(a) + b
    else
      && w == Drain(d.rest + b).(payloads := d.payloads + Drain(d.rest + b).payloads)
      && (w.cleared ==> AfterDone(a + b) == AfterDone(d.rest + b))
  }

  lemma {:induction false} CutsOneLine(a: string, b: string)
    requires IndexOf(a, '\n') < |a| && Cuts(a[IndexOf(a, '\n') + 1..], b)
    ensures Cuts(a, b)
  {
    CutLine(a, b);
    FirstLine(a);
    FirstLine(a + b);
    hide Classify, IndexOf, Drain, AfterDone;
    var pos := IndexOf(a, '\n');
    var d, kind := Drain(a[pos + 1..]), Classify(a[..pos]);
    if kind.Payload? && !d.cleared {
      ConcatAssoc([kind.data], d.payloads, Drain(d.rest + b).payloads);
    }
  }

  /** A cut before any `[DONE]` line makes no difference; after one, what follows is never looked at. */
  lemma {:induction false} DrainCut(a: string, b: string)
    ensures Cuts(a, b)
    decreases |a|
  {
    if IndexOf(a, '\n') < |a| {
      DrainCut(a[IndexOf(a, '\n') + 1..], b);
      CutsOneLine(a, b);
    } else {
      NoLine(a);
      hide Drain, AfterDone;
      assert [] + Drain(a + b).payloads == Drain(a + b).payloads;
    }
  }

  lemma {:induction false} InertSuffix(tail: string, k: nat)
    requires Inert(tail) && k <= |tail|
    ensures Inert(tail[k..])
  {
    var t := tail[k..];
    forall i, j | 0 <= i <= j < |t| && t[j] == '\n' && '\n' !in t[i..j]
      ensures !Classify(t[i..j]).Payload?
    {
      assert t[i..j] == tail[k + i..k + j];
    }
  }

  lemma {:induction false} InertDrains(buf: string, b: string)
    requires Inert(buf + b)
    ensures Drain(buf).payloads == [] && Inert(Drain(buf).rest + b)
    decreases |buf|
  {
    var pos := IndexOf(buf, '\n');
    if pos < |buf| {
      var tail := buf + b;
      assert tail[0..pos] == buf[..pos] && tail[pos] == '\n';
      InertSuffix(tail, pos + 1);
      assert tail[pos + 1..] == buf[pos + 1..] + b;
      InertDrains(buf[pos + 1..], b);
      InertSuffix(tail, |buf|);
      assert tail[|buf|..] == "" + b;
    }
  }

  /** An inert tail is silent however it is cut. */
  lemma {:induction false} InertIsSilent(buf: string, chunks: seq<string>)
    requires Inert(buf + Concat(chunks))
    ensures Fed(buf, chunks) == []
    decreases |chunks|
  {
    if chunks != [] {
      var a := buf + chunks[0];
      ConcatAssoc(buf, chunks[0], Concat(chunks[1..]));
      InertDrains(a, Concat(chunks[1..]));
      InertIsSilent(Drain(a).rest, chunks[1..]);
    }
  }

  lemma {:induction false} FedStep(buf: string, chunks: seq<string>)
    ensures chunks == [] ==> Fed(buf, chunks) == [] && buf + Concat(chunks) == buf
    ensures chunks != [] ==>
              && Fed(buf, chunks) == Drain(buf + chunks[0]).payloads + Fed(Drain(buf + chunks[0]).rest, chunks[1..])
              && buf + Concat(chunks) == buf + chunks[0] + Concat(chunks[1..])
  {
    if chunks != [] {
      ConcatAssoc(buf, chunks[0], Concat(chunks[1..]));
    }
  }

  /** What follows a cleared buffer is the end of what follows the `[DONE]` line. */
  lemma {:induction false} ClearedThenSilent(a: string, chunks: seq<string>)
    requires Drain(a).cleared && Drain(a + Concat(chunks)).cleared && Inert(AfterDone(a + Concat(chunks)))
    ensures Drain(a).payloads + Fed(Drain(a).rest, chunks) == Drain(a).payloads
  {
    hide Drain, AfterDone, Inert, Fed, Concat, IndexOf, Classify;
    var b := Concat(chunks);
    DrainCut(a, b);
    var tail := AfterDone(a + b);
    InertSuffix(tail, |AfterDone(a)|);
    assert tail[|AfterDone(a)|..] == b;
    assert "" + b == b;
    InertIsSilent("", chunks);
    assert Drain(a).payloads + [] == Drain(a).payloads;
  }

  /** Whatever the cuts: if nothing after the first `[DONE]` line can carry a payload, the payloads are
      those of the text read whole. */
  lemma {:induction false} QuietTailFed(buf: string, chunks: seq<string>)
    requires var text := buf + Concat(chunks); Drain(text).cleared ==> Inert(AfterDone(text))
    requires chunks == [] ==> '\n' !in buf
    ensures Fed(buf, chunks) == Events(buf + Concat(chunks))
    decreases |chunks|
  {
    hide Fed, Drain, AfterDone, Inert, Concat, IndexOf, Classify;
    FedStep(buf, chunks);
    if chunks == [] {
      NoNewline(buf);
      NoLine(buf);
    } else {
      var a, b := buf + chunks[0], Concat(chunks[1..]);
      DrainCut(a, b);
      if Drain(a).cleared {
        ClearedThenSilent(a, chunks[1..]);
      } else {
        NoLineLeft(a);
        QuietTailFed(Drain(a).rest, chunks[1..]);
      }
    }
  }

  lemma {:induction false} NoNewline(buf: string)
    requires '\n' !in buf
    ensures IndexOf(buf, '\n') == |buf|
  {
    assert buf[..IndexOf(buf, '\n')] <= buf;
  }

  lemma {:induction false} NoLineLeft(buf: string)
    ensures '\n' !in Drain(buf).rest
    decreases |buf|
  {
    var pos := IndexOf(buf, '\n');
    if pos < |buf| {
      NoLineLeft(buf[pos + 1..]);
    } else {
      assert buf[..pos] == buf;
    }
  }

  // ----- exactly when chunking does not matter -----

  ghost predicate ChunkingFree(text: string) {
    forall chunks | Concat(chunks) == text :: Fed("", chunks) == Events(text)
  }

  ghost predicate Quiet(text: string) {
    Drain(text).cleared ==> Inert(AfterDone(text))
  }

  lemma {:induction false} FedLength(buf: string, chunks: seq<string>)
    requires chunks != []
    ensures |Fed(buf, chunks)| >= |Drain(buf + chunks[0]).payloads|
  {
  }

  lemma {:induction false} UntilDone(text: string) returns (head: string)
    requires Drain(text).cleared
    ensures head + AfterDone(text) == text && Drain(head).cleared && Drain(head).payloads == Events(text)
    decreases |text|
  {
    NoLine(text);
    hide Drain, AfterDone, Classify;
    var pos := IndexOf(text, '\n');
    var line := text[..pos];
    assert text == line + ['\n'] + text[pos + 1..];
    FirstLine(text);
    if Classify(line).Done? {
      head := line + ['\n'];
      assert head == line + ['\n'] + "";
      DrainStep(head, line, "");
      FirstLine(head);
    } else {
      var more := UntilDone(text[pos + 1..]);
      head := line + ['\n'] + more;
      DrainStep(head, line, more);
      FirstLine(head);
    }
  }

  /** A line that only a cut uncovers is a payload in one chunking and nothing in another. */
  lemma {:induction false} NoisyTailShows(text: string, i: nat, j: nat)
    requires Drain(text).cleared
    requires var tail := AfterDone(text);
             i <= j < |tail| && tail[j] == '\n' && '\n' !in tail[i..j] && Classify(tail[i..j]).Payload?
    ensures !ChunkingFree(text)
  {
    hide *;
    var tail := AfterDone(text);
    var head := UntilDone(text);
    var x, y, z := tail[..i], tail[i..j + 1], tail[j + 1..];
    assert tail == x + y + z;
    assert y == tail[i..j] + ['\n'];
    ClearedEarly(head, x);
    OneLinePayload(tail[i..j]);
    ThreeChunks(head + x, y, z);
    assert head + x + y + z == text;
    ConcatThree(head + x, y, z);
    Differs(text, [head + x, y, z]);
  }

  lemma {:induction false} ClearedEarly(head: string, more: string)
    requires Drain(head).cleared
    ensures Drain(head + more) == Drained(Drain(head).payloads, "", true)
  {
    hide Drain;
    DrainCut(head, more);
  }

  lemma {:induction false} Differs(text: string, chunks: seq<string>)
    requires Concat(chunks) == text && |Fed("", chunks)| > |Events(text)|
    ensures !ChunkingFree(text)
  {
  }

  lemma {:induction false} OneLinePayload(line: string)
    requires '\n' !in line && Classify(line).Payload?
    ensures Drain(line + ['\n']).payloads == [Classify(line).data]
  {
    assert line + ['\n'] == line + ['\n'] + "";
    DrainStep(line + ['\n'], line, "");
  }

  lemma {:induction false} ConcatThree(x: string, y: string, z: string)
    ensures Concat([x, y, z]) == x + y + z
  {
    assert [x, y, z][1..] == [y, z] && [y, z][1..] == [z] && [z][1..] == [];
    assert Concat([z]) == z;
    assert Concat([y, z]) == y + z;
  }

  lemma {:induction false} ThreeChunks(x: string, y: string, z: string)
    requires Drain(x).cleared && Drain(x).rest == "" && |Drain(y).payloads| == 1
    ensures |Fed("", [x, y, z])| > |Drain(x).payloads|
  {
    hide Drain;
    assert [x, y, z][1..] == [y, z] && "" + x == x && "" + y == y;
    FedLength("", [y, z]);
    assert Fed("", [x, y, z]) == Drain(x).payloads + Fed("", [y, z]);
  }

  lemma {:induction false} ChunkingFreeExactly(text: string)
    ensures ChunkingFree(text) <==> Quiet(text)
  {
    if Quiet(text) {
      forall chunks | Concat(chunks) == text
        ensures Fed("", chunks) == Events(text)
      {
        assert "" + Concat(chunks) == text;
        QuietTailFed("", chunks);
      }
    } else {
      var tail := AfterDone(text);
      var i, j :| 0 <= i <= j < |tail| && tail[j] == '\n' && '\n' !in tail[i..j] && Classify(tail[i..j]).Payload?;
      NoisyTailShows(text, i, j);
    }
  }

  lemma {:induction false} BlankLine(s: string)
    requires forall k | 0 <= k < |s| :: IsSpace(s[k])
    ensures Classify(s).Skip?
  {
    var line := TrimReturns(s);
    assert |line| >= 5 ==> IsSpace(line[0]) by {
      ReturnsPrefix(s);
    }
  }

  lemma {:induction false} ReturnsPrefix(s: string)
    ensures TrimReturns(s) <= s
  {
    if s != "" && s[|s| - 1] == '\r' {
      ReturnsPrefix(s[..|s| - 1]);
    }
  }

  /** Blank lines after `[DONE]` are harmless. */
  lemma {:induction false} BlankTailIsQuiet(text: string)
    requires Drain(text).cleared ==> forall k | 0 <= k < |AfterDone(text)| :: IsSpace(AfterDone(text)[k])
    ensures Quiet(text)
  {
    if Drain(text).cleared {
      var tail := AfterDone(text);
      forall i, j | 0 <= i <= j < |tail| && tail[j] == '\n' && '\n' !in tail[i..j]
        ensures !Classify(tail[i..j]).Payload?
      {
        BlankLine(tail[i..j]);
      }
    }
  }

  // ----- tool calls -----

  datatype Delta = Delta(index: nat, id: Option<string>, name: Option<string>, arguments: Option<string>)

  datatype PartialCall = PartialCall(id: string, name: string, arguments: string)

  const EMPTY_CALL: PartialCall := PartialCall("", "", "")

  function Padded(calls: seq<PartialCall>, index: nat): (out: seq<PartialCall>)
    ensures |out| == if |calls| <= index then index + 1 else |calls|
    ensures forall i | 0 <= i < |out| :: out[i] == if i < |calls| then calls[i] else EMPTY_CALL
    decreases index + 1 - |calls|
  {
    if |calls| <= index then Padded(calls + [EMPTY_CALL], index) else calls
  }

  function Or<T>(given: Option<T>, kept: T): T {
    if given.Some? then given.value else kept
  }

  function Merge(calls: seq<PartialCall>, delta: Delta): seq<PartialCall> {
    var all := Padded(calls, delta.index);
    var call := all[delta.index];
    all[delta.index := PartialCall(Or(delta.id, call.id), Or(delta.name, call.name),
                                   call.arguments + Or(delta.arguments, ""))]
  }

  method MergeDelta(calls: seq<PartialCall>, delta: Delta) returns (out: seq<PartialCall>)
    ensures out == Merge(calls, delta)
  {
    out := calls;
    while |out| <= delta.index
      invariant Padded(out, delta.index) == Padded(calls, delta.index)
      decreases delta.index + 1 - |out|
    {
      out := out + [EMPTY_CALL];
    }
    var call := out[delta.index];
    if delta.id.Some? {
      call := call.(id := delta.id.value);
    }
    if delta.name.Some? {
      call := call.(name := delta.name.value);
    }
    if delta.arguments.Some? {
      call := call.(arguments := call.arguments + delta.arguments.value);
    }
    assert call.arguments + "" == call.arguments;
    out := out[delta.index := call];
  }

  function MergeAll(calls: seq<PartialCall>, deltas: seq<Delta>): seq<PartialCall> {
    if deltas == [] then calls else Merge(MergeAll(calls, deltas[..|deltas| - 1]), deltas[|deltas| - 1])
  }

  /** The argument fragments carrying `index`, in the order they came. */
  function Fragments(deltas: seq<Delta>, index: nat): string {
    if deltas == [] then ""
    else Fragments(deltas[..|deltas| - 1], index) +
         (if deltas[|deltas| - 1].index == index then Or(deltas[|deltas| - 1].arguments, "") else "")
  }

  function LastId(deltas: seq<Delta>, index: nat): string {
    if deltas == [] then ""
    else
      var last := deltas[|deltas| - 1];
      if last.index == index && last.id.Some? then last.id.value else LastId(deltas[..|deltas| - 1], index)
  }

  function LastName(deltas: seq<Delta>, index: nat): string {
    if deltas == [] then ""
    else
      var last := deltas[|deltas| - 1];
      if last.index == index && last.name.Some? then last.name.value else LastName(deltas[..|deltas| - 1], index)
  }

  /** The call with this index, if there is one yet. */
  function CallAt(calls: seq<PartialCall>, index: nat): PartialCall {
    if index < |calls| then calls[index] else EMPTY_CALL
  }

  lemma {:induction false} MergeAt(calls: seq<PartialCall>, delta: Delta, index: nat)
    ensures |Merge(calls, delta)| == if |calls| <= delta.index then delta.index + 1 else |calls|
    ensures var call := CallAt(calls, index);
            CallAt(Merge(calls, delta), index) ==
            if index != delta.index then call
            else PartialCall(Or(delta.id, call.id), Or(delta.name, call.name), call.arguments + Or(delta.arguments, ""))
  {
  }

  /** Each call's arguments are the fragments with its index, put together in order; its id and name
      are the last ones given; and there are calls up to the highest index seen. */
  lemma {:induction false} CallsAreReassembled(deltas: seq<Delta>, index: nat)
    ensures CallAt(MergeAll([], deltas), index) ==
              PartialCall(LastId(deltas, index), LastName(deltas, index), Fragments(deltas, index))
    ensures index < |MergeAll([], deltas)| <==> exists k :: 0 <= k < |deltas| && deltas[k].index >= index
  {
    hide Merge, CallAt;
    if deltas == [] {
      NoCalls(index);
    } else {
      var init, last := deltas[..|deltas| - 1], deltas[|deltas| - 1];
      CallsAreReassembled(init, index);
      MergeAt(MergeAll([], init), last, index);
      assert Fragments(init, index) + "" == Fragments(init, index);
      HighestIndex(init, last, index);
      assert deltas == init + [last];
    }
  }

  lemma {:induction false} NoCalls(index: nat)
    ensures CallAt([], index) == PartialCall("", "", "")
  {
  }

  lemma {:induction false} HighestIndex(init: seq<Delta>, last: Delta, index: nat)
    ensures (exists k :: 0 <= k < |init + [last]| && (init + [last])[k].index >= index) <==>
            (exists k :: 0 <= k < |init| && init[k].index >= index) || last.index >= index
  {
    var deltas := init + [last];
    assert forall k | 0 <= k < |init| :: deltas[k] == init[k];
    assert deltas[|init|] == last;
    if k :| 0 <= k < |init| && init[k].index >= index {
      assert deltas[k].index >= index;
    }
  }

  // ----- the whole reply -----

  datatype FinishReason = Stop | ToolCalls | Length | Other(text: string)

  datatype Usage = Usage(promptTokens: nat, completionTokens: nat, reasoningTokens: nat)

  datatype Choice = Choice(content: Option<string>, deltas: seq<Delta>, finish: Option<string>)

  datatype Event = Event(usage: Option<Usage>, choices: seq<Choice>)

  datatype ProviderError = Transport | MalformedEvent(data: string) | MalformedArguments(text: string)

  datatype ToolCall<J> = ToolCall(id: string, name: string, arguments: J)

  datatype Reply<J> = Reply(content: Option<string>, calls: seq<ToolCall<J>>, finish: FinishReason, usage: Usage)

  /** How far a reply has been put together. */
  datatype Progress = Progress(content: string, calls: seq<PartialCall>, finish: FinishReason, usage: Usage)

  /** The JSON library: decoding an event, and a call's arguments. */
  datatype Codec<J> = Codec(event: string -> Option<Event>, arguments: string -> Option<J>, emptyObject: J)

  const START: Progress := Progress("", [], Stop, Usage(0, 0, 0))

  function ParseFinishReason(reason: string): FinishReason {
    if reason == "stop" then Stop
    else if reason == "tool_calls" || reason == "function_call" then ToolCalls
    else if reason == "length" then Length
    else Other(reason)
  }

  /** Only the first choice counts. */
  function Absorb(p: Progress, event: Event): Progress {
    var q := p.(usage := Or(event.usage, p.usage));
    if event.choices == [] then q
    else
      var choice := event.choices[0];
      Progress(q.content + Or(choice.content, ""), MergeAll(q.calls, choice.deltas),
               if choice.finish.Some? then ParseFinishReason(choice.finish.value) else q.finish, q.usage)
  }

  /** The payloads in order, up to the first that does not decode. */
  function AbsorbAll<J>(codec: Codec<J>, p: Progress, payloads: seq<string>): Result<Progress, ProviderError>
    decreases |payloads|
  {
    if payloads == [] then Success(p)
    else
      match codec.event(payloads[0])
      case None => Failure(MalformedEvent(payloads[0]))
      case Some(event) => AbsorbAll(codec, Absorb(p, event), payloads[1..])
  }

  function ResolveCalls<J>(codec: Codec<J>, calls: seq<PartialCall>): Result<seq<ToolCall<J>>, ProviderError> {
    if calls == [] then Success([])
    else
      var init :- ResolveCalls(codec, calls[..|calls| - 1]);
      var last := calls[|calls| - 1];
      if last.arguments == "" then Success(init + [ToolCall(last.id, last.name, codec.emptyObject)])
      else
        match codec.arguments(last.arguments)
        case None => Failure(MalformedArguments(last.arguments))
        case Some(arguments) => Success(init + [ToolCall(last.id, last.name, arguments)])
  }

  function Finished<J>(codec: Codec<J>, p: Progress): Result<Reply<J>, ProviderError> {
    var calls :- ResolveCalls(codec, p.calls);
    Success(Reply(if p.content == "" then None else Some(p.content), calls,
                  if calls != [] && p.finish.Stop? then ToolCalls else p.finish, p.usage))
  }

  /** The reply to a stream, given its payloads and whether the transport broke after them. */
  function ReplyTo<J>(codec: Codec<J>, payloads: seq<string>, broken: bool): Result<Reply<J>, ProviderError> {
    var p :- AbsorbAll(codec, START, payloads);
    if broken then Failure(Transport) else Finished(codec, p)
  }

  /** The chunks before the transport broke, if it did. */
  function Arrived(chunks: seq<Option<string>>): seq<string> {
    if chunks == [] || chunks[0].None? then [] else [chunks[0].value] + Arrived(chunks[1..])
  }

  predicate Broken(chunks: seq<Option<string>>) {
    chunks != [] && (chunks[0].None? || Broken(chunks[1..]))
  }

  lemma {:induction false} AbsorbCut<J>(codec: Codec<J>, p: Progress, a: seq<string>, b: seq<string>)
    ensures AbsorbAll(codec, p, a + b) ==
            (match AbsorbAll(codec, p, a)
             case Failure(e) => Failure(e)
             case Success(q) => AbsorbAll(codec, q, b))
    decreases |a|
  {
    if a == [] {
      assert a + b == b;
    } else {
      assert (a + b)[1..] == a[1..] + b;
      match codec.event(a[0])
      case None =>
      case Some(event) => AbsorbCut(codec, Absorb(p, event), a[1..], b);
    }
  }

  method AbsorbEvent(p: Progress, event: Event) returns (q: Progress)
    ensures q == Absorb(p, event)
  {
    q := p;
    if event.usage.Some? {
      q := q.(usage := event.usage.value);
    }
    assert q.content + "" == q.content;
    if event.choices != [] {
      var choice := event.choices[0];
      if choice.content.Some? {
        q := q.(content := q.content + choice.content.value);
      }
      var calls := q.calls;
      for i := 0 to |choice.deltas|
        invariant calls == MergeAll(q.calls, choice.deltas[..i])
      {
        calls := MergeDelta(calls, choice.deltas[i]);
        assert choice.deltas[..i + 1][..i] == choice.deltas[..i];
      }
      assert choice.deltas[..|choice.deltas|] == choice.deltas;
      q := q.(calls := calls);
      if choice.finish.Some? {
        q := q.(finish := ParseFinishReason(choice.finish.value));
      }
    }
  }

  /** Handle every complete line in the buffer. */
  method DrainBuffer<J>(codec: Codec<J>, buf0: string, p0: Progress)
    returns (buf: string, p: Progress, error: Option<ProviderError>)
    ensures match AbsorbAll(codec, p0, Drain(buf0).payloads)
            case Failure(e) => error == Some(e)
            case Success(q) => error.None? && p == q && buf == Drain(buf0).rest
  {
    hide Classify, Absorb, AbsorbAll, Drain, IndexOf;
    buf, p, error := buf0, p0, None;
    Nothing(codec, p0);
    ghost var seen: seq<string> := [];
    assert seen + Drain(buf).payloads == Drain(buf0).payloads;
    while IndexOf(buf, '\n') < |buf|
      invariant error.None? && Drain(buf).rest == Drain(buf0).rest
      invariant seen + Drain(buf).payloads == Drain(buf0).payloads
      invariant AbsorbAll(codec, p0, seen) == Success(p)
      decreases |buf|
    {
      var pos := IndexOf(buf, '\n');
      var kind := Classify(buf[..pos]);
      ghost var left := Drain(buf).payloads;
      FirstLine(buf);
      match kind {
        case Skip =>
          buf := buf[pos + 1..];
        case Done =>
          buf := "";
          NoLine(buf);
          break;
        case Payload(data) =>
          buf := buf[pos + 1..];
          assert left == [data] + Drain(buf).payloads;
          ConcatAssoc(seen, [data], Drain(buf).payloads);
          AbsorbCut(codec, p0, seen, [data]);
          AbsorbCut(codec, p0, seen + [data], Drain(buf).payloads);
          AbsorbOne(codec, p, data);
          var event := codec.event(data);
          if event.None? {
            return buf, p, Some(MalformedEvent(data));
          }
          p := AbsorbEvent(p, event.value);
          seen := seen + [data];
      }
    }
    NoLine(buf);
    assert seen + [] == seen;
  }

  lemma {:induction false} NoLine(buf: string)
    ensures IndexOf(buf, '\n') >= |buf| ==> Drain(buf) == Drained([], buf, false)
    ensures Drain("") == Drained([], "", false)
  {
  }

  lemma {:induction false} AbsorbOne<J>(codec: Codec<J>, p: Progress, data: string)
    ensures AbsorbAll(codec, p, [data]) ==
            (match codec.event(data)
             case None => Failure(MalformedEvent(data))
             case Some(event) => Success(Absorb(p, event)))
  {
    assert [data][1..] == [];
  }

  lemma {:induction false} Nothing<J>(codec: Codec<J>, p: Progress)
    ensures AbsorbAll(codec, p, []) == Success(p)
  {
  }

  lemma {:induction false} FedOnce(buf: string, chunk: string, chunks: seq<Option<string>>)
    requires chunks != [] && chunks[0] == Some(chunk)
    ensures var d := Drain(buf + chunk);
            Fed(buf, Arrived(chunks)) == d.payloads + Fed(d.rest, Arrived(chunks[1..]))
  {
    assert Arrived(chunks)[0] == chunk && Arrived(chunks)[1..] == Arrived(chunks[1..]);
  }

  /** The chunks may break off; the reply depends on the payloads they brought. */
  method Consume<J>(codec: Codec<J>, chunks: seq<Option<string>>) returns (r: Result<Reply<J>, ProviderError>)
    ensures r == ReplyTo(codec, Fed("", Arrived(chunks)), Broken(chunks))
  {
    hide Drain, AbsorbAll, Absorb, Finished;
    var buf, p := "", START;
    ghost var seen: seq<string> := [];
    Nothing(codec, START);
    assert chunks[0..] == chunks;
    assert [] + Fed("", Arrived(chunks)) == Fed("", Arrived(chunks));
    for i := 0 to |chunks|
      invariant AbsorbAll(codec, START, seen) == Success(p)
      invariant seen + Fed(buf, Arrived(chunks[i..])) == Fed("", Arrived(chunks))
      invariant Broken(chunks[i..]) == Broken(chunks)
    {
      ghost var rest := chunks[i..];
      assert rest[0] == chunks[i] && rest[1..] == chunks[i + 1..];
      if chunks[i].None? {
        assert seen + [] == seen;
        return Failure(Transport);
      }
      FedOnce(buf, chunks[i].value, rest);
      buf := buf + chunks[i].value;
      ghost var came := Drain(buf).payloads;
      AbsorbCut(codec, START, seen, came);
      ghost var whole := buf;
      var error;
      buf, p, error := DrainBuffer(codec, buf, p);
      ghost var later := Fed(Drain(whole).rest, Arrived(chunks[i + 1..]));
      ConcatAssoc(seen, came, later);
      if error.Some? {
        AbsorbCut(codec, START, seen + came, later);
        return Failure(error.value);
      }
      seen := seen + came;
    }
    assert chunks[|chunks|..] == [];
    assert seen + [] == seen;
    r := Finished(codec, p);
  }

  /** The reply to a quiet text is the same however it is cut into chunks: the content, the calls, the
      finish reason, the usage, or the first error. */
  lemma {:induction false} ChunkingDoesNotMatter<J>(
      codec: Codec<J>, text: string, one: seq<string>, two: seq<string>, broken: bool)
    requires Quiet(text) && Concat(one) == text && Concat(two) == text
    ensures ReplyTo(codec, Fed("", one), broken) == ReplyTo(codec, Fed("", two), broken)
  {
    ChunkingFreeExactly(text);
  }

  // ----- what the reply holds -----

  function Deltas<J>(codec: Codec<J>, payloads: seq<string>): seq<Delta> {
    if payloads == [] then []
    else
      (match codec.event(payloads[0])
       case None => []
       case Some(event) => if event.choices == [] then [] else event.choices[0].deltas) + Deltas(codec, payloads[1..])
  }

  function Contents<J>(codec: Codec<J>, payloads: seq<string>): string {
    if payloads == [] then ""
    else
      (match codec.event(payloads[0])
       case None => ""
       case Some(event) => if event.choices == [] then "" else Or(event.choices[0].content, "")) +
           Contents(codec, payloads[1..])
  }

  lemma {:induction false} MergeAllCut(calls: seq<PartialCall>, a: seq<Delta>, b: seq<Delta>)
    ensures MergeAll(calls, a + b) == MergeAll(MergeAll(calls, a), b)
    decreases |b|
  {
    if b == [] {
      assert a + b == a;
    } else {
      assert (a + b)[..|a + b| - 1] == a + b[..|b| - 1];
      MergeAllCut(calls, a, b[..|b| - 1]);
    }
  }

  /** Every delta of every payload is merged, and every piece of content kept, in order. */
  lemma {:induction false} NothingIsLost<J>(codec: Codec<J>, p: Progress, payloads: seq<string>)
    requires AbsorbAll(codec, p, payloads).Success?
    ensures var q := AbsorbAll(codec, p, payloads).value;
            q.calls == MergeAll(p.calls, Deltas(codec, payloads)) && q.content == p.content + Contents(codec, payloads)
    decreases |payloads|
  {
    if payloads == [] {
      assert p.content + "" == p.content;
    } else {
      var event := codec.event(payloads[0]).value;
      var next := Absorb(p, event);
      NothingIsLost(codec, next, payloads[1..]);
      var deltas := if event.choices == [] then [] else event.choices[0].deltas;
      var content := if event.choices == [] then "" else Or(event.choices[0].content, "");
      MergeAllCut(p.calls, deltas, Deltas(codec, payloads[1..]));
      assert p.content + "" == p.content;
      ConcatAssoc(p.content, content, Contents(codec, payloads[1..]));
    }
  }
}
