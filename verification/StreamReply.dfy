/** What a stream's lines say and what its reply holds, told over the text and the events. */
module StreamReplies {
  import opened Wrappers
  import opened Text
  import opened Streams

  // ----- lines -----

  /** A line that carries `data`: the prefix, and the data with white space around it. */
  ghost predicate Carries(line: string, data: string) {
    exists more :: line == "data:" + more && TrimmedTo(more, data)
  }

  lemma {:induction false} ReturnsOff(s: string) returns (returns0: string)
    ensures s == TrimReturns(s) + returns0 && Blank(returns0) && forall i | 0 <= i < |returns0| :: returns0[i] == '\r'
  {
    if s != "" && s[|s| - 1] == '\r' {
      returns0 := ReturnsOff(s[..|s| - 1]);
      assert s == s[..|s| - 1] + ['\r'];
      returns0 := returns0 + ['\r'];
    } else {
      returns0 := "";
    }
  }

  lemma {:induction false} TrimOneMore(s: string, blank: string)
    requires Blank(blank)
    ensures Trim(s + blank) == Trim(s)
  {
    hide Trim;
    TrimExactly(s, Trim(s));
    var front, back :| Around(s, front, Trim(s), back) && Edged(Trim(s));
    BlankJoin(back, blank);
    assert s + blank == front + Trim(s) + (back + blank);
    assert Around(s + blank, front, Trim(s), back + blank);
    TrimExactly(s + blank, Trim(s));
  }

  lemma {:induction false} PrefixOf(raw: string)
    ensures StartsWith(TrimReturns(raw), "data:") <==> StartsWith(raw, "data:")
    ensures StartsWith(raw, "data:") ==> Trim(TrimReturns(raw)[5..]) == Trim(raw[5..])
  {
    hide Trim, TrimReturns;
    var line := TrimReturns(raw);
    var more := ReturnsOff(raw);
    if StartsWith(raw, "data:") {
      assert raw[4] == ':' by {
        assert raw[..5][4] == raw[4];
      }
      assert |line| > 4;
      assert line[..5] == raw[..5];
      assert raw[5..] == line[5..] + more;
      TrimOneMore(line[5..], more);
    }
    if StartsWith(line, "data:") {
      assert raw[..5] == line[..5];
    }
  }

  /** A line is the end of the stream, a payload or nothing by the data it carries. */
  lemma {:induction false} ClassifyExactly(raw: string)
    ensures Classify(raw) == Done <==> Carries(raw, "[DONE]")
    ensures forall data :: Classify(raw) == Payload(data) <==> Carries(raw, data) && data != "" && data != "[DONE]"
    ensures Classify(raw) == Skip <==> (forall data :: Carries(raw, data) ==> data == "")
  {
    hide Trim, TrimReturns, TrimmedTo;
    PrefixOf(raw);
    if StartsWith(raw, "data:") {
      assert raw == "data:" + raw[5..];
      TrimExactly(raw[5..], Trim(raw[5..]));
      assert Carries(raw, Trim(raw[5..]));
      forall data | Carries(raw, data) ensures data == Trim(raw[5..]) {
        var more :| raw == "data:" + more && TrimmedTo(more, data);
        assert more == raw[5..];
        TrimExactly(more, data);
      }
    } else {
      forall data ensures !Carries(raw, data) {
        CarriesStarts(raw, data);
      }
    }
  }

  lemma {:induction false} CarriesStarts(raw: string, data: string)
    ensures Carries(raw, data) ==> StartsWith(raw, "data:")
  {
  }

  // ----- a text read line by line -----

  /** The lines of a text that are ended by a newline. */
  function Lines(text: string): seq<string> {
    var parts := Split(text, '\n');
    parts[..|parts| - 1]
  }

  /** What the lines carry, one after the other. */
  function Carried(lines: seq<string>): seq<string> {
    if lines == [] then []
    else (match Classify(lines[0]) case Payload(data) => [data] case _ => []) + Carried(lines[1..])
  }

  /** Line `n` is the first to end the stream. */
  ghost predicate FirstDone(lines: seq<string>, n: nat) {
    n < |lines| && Carries(lines[n], "[DONE]") && forall k | 0 <= k < n :: !Carries(lines[k], "[DONE]")
  }

  lemma {:induction false} FirstOfSplit(text: string)
    ensures var pos, parts := IndexOf(text, '\n'), Split(text, '\n');
            && parts[0] == text[..pos]
            && (pos == |text| ==> parts == [text])
            && (pos < |text| ==> parts == [text[..pos]] + Split(text[pos + 1..], '\n'))
  {
    var pos := IndexOf(text, '\n');
    if pos == |text| {
      assert text[..pos] == text;
      SplitPrepend(text, "", '\n');
      assert text + "" == text;
    } else {
      var line, more := text[..pos], text[pos..];
      assert text == line + more && more[0] == '\n' && more[1..] == text[pos + 1..];
      SplitPrepend(line, more, '\n');
      assert line + "" == line;
    }
  }

  lemma {:induction false} LinesStep(text: string)
    ensures var pos := IndexOf(text, '\n');
            && (pos == |text| ==> Lines(text) == [])
            && (pos < |text| ==> Lines(text) == [text[..pos]] + Lines(text[pos + 1..]))
  {
    FirstOfSplit(text);
    var pos := IndexOf(text, '\n');
    if pos < |text| {
      var rest := Split(text[pos + 1..], '\n');
      assert ([text[..pos]] + rest)[..|rest|] == [text[..pos]] + rest[..|rest| - 1];
    }
  }

  lemma {:induction false} LaterDone(lines: seq<string>, line: string, n: nat)
    requires !Carries(line, "[DONE]")
    ensures FirstDone([line] + lines, n + 1) <==> FirstDone(lines, n)
    ensures !FirstDone([line] + lines, 0)
  {
    var all := [line] + lines;
    assert forall k | 0 <= k < |lines| :: all[k + 1] == lines[k];
    if FirstDone(all, n + 1) {
      forall k | 0 <= k < n ensures !Carries(lines[k], "[DONE]") {
        assert !Carries(all[k + 1], "[DONE]");
      }
    }
    if FirstDone(lines, n) {
      forall k | 0 <= k < n + 1 ensures !Carries(all[k], "[DONE]") {
        assert k > 0 ==> all[k] == lines[k - 1];
      }
    }
  }

  /** What draining a text gives: what its complete lines carry up to the first `[DONE]`; without
      one, what follows the last newline stays for later. */
  ghost predicate ReadsLines(text: string) {
    var d, lines, parts := Drain(text), Lines(text), Split(text, '\n');
    && (d.cleared <==> SomeDone(lines))
    && (forall n: nat | FirstDone(lines, n) :: d.payloads == Carried(lines[..n]))
    && (!d.cleared ==> d.payloads == Carried(lines) && d.rest == parts[|parts| - 1])
  }

  ghost predicate SomeDone(lines: seq<string>) {
    exists n: nat :: FirstDone(lines, n)
  }

  lemma {:induction false} SomeDoneStep(lines: seq<string>, line: string)
    requires !Carries(line, "[DONE]")
    ensures SomeDone([line] + lines) <==> SomeDone(lines)
  {
    hide FirstDone, Carries;
    if n: nat :| FirstDone(lines, n) {
      LaterDone(lines, line, n);
    }
    if n: nat :| FirstDone([line] + lines, n) {
      LaterDone(lines, line, if n > 0 then n - 1 else 0);
    }
  }

  lemma {:induction false} ReadOn(text: string)
    requires var pos := IndexOf(text, '\n');
             pos < |text| && ReadsLines(text[pos + 1..]) && !Carries(text[..pos], "[DONE]")
    ensures ReadsLines(text)
  {
    hide Classify, Carries, FirstDone, Lines, Drain, SomeDone, Split, IndexOf, Carried;
    var pos := IndexOf(text, '\n');
    var line, more := text[..pos], text[pos + 1..];
    LinesStep(text);
    FirstOfSplit(text);
    FirstLine(text);
    ClassifyExactly(line);
    SomeDoneStep(Lines(more), line);
    CarriedStep(line, Lines(more));
    forall n: nat | FirstDone(Lines(text), n) ensures n < |Lines(text)| {
      SomeDoneHas(Lines(text), n);
    }
    forall n: nat | n < |Lines(text)| && FirstDone(Lines(text), n)
      ensures Drain(text).payloads == Carried(Lines(text)[..n])
    {
      LaterDone(Lines(more), line, if n > 0 then n - 1 else 0);
      assert Lines(text)[..n] == [line] + Lines(more)[..n - 1];
      CarriedStep(line, Lines(more)[..n - 1]);
    }
  }

  lemma {:induction false} SomeDoneHas(lines: seq<string>, n: nat)
    requires FirstDone(lines, n)
    ensures n < |lines|
  {
  }

  lemma {:induction false} ReadEnd(text: string)
    requires var pos := IndexOf(text, '\n'); pos < |text| && Carries(text[..pos], "[DONE]")
    ensures ReadsLines(text)
  {
    hide Classify, Carries, FirstDone, Lines, Drain;
    var pos := IndexOf(text, '\n');
    LinesStep(text);
    FirstLine(text);
    ClassifyExactly(text[..pos]);
    DoneHere(Lines(text[pos + 1..]), text[..pos]);
  }

  lemma {:induction false} DrainExactly(text: string)
    ensures ReadsLines(text)
    decreases |text|
  {
    hide ReadsLines, Carries;
    var pos := IndexOf(text, '\n');
    if pos == |text| {
      LinesStep(text);
      FirstOfSplit(text);
      NoLine(text);
      ReadNone(text);
    } else if Carries(text[..pos], "[DONE]") {
      ReadEnd(text);
    } else {
      DrainExactly(text[pos + 1..]);
      ReadOn(text);
    }
  }

  lemma {:induction false} ReadNone(text: string)
    requires Lines(text) == [] && Split(text, '\n') == [text] && Drain(text) == Drained([], text, false)
    ensures ReadsLines(text)
  {
    NoDone();
  }

  lemma {:induction false} NoDone()
    ensures forall n: nat :: !FirstDone([], n)
    ensures Carried([]) == []
  {
  }

  lemma {:induction false} DoneHere(lines: seq<string>, line: string)
    requires Carries(line, "[DONE]")
    ensures FirstDone([line] + lines, 0)
    ensures forall n: nat :: FirstDone([line] + lines, n) ==> n == 0
    ensures Carried(([line] + lines)[..0]) == []
  {
    assert ([line] + lines)[0] == line;
  }

  lemma {:induction false} CarriedStep(line: string, lines: seq<string>)
    ensures Carried([line] + lines) ==
            (match Classify(line) case Payload(data) => [data] case _ => []) + Carried(lines)
  {
    assert ([line] + lines)[1..] == lines;
  }

  // ----- the reply -----

  /** Payload `i` decodes and its first choice gives a finish reason. */
  ghost predicate GivesFinish<J>(codec: Codec<J>, payload: string, reason: string) {
    var event := codec.event(payload);
    event.Some? && event.value.choices != [] && event.value.choices[0].finish == Some(reason)
  }

  ghost predicate GivesUsage<J>(codec: Codec<J>, payload: string, usage: Usage) {
    codec.event(payload).Some? && codec.event(payload).value.usage == Some(usage)
  }

  /** `reason` is the last finish reason given. */
  ghost predicate LastFinish<J>(codec: Codec<J>, payloads: seq<string>, reason: string) {
    exists i | 0 <= i < |payloads| ::
      && GivesFinish(codec, payloads[i], reason)
      && forall j | i < j < |payloads| :: SilentOnFinish(codec, payloads[j])
  }

  ghost predicate SilentOnFinish<J>(codec: Codec<J>, payload: string) {
    forall reason :: !GivesFinish(codec, payload, reason)
  }

  ghost predicate LastUsage<J>(codec: Codec<J>, payloads: seq<string>, usage: Usage) {
    exists i | 0 <= i < |payloads| ::
      && GivesUsage(codec, payloads[i], usage)
      && forall j | i < j < |payloads| :: SilentOnUsage(codec, payloads[j])
  }

  ghost predicate SilentOnUsage<J>(codec: Codec<J>, payload: string) {
    forall usage :: !GivesUsage(codec, payload, usage)
  }

  /** What the wire's finish reason stands for; a stop after tool calls is for them. */
  ghost predicate FinishMeans(reason: string, calling: bool, finish: FinishReason) {
    if reason == "stop" then finish == if calling then ToolCalls else Stop
    else if reason == "tool_calls" || reason == "function_call" then finish == ToolCalls
    else if reason == "length" then finish == Length
    else finish == Other(reason)
  }

  /** Calls as decoded: ids and names as put together, arguments read from their text, none meaning
      the empty object. */
  ghost predicate CallsMean<J>(codec: Codec<J>, partial: seq<PartialCall>, calls: seq<ToolCall<J>>) {
    && |calls| == |partial|
    && forall i | 0 <= i < |calls| ::
         && calls[i].id == partial[i].id && calls[i].name == partial[i].name
         && if partial[i].arguments == "" then calls[i].arguments == codec.emptyObject
            else codec.arguments(partial[i].arguments) == Some(calls[i].arguments)
  }

  ghost predicate AllDecode<J>(codec: Codec<J>, payloads: seq<string>) {
    forall i | 0 <= i < |payloads| :: codec.event(payloads[i]).Some?
  }

  /** What the last of some payloads leaves: the finish reason and usage last given, if any was. */
  ghost predicate Settles<J>(codec: Codec<J>, p: Progress, payloads: seq<string>, q: Progress) {
    && (forall reason :: LastFinish(codec, payloads, reason) ==> q.finish == ParseFinishReason(reason))
    && ((forall reason :: !LastFinish(codec, payloads, reason)) ==> q.finish == p.finish)
    && (forall usage :: LastUsage(codec, payloads, usage) ==> q.usage == usage)
    && ((forall usage :: !LastUsage(codec, payloads, usage)) ==> q.usage == p.usage)
  }

  lemma {:induction false} FinishLast<J>(codec: Codec<J>, payloads: seq<string>, last: string, reason: string)
    ensures LastFinish(codec, payloads + [last], reason) <==>
            || GivesFinish(codec, last, reason)
            || (SilentOnFinish(codec, last) && LastFinish(codec, payloads, reason))
  {
    hide GivesFinish;
    var all, n := payloads + [last], |payloads|;
    assert all[n] == last && forall i | 0 <= i < n :: all[i] == payloads[i];
    if LastFinish(codec, all, reason) {
      var i :| 0 <= i <= n && GivesFinish(codec, all[i], reason) &&
          forall j | i < j <= n :: SilentOnFinish(codec, all[j]);
      assert i < n ==> SilentOnFinish(codec, all[n]) && GivesFinish(codec, payloads[i], reason);
    }
    if GivesFinish(codec, last, reason) {
      assert GivesFinish(codec, all[n], reason);
    }
    if SilentOnFinish(codec, last) && LastFinish(codec, payloads, reason) {
      var i :| 0 <= i < n && GivesFinish(codec, payloads[i], reason) &&
          forall j | i < j < n :: SilentOnFinish(codec, payloads[j]);
      assert GivesFinish(codec, all[i], reason);
    }
  }

  lemma {:induction false} UsageLast<J>(codec: Codec<J>, payloads: seq<string>, last: string, usage: Usage)
    ensures LastUsage(codec, payloads + [last], usage) <==>
            || GivesUsage(codec, last, usage)
            || (SilentOnUsage(codec, last) && LastUsage(codec, payloads, usage))
  {
    hide GivesUsage;
    var all, n := payloads + [last], |payloads|;
    assert all[n] == last && forall i | 0 <= i < n :: all[i] == payloads[i];
    if LastUsage(codec, all, usage) {
      var i :| 0 <= i <= n && GivesUsage(codec, all[i], usage) &&
          forall j | i < j <= n :: SilentOnUsage(codec, all[j]);
      assert i < n ==> SilentOnUsage(codec, all[n]) && GivesUsage(codec, payloads[i], usage);
    }
    if GivesUsage(codec, last, usage) {
      assert GivesUsage(codec, all[n], usage);
    }
    if SilentOnUsage(codec, last) && LastUsage(codec, payloads, usage) {
      var i :| 0 <= i < n && GivesUsage(codec, payloads[i], usage) &&
          forall j | i < j < n :: SilentOnUsage(codec, payloads[j]);
      assert GivesUsage(codec, all[i], usage);
    }
  }

  lemma {:induction false} OneSettles<J>(codec: Codec<J>, p: Progress, payload: string)
    requires codec.event(payload).Some?
    ensures var q := Absorb(p, codec.event(payload).value);
            && (forall reason :: GivesFinish(codec, payload, reason) ==> q.finish == ParseFinishReason(reason))
            && (SilentOnFinish(codec, payload) ==> q.finish == p.finish)
            && (forall usage :: GivesUsage(codec, payload, usage) ==> q.usage == usage)
            && (SilentOnUsage(codec, payload) ==> q.usage == p.usage)
  {
    var event := codec.event(payload).value;
    if event.usage.Some? {
      assert GivesUsage(codec, payload, event.usage.value);
    }
    if event.choices != [] && event.choices[0].finish.Some? {
      assert GivesFinish(codec, payload, event.choices[0].finish.value);
    }
  }

  lemma {:induction false} AllSettle<J>(codec: Codec<J>, p: Progress, payloads: seq<string>)
    requires AbsorbAll(codec, p, payloads).Success?
    ensures Settles(codec, p, payloads, AbsorbAll(codec, p, payloads).value)
  {
    if payloads == [] {
    } else {
      var before, last := payloads[..|payloads| - 1], payloads[|payloads| - 1];
      assert payloads == before + [last];
      AbsorbCut(codec, p, before, [last]);
      AllSettle(codec, p, before);
      var mid := AbsorbAll(codec, p, before).value;
      AbsorbOne(codec, mid, last);
      OneSettles(codec, mid, last);
      SettlesOneMore(codec, p, before, mid, last, AbsorbAll(codec, p, payloads).value);
    }
  }

  lemma {:induction false} SettlesOneMore<J>(
      codec: Codec<J>, p: Progress, before: seq<string>, mid: Progress, last: string, q: Progress)
    requires Settles(codec, p, before, mid) && codec.event(last).Some? && q == Absorb(mid, codec.event(last).value)
    ensures Settles(codec, p, before + [last], q)
  {
    hide LastFinish, LastUsage, GivesFinish, GivesUsage, Absorb, ParseFinishReason;
    OneSettles(codec, mid, last);
    forall reason {
      FinishLast(codec, before, last, reason);
    }
    forall usage {
      UsageLast(codec, before, last, usage);
    }
  }

  lemma {:induction false} CallsResolve<J>(codec: Codec<J>, partial: seq<PartialCall>)
    requires ResolveCalls(codec, partial).Success?
    ensures CallsMean(codec, partial, ResolveCalls(codec, partial).value)
  {
    if partial != [] {
      CallsResolve(codec, partial[..|partial| - 1]);
    }
  }

  lemma {:induction false} Decoded<J>(codec: Codec<J>, p: Progress, payloads: seq<string>)
    ensures AbsorbAll(codec, p, payloads).Success? <==> AllDecode(codec, payloads)
    decreases |payloads|
  {
    hide Absorb;
    if payloads != [] {
      assert forall i | 1 <= i < |payloads| :: payloads[i] == payloads[1..][i - 1];
      if codec.event(payloads[0]).Some? {
        Decoded(codec, Absorb(p, codec.event(payloads[0]).value), payloads[1..]);
      }
    }
  }

  /** A reply comes of payloads that all decode and a transport that held: the content in order or
      none, the calls as put together, the usage last given, and the finish reason last given, a stop
      or nothing at all reading as tool calls when there are calls. */
  lemma {:induction false} ReplyMeans<J>(codec: Codec<J>, payloads: seq<string>, broken: bool)
    requires ReplyTo(codec, payloads, broken).Success?
    ensures !broken && AllDecode(codec, payloads)
    ensures var reply, content := ReplyTo(codec, payloads, broken).value, Contents(codec, payloads);
            && reply.content == (if content == "" then None else Some(content))
            && CallsMean(codec, MergeAll([], Deltas(codec, payloads)), reply.calls)
            && (forall usage :: LastUsage(codec, payloads, usage) ==> reply.usage == usage)
            && ((forall usage :: !LastUsage(codec, payloads, usage)) ==> reply.usage == Usage(0, 0, 0))
            && (forall reason :: LastFinish(codec, payloads, reason) ==>
                  FinishMeans(reason, reply.calls != [], reply.finish))
            && ((forall reason :: !LastFinish(codec, payloads, reason)) ==>
                 reply.finish == if reply.calls != [] then ToolCalls else Stop)
  {
    hide AbsorbAll, Absorb, LastFinish, LastUsage, AllDecode, MergeAll, Deltas, Contents, ResolveCalls, CallsMean;
    NothingIsLost(codec, START, payloads);
    AllSettle(codec, START, payloads);
    Decoded(codec, START, payloads);
    var p := AbsorbAll(codec, START, payloads).value;
    assert "" + Contents(codec, payloads) == Contents(codec, payloads);
    CallsResolve(codec, p.calls);
  }

  /** The first payload that does not decode. */
  ghost predicate FirstUndecoded<J>(codec: Codec<J>, payloads: seq<string>, k: nat) {
    && k < |payloads| && codec.event(payloads[k]).None?
    && forall i | 0 <= i < k :: codec.event(payloads[i]).Some?
  }

  /** The first call whose arguments do not decode. */
  ghost predicate FirstBadCall<J>(codec: Codec<J>, partial: seq<PartialCall>, k: nat) {
    && k < |partial| && partial[k].arguments != "" && codec.arguments(partial[k].arguments).None?
    && forall i | 0 <= i < k :: partial[i].arguments == "" || codec.arguments(partial[i].arguments).Some?
  }

  lemma {:induction false} Undecoded<J>(codec: Codec<J>, p: Progress, payloads: seq<string>) returns (k: nat)
    requires AbsorbAll(codec, p, payloads).Failure?
    ensures FirstUndecoded(codec, payloads, k)
    ensures AbsorbAll(codec, p, payloads) == Failure(MalformedEvent(payloads[k]))
    decreases |payloads|
  {
    hide Absorb;
    k := 0;
    if codec.event(payloads[0]).Some? {
      k := Undecoded(codec, Absorb(p, codec.event(payloads[0]).value), payloads[1..]);
      assert forall i | 1 <= i < k + 1 :: payloads[i] == payloads[1..][i - 1];
      k := k + 1;
    }
  }

  lemma {:induction false} BadCall<J>(codec: Codec<J>, partial: seq<PartialCall>) returns (k: nat)
    requires ResolveCalls(codec, partial).Failure?
    ensures FirstBadCall(codec, partial, k)
    ensures ResolveCalls(codec, partial) == Failure(MalformedArguments(partial[k].arguments))
  {
    var before := partial[..|partial| - 1];
    if ResolveCalls(codec, before).Failure? {
      k := BadCall(codec, before);
      assert forall i | 0 <= i <= k :: partial[i] == before[i];
    } else {
      CallsResolve(codec, before);
      k := |partial| - 1;
      forall i | 0 <= i < k ensures partial[i].arguments == "" || codec.arguments(partial[i].arguments).Some? {
        assert partial[i] == before[i];
        assert CallsMean(codec, before, ResolveCalls(codec, before).value);
      }
    }
  }

  /** A failed stream names the first payload that does not decode; failing that, a transport that
      broke; failing that, the first call whose arguments do not decode. */
  lemma {:induction false} FailureMeans<J>(codec: Codec<J>, payloads: seq<string>, broken: bool)
    requires ReplyTo(codec, payloads, broken).Failure?
    ensures var error, partial := ReplyTo(codec, payloads, broken).error, MergeAll([], Deltas(codec, payloads));
            if !AllDecode(codec, payloads) then
              exists k: nat :: FirstUndecoded(codec, payloads, k) && error == MalformedEvent(payloads[k])
            else if broken then error == Transport
            else exists k: nat :: FirstBadCall(codec, partial, k) && error == MalformedArguments(partial[k].arguments)
  {
    hide AbsorbAll, Absorb, MergeAll, Deltas, ResolveCalls;
    Decoded(codec, START, payloads);
    if AbsorbAll(codec, START, payloads).Failure? {
      var k := Undecoded(codec, START, payloads);
      assert FirstUndecoded(codec, payloads, k);
    } else if !broken {
      NothingIsLost(codec, START, payloads);
      var k := BadCall(codec, AbsorbAll(codec, START, payloads).value.calls);
      assert FirstBadCall(codec, MergeAll([], Deltas(codec, payloads)), k);
    }
  }
}
