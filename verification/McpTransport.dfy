/** The line-framed JSON-RPC exchange over a server's pipes. A guard poisons the session when
    an armed exchange does not complete, whichever await it was dropped at. */
module McpTransport {
  import opened Bytes
  import opened Wrappers

  // --------------------------------------------------------------- session

  /** `consumed` bytes of the server's output have been taken, `written` is all it was sent. */
  datatype Session = Session(healthy: bool, consumed: nat, written: seq<Byte>)

  const OPENED := Session(true, 0, [])

  datatype Response = Response(id: nat, version2: bool, body: seq<Byte>)

  type Parser = seq<Byte> -> Option<Response>

  /** What a read of the pipe brings: some bytes, however cut, the end of the output, a read
      error, or nothing before the exchange is cancelled or times out. */
  datatype Fill = Available(n: nat) | Closed | ReadError | Dropped

  /** How far one exchange is let run. `accepted` is how many bytes the pipe takes of the frame
      and its LF; `dispatched` says that flushing and the start observer then succeed. */
  datatype Plan = Plan(droppedBeforeArmed: bool, accepted: nat, dispatched: bool, fills: seq<Fill>)

  function StripCrs(line: seq<Byte>): seq<Byte> {
    if line != [] && line[|line| - 1] == CR then StripCrs(line[..|line| - 1]) else line
  }

  /** The next unread line answers request `id`: it is within the limit, not empty, parses, and
      carries the id (JSON-RPC 2.0, section 5) and the version. */
  predicate Answers(parse: Parser, rest: seq<Byte>, max: nat, id: nat) {
    var p := FirstLf(rest);
    && p < |rest| && p + 1 <= max && StripCrs(rest[..p]) != []
    && parse(StripCrs(rest[..p])).Some?
    && parse(StripCrs(rest[..p])).value.id == id
    && parse(StripCrs(rest[..p])).value.version2
  }

  function Crs(n: nat): seq<Byte> {
    if n == 0 then [] else Crs(n - 1) + [CR]
  }

  /** All CRs at the end of a line are taken away, and nothing else. */
  lemma {:induction false} CrsAreStripped(body: seq<Byte>, n: nat)
    requires body != [] ==> body[|body| - 1] != CR
    ensures StripCrs(body + Crs(n)) == body && (LF !in body ==> LF !in body + Crs(n)) && |Crs(n)| == n
    decreases n
  {
    if n == 0 {
      assert body + Crs(n) == body;
    } else {
      CrsAreStripped(body, n - 1);
      assert (body + Crs(n))[..|body + Crs(n)| - 1] == body + Crs(n - 1);
    }
  }

  lemma {:induction false} LineEnd(line: seq<Byte>, more: seq<Byte>)
    requires LF !in line
    ensures FirstLf(line + [LF] + more) == |line|
  {
    var s := line + [LF] + more;
    assert s[|line|] == LF && forall j | 0 <= j < |line| :: s[j] == line[j] && line[j] in line;
  }

  /** An unread line, apart from the CRs at its end, answers a request exactly if it is not empty, fits the limit
      with CRs and LF, and parses as a response of version 2 with the request's id; output without a whole line
      answers none. */
  lemma {:induction false} AnswersExactly(parse: Parser, body: seq<Byte>, n: nat, more: seq<Byte>, max: nat, id: nat)
    requires LF !in body && (body != [] ==> body[|body| - 1] != CR)
    ensures Answers(parse, body + Crs(n) + [LF] + more, max, id)
            <==> body != [] && |body| + n + 1 <= max && exists text :: parse(body) == Some(Response(id, true, text))
    ensures !Answers(parse, body + Crs(n), max, id)
  {
    hide FirstLf, StripCrs, Crs;
    CrsAreStripped(body, n);
    LineEnd(body + Crs(n), more);
    assert (body + Crs(n) + [LF] + more)[..|body| + n] == body + Crs(n);
    NoLineEnd(body + Crs(n));
    if parse(body).Some? && parse(body).value.id == id && parse(body).value.version2 {
      assert parse(body) == Some(Response(id, true, parse(body).value.body));
    }
  }

  lemma {:induction false} NoLineEnd(s: seq<Byte>)
    requires LF !in s
    ensures FirstLf(s) == |s|
  {
    forall j | 0 <= j < |s| ensures s[j] != LF { assert s[j] in s; }
  }

  /** Enough reads bring something for a line of `p` bytes to be read to its end, however little each brings. */
  predicate InTime(fills: seq<Fill>, p: nat) {
    |fills| > p && forall i | 0 <= i <= p :: fills[i].Available?
  }

  datatype Call = Request(id: nat, frame: seq<Byte>) | Notify(frame: seq<Byte>)

  /** One call in a run: what was asked, whether its guard was armed, and the frame that answered
      it if it completed. */
  datatype Entry = Entry(call: Call, armed: bool, completed: bool, answer: seq<Byte>)

  /** What an exchange may do to the session: nothing before its guard is armed, which needs a
      healthy session; once armed it completes or poisons. */
  ghost predicate Exchanged(output: seq<Byte>, parse: Parser, max: nat, s: Session, s': Session, e: Entry) {
    if !e.armed then s' == s && !e.completed
    else
      && s.healthy && s'.healthy == e.completed
      && s.consumed <= s'.consumed <= |output|
      && s.written <= s'.written <= s.written + e.call.frame + [LF]
      && (e.completed ==> s'.written == s.written + e.call.frame + [LF])
      && (match e.call
          case Notify(_) => s'.consumed == s.consumed
          case Request(id, _) =>
            var rest := output[s.consumed..];
            e.completed ==>
              Answers(parse, rest, max, id) && s'.consumed == s.consumed + FirstLf(rest) + 1
              && e.answer == StripCrs(rest[..FirstLf(rest)]))
  }

  // ------------------------------------------------------------ the object

  class McpSession {
    const output: seq<Byte>
    const maxFrame: nat
    var healthy: bool
    var consumed: nat
    var stdin: seq<Byte>

    function View(): Session
      reads this
    {
      Session(healthy, consumed, stdin)
    }

    ghost predicate Valid()
      reads this
    {
      consumed <= |output|
    }

    constructor (output: seq<Byte>, maxFrame: nat)
      ensures Valid() && View() == OPENED && this.output == output && this.maxFrame == maxFrame
    {
      this.output, this.maxFrame := output, maxFrame;
      healthy, consumed, stdin := true, 0, [];
    }

    method FillBuf(fill: Fill) returns (available: seq<Byte>)
      requires Valid()
      ensures consumed + |available| <= |output| && available == output[consumed..consumed + |available|]
      ensures available == [] <==> !fill.Available? || consumed == |output|
    {
      if !fill.Available? {
        return [];
      }
      var size := if fill.n == 0 then 1 else fill.n;
      available := if consumed + size <= |output| then output[consumed..consumed + size] else output[consumed..];
    }

    /** The bounded frame reader: it takes bytes as they come, up to and including an LF. */
    method ReadFrameLimited(fills: seq<Fill>) returns (frame: Option<seq<Byte>>)
      requires Valid()
      modifies this`consumed
      ensures Valid() && old(consumed) <= consumed
      ensures var rest := output[old(consumed)..];
              var p := FirstLf(rest);
              frame.Some? ==>
                && p < |rest| && p + 1 <= maxFrame && consumed == old(consumed) + p + 1
                && frame.value == StripCrs(rest[..p]) != []
      ensures var rest := output[old(consumed)..];
              var p := FirstLf(rest);
              p < |rest| && p + 1 <= maxFrame && StripCrs(rest[..p]) != [] && InTime(fills, p) ==> frame.Some?
    {
      hide FirstLf, StripCrs;
      ghost var rest, p := output[consumed..], FirstLf(output[consumed..]);
      var taken: seq<Byte> := [];
      var i := 0;
      while i < |fills|
        invariant i <= |fills| && i <= |taken| <= p && |taken| <= maxFrame
        invariant consumed == old(consumed) + |taken| && taken == rest[..|taken|]
      {
        var available := FillBuf(fills[i]);
        if available == [] {
          return None;
        }
        ReadStep(output, old(consumed), |taken|, |available|);
        var newline := FirstLf(available);
        var take := if newline < |available| then newline + 1 else |available|;
        consumed := consumed + take;
        if |taken| + take > maxFrame {
          return None;
        }
        taken := taken + available[..take];
        if newline < |available| {
          assert taken[..p] == rest[..p];
          frame := TrimFrame(taken);
          return;
        }
        i := i + 1;
      }
      frame := None;
    }

    method TrimFrame(line: seq<Byte>) returns (frame: Option<seq<Byte>>)
      requires line != [] && line[|line| - 1] == LF && FirstLf(line) == |line| - 1
      ensures frame == if StripCrs(line[..|line| - 1]) == [] then None else Some(StripCrs(line[..|line| - 1]))
    {
      var bytes := line;
      while bytes != [] && (bytes[|bytes| - 1] == LF || bytes[|bytes| - 1] == CR)
        invariant bytes <= line
        invariant bytes == line || StripCrs(bytes) == StripCrs(line[..|line| - 1])
        decreases |bytes|
      {
        bytes := bytes[..|bytes| - 1];
      }
      frame := if bytes == [] then None else Some(bytes);
    }

    /** Dropping the guard of an exchange that has not completed. */
    method Poison()
      modifies this`healthy
      ensures !healthy
    {
      healthy := false;
    }

    method RequestWithTimeout(id: nat, json: seq<Byte>, parse: Parser, plan: Plan) returns (response: Option<Response>)
      requires Valid()
      modifies this
      ensures Valid()
      ensures var line := StripCrs(output[old(consumed)..][..FirstLf(output[old(consumed)..])]);
              && Exchanged(output, parse, maxFrame, old(View()), View(),
                   Entry(Request(id, json), old(healthy) && !plan.droppedBeforeArmed, response.Some?, line))
              && (response.Some? ==> response == parse(line) && response.value.id == id)
      ensures response.Some? ==>
                && !plan.droppedBeforeArmed && old(healthy) && |json| <= maxFrame && plan.accepted > |json| && plan.dispatched
                && Answers(parse, output[old(consumed)..], maxFrame, id)
      ensures var rest := output[old(consumed)..];
              (&& !plan.droppedBeforeArmed && old(healthy) && |json| <= maxFrame && plan.accepted > |json| && plan.dispatched
               && Answers(parse, rest, maxFrame, id) && InTime(plan.fills, FirstLf(rest))) ==> response.Some?
    {
      if plan.droppedBeforeArmed || !healthy {
        return None;
      }
      // Armed: from here on only a complete answer leaves the session healthy.
      if |json| > maxFrame {
        Poison();
        return None;
      }
      var line := json + [LF];
      if plan.accepted <= |json| {
        stdin := stdin + line[..plan.accepted];
        Poison();
        return None;
      }
      stdin := stdin + line;
      if !plan.dispatched {
        Poison();
        return None;
      }
      var frame := ReadFrameLimited(plan.fills);
      if frame.None? {
        Poison();
        return None;
      }
      response := parse(frame.value);
      if response.None? || response.value.id != id || !response.value.version2 {
        Poison();
        return None;
      }
      assert stdin == old(stdin) + json + [LF];
    }

    method SendNotification(json: seq<Byte>, parse: Parser, plan: Plan) returns (sent: bool)
      requires Valid()
      modifies this
      ensures Valid()
      ensures Exchanged(output, parse, maxFrame, old(View()), View(),
                Entry(Notify(json), old(healthy) && !plan.droppedBeforeArmed, sent, []))
      ensures sent <==> old(healthy) && !plan.droppedBeforeArmed && |json| <= maxFrame && plan.accepted > |json| && plan.dispatched
    {
      if plan.droppedBeforeArmed || !healthy {
        return false;
      }
      if |json| > maxFrame {
        Poison();
        return false;
      }
      var line := json + [LF];
      if plan.accepted <= |json| || !plan.dispatched {
        stdin := stdin + line[..if plan.accepted <= |line| then plan.accepted else |line|];
        Poison();
        return false;
      }
      stdin := stdin + line;
      assert stdin == old(stdin) + json + [LF];
      sent := true;
    }
  }

  lemma {:induction false} SliceOfSlice(output: seq<Byte>, start: nat, t: nat, m: nat)
    requires start + t + m <= |output|
    ensures output[start..][t..t + m] == output[start + t..start + t + m]
  {
  }

  /** What one read brings, `m` bytes when `t` of the line have been taken: they are taken up to an LF, or all. */
  lemma {:induction false} ReadStep(output: seq<Byte>, start: nat, t: nat, m: nat)
    requires start + t + m <= |output| && t <= FirstLf(output[start..])
    ensures var rest, a := output[start..], output[start + t..start + t + m];
            var p := FirstLf(rest);
            var take := if FirstLf(a) < |a| then FirstLf(a) + 1 else |a|;
            && rest[..t] + a[..take] == rest[..t + take]
            && (if FirstLf(a) < |a| then t + take == p + 1 && p < |rest| && FirstLf(rest[..p + 1]) == p else t + take <= p)
  {
    hide FirstLf;
    SliceOfSlice(output, start, t, m);
    var rest, a := output[start..], output[start + t..start + t + m];
    var p := FirstLf(rest);
    FirstOfSlice(rest, t, m);
    PrefixParts(rest, t, m);
    assert a[..m] == a;
    if p - t < m {
      assert a[..p - t + 1] == rest[t..p + 1];
      PrefixParts(rest, t, p + 1 - t);
      FirstOfSlice(rest, 0, p + 1);
      assert rest[0..p + 1] == rest[..p + 1];
    }
  }

  lemma {:induction false} PrefixParts(rest: seq<Byte>, t: nat, m: nat)
    requires t + m <= |rest|
    ensures rest[..t] + rest[t..t + m] == rest[..t + m]
  {
  }

  lemma {:induction false} FirstOfSlice(rest: seq<Byte>, t: nat, m: nat)
    requires t <= FirstLf(rest) && t + m <= |rest|
    ensures FirstLf(rest[t..t + m]) == if FirstLf(rest) - t < m then FirstLf(rest) - t else m
  {
    hide FirstLf;
    assert rest == rest[..t] + rest[t..];
    FirstLfConcat(rest[..t], rest[t..]);
    assert rest[t..] == rest[t..t + m] + rest[t + m..];
    FirstLfConcat(rest[t..t + m], rest[t + m..]);
  }

  // ------------------------------------------------------------------ runs

  /** A run of exchanges, one at a time as the permit and the lock make them. */
  ghost predicate Run(output: seq<Byte>, parse: Parser, max: nat, states: seq<Session>, log: seq<Entry>) {
    && |states| == |log| + 1 && states[0] == OPENED
    && forall i | 0 <= i < |log| :: Exchanged(output, parse, max, states[i], states[i + 1], log[i])
  }

  /** The answers the completed requests got, in order. */
  function Got(log: seq<Entry>): seq<seq<Byte>> {
    if log == [] then []
    else
      var last := log[|log| - 1];
      Got(log[..|log| - 1]) + if last.completed && last.call.Request? then [last.answer] else []
  }

  /** The ids of the completed requests, in order. */
  function Asked(log: seq<Entry>): seq<nat> {
    if log == [] then []
    else
      var last := log[|log| - 1];
      Asked(log[..|log| - 1]) + if last.completed && last.call.Request? then [last.call.id] else []
  }

  /** The frames of the completed calls, each with its LF. */
  function Sent(log: seq<Entry>): seq<Byte> {
    if log == [] then []
    else
      var last := log[|log| - 1];
      Sent(log[..|log| - 1]) + if last.completed then last.call.frame + [LF] else []
  }

  /** The lines consumed are the answers given, each to the request with its id. */
  ghost predicate InStep(output: seq<Byte>, parse: Parser, s: Session, log: seq<Entry>) {
    var lines, got := RawLines(output), Got(log);
    && s.consumed <= |output| && |got| <= |lines|
    && RawLines(output[s.consumed..]) == lines[|got|..]
    && (forall n | 0 <= n < |got| :: got[n] == StripCrs(lines[n]))
    && AllForAsked(parse, got, Asked(log))
    && s.written == Sent(log)
  }

  ghost predicate AllForAsked(parse: Parser, got: seq<seq<Byte>>, asked: seq<nat>) {
    |asked| == |got| && forall n | 0 <= n < |got| :: parse(got[n]).Some? && parse(got[n]).value.id == asked[n]
  }

  lemma {:induction false} LogGrows(log: seq<Entry>, e: Entry)
    ensures var more := e.completed && e.call.Request?;
            && Got(log + [e]) == Got(log) + (if more then [e.answer] else [])
            && Asked(log + [e]) == Asked(log) + (if more then [e.call.id] else [])
            && Sent(log + [e]) == Sent(log) + (if e.completed then e.call.frame + [LF] else [])
  {
    assert (log + [e])[..|log|] == log;
  }

  lemma {:induction false} OneLine(output: seq<Byte>, consumed: nat, taken: nat)
    requires consumed <= |output| && taken <= |RawLines(output)| && RawLines(output[consumed..]) == RawLines(output)[taken..]
    requires FirstLf(output[consumed..]) < |output| - consumed
    ensures var p := FirstLf(output[consumed..]);
            && taken < |RawLines(output)| && RawLines(output)[taken] == output[consumed..][..p]
            && RawLines(output[consumed + p + 1..]) == RawLines(output)[taken + 1..]
  {
    hide FirstLf, RawLines;
    var rest, p := output[consumed..], FirstLf(output[consumed..]);
    LinesStep(rest);
    assert rest[p + 1..] == output[consumed + p + 1..];
    assert RawLines(rest)[1..] == RawLines(output)[taken..][1..];
    assert RawLines(output)[taken..][0] == RawLines(output)[taken];
  }

  lemma {:induction false} OneExchange(output: seq<Byte>, parse: Parser, max: nat, s: Session, s': Session, log: seq<Entry>, e: Entry)
    requires s.healthy && s'.healthy && InStep(output, parse, s, log) && Exchanged(output, parse, max, s, s', e)
    ensures InStep(output, parse, s', log + [e])
  {
    hide StripCrs, Got, Asked, Sent, RawLines, FirstLf;
    LogGrows(log, e);
    if e.completed && e.call.Request? {
      OneLine(output, s.consumed, |Got(log)|);
    }
  }

  lemma {:induction false} OpenedInStep(output: seq<Byte>, parse: Parser)
    ensures InStep(output, parse, OPENED, [])
  {
    assert output[0..] == output;
  }

  lemma {:induction false} HealthyPrefix(output: seq<Byte>, parse: Parser, max: nat, states: seq<Session>, log: seq<Entry>, i: nat)
    requires Run(output, parse, max, states, log) && i <= |log| && states[i].healthy
    ensures InStep(output, parse, states[i], log[..i])
  {
    hide StripCrs, Answers, FirstLf, InStep;
    if i == 0 {
      OpenedInStep(output, parse);
      assert log[..0] == [];
    } else {
      assert Exchanged(output, parse, max, states[i - 1], states[i - 1 + 1], log[i - 1]);
      HealthyPrefix(output, parse, max, states, log, i - 1);
      assert log[..i] == log[..i - 1] + [log[i - 1]];
      OneExchange(output, parse, max, states[i - 1], states[i], log[..i - 1], log[i - 1]);
    }
  }

  lemma {:induction false} PoisonedForGood(output: seq<Byte>, parse: Parser, max: nat, states: seq<Session>, log: seq<Entry>, i: nat, j: nat)
    requires Run(output, parse, max, states, log) && i <= j <= |log| && !states[i].healthy
    ensures states[j] == states[i] && Got(log[..j]) == Got(log[..i]) && Asked(log[..j]) == Asked(log[..i])
  {
    if i < j {
      PoisonedForGood(output, parse, max, states, log, i, j - 1);
      assert Exchanged(output, parse, max, states[j - 1], states[j - 1 + 1], log[j - 1]);
      assert log[..j][..j - 1] == log[..j - 1];
    }
  }

  /** Over every run: the n-th completed request got exactly the n-th line of the server's
      output, however that output was cut, and that line carries its id; while the session is healthy it has consumed those
      lines and nothing more, and written whole frames and nothing more. */
  lemma {:induction false} NthRequestGetsNthLine(output: seq<Byte>, parse: Parser, max: nat, states: seq<Session>, log: seq<Entry>)
    requires Run(output, parse, max, states, log)
    ensures var lines, got := RawLines(output), Got(log);
            && |got| <= |lines| && (forall n | 0 <= n < |got| :: got[n] == StripCrs(lines[n]))
            && AllForAsked(parse, got, Asked(log))
    ensures states[|log|].healthy ==> InStep(output, parse, states[|log|], log)
  {
    hide StripCrs, RawLines, FirstLf, Answers, Exchanged, Got, Asked, Run;
    var i := LastHealthy(output, parse, max, states, log, |log|);
    HealthyPrefix(output, parse, max, states, log, i);
    assert log[..|log|] == log;
    if i < |log| {
      PoisonedForGood(output, parse, max, states, log, i + 1, |log|);
      BreakingEntry(output, parse, max, states, log, i);
    }
  }

  /** The exchange that poisons a session has not completed. */
  lemma {:induction false} BreakingEntry(output: seq<Byte>, parse: Parser, max: nat, states: seq<Session>, log: seq<Entry>, i: nat)
    requires Run(output, parse, max, states, log) && i < |log| && states[i].healthy && !states[i + 1].healthy
    ensures Got(log[..i + 1]) == Got(log[..i]) && Asked(log[..i + 1]) == Asked(log[..i])
  {
    hide StripCrs, RawLines, FirstLf, Answers;
    assert Exchanged(output, parse, max, states[i], states[i + 1], log[i]);
    LogGrows(log[..i], log[i]);
    assert log[..i + 1] == log[..i] + [log[i]];
    assert Got(log[..i]) + [] == Got(log[..i]) && Asked(log[..i]) + [] == Asked(log[..i]);
  }

  lemma {:induction false} LastHealthy(output: seq<Byte>, parse: Parser, max: nat, states: seq<Session>, log: seq<Entry>, j: nat) returns (i: nat)
    requires Run(output, parse, max, states, log) && j <= |log|
    ensures i <= j && states[i].healthy && (i < j ==> !states[i + 1].healthy)
  {
    if states[j].healthy {
      i := j;
    } else {
      i := LastHealthy(output, parse, max, states, log, j - 1);
    }
  }

  /** The session is healthy exactly as long as every armed exchange has completed. */
  lemma {:induction false} HealthyExactly(output: seq<Byte>, parse: Parser, max: nat, states: seq<Session>, log: seq<Entry>, j: nat)
    requires Run(output, parse, max, states, log) && j <= |log|
    ensures states[j].healthy <==> forall i | 0 <= i < j :: log[i].armed ==> log[i].completed
  {
    if j > 0 {
      HealthyExactly(output, parse, max, states, log, j - 1);
      assert Exchanged(output, parse, max, states[j - 1], states[j - 1 + 1], log[j - 1]);
    }
  }

  /** After an armed exchange that did not complete, wherever it stopped, no later one is armed,
      none completes, and none writes or reads a byte. */
  lemma {:induction false} PoisonLaw(output: seq<Byte>, parse: Parser, max: nat, states: seq<Session>, log: seq<Entry>, i: nat, j: nat)
    requires Run(output, parse, max, states, log) && i < j <= |log|
    requires log[i].armed && !log[i].completed
    ensures states[j] == states[i + 1] && !states[j].healthy
    ensures forall k | i < k < j :: !log[k].armed && !log[k].completed
  {
    assert Exchanged(output, parse, max, states[i], states[i + 1], log[i]);
    PoisonedForGood(output, parse, max, states, log, i + 1, j);
    forall k | i < k < j ensures !log[k].armed && !log[k].completed {
      PoisonedForGood(output, parse, max, states, log, i + 1, k);
      assert Exchanged(output, parse, max, states[k], states[k + 1], log[k]);
    }
  }
}
