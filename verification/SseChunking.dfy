/** Chunk independence of the provider stream decoder, and exactly where it ends. */
module SseChunking {
  import opened Bytes
  import opened Wrappers
  import opened SseDecoder

  // ------------------------------------------- the whole-input reference

  function Flatten(chunks: seq<seq<Byte>>): seq<Byte> {
    if chunks == [] then [] else chunks[0] + Flatten(chunks[1..])
  }

  predicate Stops(reading: Reading) {
    match reading
    case Oversize => true
    case Framed(frame) => frame.InvalidUtf8? || frame.Done? || frame.InvalidJson? || frame.Reported?
  }

  function Readings(classify: Classifier, raws: seq<seq<Byte>>): (r: seq<Reading>)
    ensures |r| == |raws|
  {
    seq(|raws|, i requires 0 <= i < |raws| => ReadLine(classify, raws[i]))
  }

  /** The number of lines before the first one that stops the stream. */
  function Lead(lines: seq<Reading>): (k: nat)
    ensures k <= |lines| && (k < |lines| ==> Stops(lines[k]))
    ensures forall j :: 0 <= j < k ==> !Stops(lines[j])
  {
    if lines == [] || Stops(lines[0]) then 0 else 1 + Lead(lines[1..])
  }

  function Contents(lines: seq<Reading>): seq<string> {
    if lines == [] then []
    else
      var last := lines[|lines| - 1];
      Contents(lines[..|lines| - 1]) + if last.Framed? && last.frame.Content? then [last.frame.piece] else []
  }

  predicate HasReasoning(lines: seq<Reading>) {
    lines != [] && (lines[|lines| - 1] == Framed(Reasoning) || HasReasoning(lines[..|lines| - 1]))
  }

  function DoneEnding(before: seq<Reading>): Ending {
    if Contents(before) != [] then Finished
    else if HasReasoning(before) then ReasoningWithoutContent
    else ContentMissing
  }

  /** Split the whole input at LF and read it line by line, with no buffer and no flags. */
  function Reference(classify: Classifier, s: seq<Byte>, tail: Tail): Outcome {
    ReferenceOf(classify, Readings(classify, RawLines(s)), Remainder(s), tail)
  }

  function ReferenceOf(classify: Classifier, lines: seq<Reading>, rest: seq<Byte>, tail: Tail): Outcome {
    var k := Lead(lines);
    var pieces := Contents(lines[..k]);
    if k < |lines| then
      match lines[k]
      case Oversize => Outcome(pieces, FrameTooLarge)
      case Framed(InvalidUtf8) => Outcome(pieces, BadUtf8)
      case Framed(Done) => Outcome(pieces, DoneEnding(lines[..k]))
      case Framed(InvalidJson) => Outcome(pieces, BadJson)
      case _ => Outcome(pieces, ProviderReportedError)
    else if |rest| > MAX_FRAME_BYTES then Outcome(pieces, FrameTooLarge)
    else if tail.ReadError? then Outcome(pieces, ReadFailed)
    else if tail.Idle? then Outcome(pieces, IdleTimeout)
    else match classify(rest)
      case InvalidUtf8 => Outcome(pieces, BadUtf8)
      case Done => Outcome(pieces, DoneEnding(lines))
      case InvalidJson => Outcome(pieces, BadJson)
      case Reported => Outcome(pieces, ProviderReportedError)
      case Content(piece) => Outcome(pieces + [piece], EndedBeforeMarker)
      case Reasoning => Outcome(pieces, ReasoningWithoutContent)
      case Ignored => Outcome(pieces, EndedBeforeMarker)
  }

  /** Line `k` is read, is within the limit only because its last byte is a CR, and
      that CR is the byte that makes it one too long while its LF is still to come. */
  predicate Critical(classify: Classifier, s: seq<Byte>, k: nat) {
    var raws := RawLines(s);
    && k < |raws|
    && k <= Lead(Readings(classify, raws))
    && |raws[k]| == MAX_FRAME_BYTES + 1
    && raws[k][MAX_FRAME_BYTES] == CR
  }

  /** What the decoder answers when a chunk ends between that CR and its LF. */
  function CutOutcome(classify: Classifier, s: seq<Byte>, k: nat): Outcome
    requires k < |RawLines(s)|
  {
    Outcome(Contents(Readings(classify, RawLines(s))[..k]), FrameTooLarge)
  }

  // ------------------------------------------------- folding over the lines

  function Fold(t: Track, lines: seq<Reading>): Track
    decreases |lines|
  {
    if t.ending.Some? || lines == [] then t else Fold(OnLine(t, lines[0]), lines[1..])
  }

  lemma {:induction false} DrainIsFold(classify: Classifier, t: Track, b: seq<Byte>)
    ensures Drain(classify, t, b).0 == Fold(t, Readings(classify, RawLines(b)))
    ensures Drain(classify, t, b).0.ending.None? ==> Drain(classify, t, b).1 == Remainder(b)
    decreases |b|
  {
    hide OnLine, ReadLine, FirstLf, RawLines, Remainder;
    var pos := FirstLf(b);
    LinesStep(b);
    if t.ending.None? && pos < |b| {
      DrainIsFold(classify, OnLine(t, ReadLine(classify, b[..pos])), b[pos + 1..]);
      assert Readings(classify, RawLines(b))[1..] == Readings(classify, RawLines(b[pos + 1..]));
    }
  }

  lemma {:induction false} FoldConcat(t: Track, x: seq<Reading>, y: seq<Reading>)
    ensures Fold(t, x + y) == Fold(Fold(t, x), y)
    decreases |x|
  {
    if x == [] {
      assert x + y == y;
    } else if t.ending.None? {
      assert (x + y)[1..] == x[1..] + y;
      FoldConcat(OnLine(t, x[0]), x[1..], y);
    }
  }

  /** Line `k` of a fold is critical: read, and of the one length a cut can spoil. */
  predicate CriticalAt(classify: Classifier, t: Track, raws: seq<seq<Byte>>, k: nat) {
    && k < |raws|
    && |raws[k]| == MAX_FRAME_BYTES + 1 && raws[k][MAX_FRAME_BYTES] == CR
    && Fold(t, Readings(classify, raws)[..k]).ending.None?
  }

  function Cut(t: Track): Outcome {
    Outcome(t.pieces, FrameTooLarge)
  }

  /** A remainder over the limit ends as the reference does, unless its line is critical. */
  lemma {:induction false} OverlongRemainder(classify: Classifier, t: Track, b: seq<Byte>, rest: seq<Byte>, tail: Tail)
    requires t.ending.None? && FirstLf(b) == |b| > MAX_FRAME_BYTES
    ensures var raws := RawLines(b + rest);
            || Close(classify, Fold(t, Readings(classify, raws)), Remainder(b + rest), tail) == Cut(t)
            || CriticalAt(classify, t, raws, 0)
  {
    var s := b + rest;
    FirstLfConcat(b, rest);
    var raws := RawLines(s);
    if FirstLf(s) < |s| {
      assert raws[0] == s[..FirstLf(s)];
      assert Readings(classify, raws)[..0] == [];
      if !CriticalAt(classify, t, raws, 0) {
        assert ReadLine(classify, raws[0]) == Oversize;
        assert Fold(t, Readings(classify, raws)) == OnLine(t, Oversize);
      }
    }
  }

  /** A critical line of a later part is a critical line of the whole. */
  lemma {:induction false} CriticalShift(classify: Classifier, t: Track, head: seq<seq<Byte>>, more: seq<seq<Byte>>, k: nat)
    requires CriticalAt(classify, Fold(t, Readings(classify, head)), more, k)
    ensures CriticalAt(classify, t, head + more, |head| + k)
    ensures Fold(t, Readings(classify, head + more)[..|head| + k])
            == Fold(Fold(t, Readings(classify, head)), Readings(classify, more)[..k])
  {
    assert Readings(classify, head + more)[..|head| + k] == Readings(classify, head) + Readings(classify, more)[..k];
    FoldConcat(t, Readings(classify, head), Readings(classify, more)[..k]);
  }

  /** `outcome` is the answer to the whole input, or that of a cut in a critical line end. */
  ghost predicate Explained(classify: Classifier, t: Track, s: seq<Byte>, tail: Tail, outcome: Outcome) {
    var raws := RawLines(s);
    var lines := Readings(classify, raws);
    || outcome == Close(classify, Fold(t, lines), Remainder(s), tail)
    || exists k: nat :: CriticalAt(classify, t, raws, k) && outcome == Cut(Fold(t, lines[..k]))
  }

  /** What explains the outcome from the state after the lines of `a` explains it from `t`. */
  lemma {:induction false} ExplainedAfterLines(
    classify: Classifier, t: Track, a: seq<Byte>, later: seq<Byte>, tail: Tail, outcome: Outcome)
    requires Explained(classify, Fold(t, Readings(classify, RawLines(a))), Remainder(a) + later, tail, outcome)
    ensures Explained(classify, t, a + later, tail, outcome)
  {
    hide Close, Remainder, RawLines, OnLine;
    LinesConcat(a, later);
    var head, more := RawLines(a), RawLines(Remainder(a) + later);
    var v := Fold(t, Readings(classify, head));
    assert Readings(classify, head + more) == Readings(classify, head) + Readings(classify, more);
    FoldConcat(t, Readings(classify, head), Readings(classify, more));
    if outcome != Close(classify, Fold(v, Readings(classify, more)), Remainder(Remainder(a) + later), tail) {
      var k: nat :| CriticalAt(classify, v, more, k) && outcome == Cut(Fold(v, Readings(classify, more)[..k]));
      CriticalShift(classify, t, head, more, k);
    }
  }

  /** A chunk that leaves too long a remainder ends the stream there and then. */
  lemma {:induction false} OverlongChunk(classify: Classifier, t: Track, buffer: seq<Byte>, chunks: seq<seq<Byte>>, tail: Tail)
    requires t.ending.None? && chunks != []
    requires Fold(t, Readings(classify, RawLines(buffer + chunks[0]))).ending.None?
    requires |Remainder(buffer + chunks[0])| > MAX_FRAME_BYTES
    ensures var (u, rest) := FeedAll(classify, t, buffer, chunks);
            Close(classify, u, rest, tail) == Cut(Fold(t, Readings(classify, RawLines(buffer + chunks[0]))))
  {
    var a := buffer + chunks[0];
    DrainIsFold(classify, t, a);
    var v := Fold(t, Readings(classify, RawLines(a)));
    assert Drain(classify, t, a) == (v, Remainder(a));
    var (u, rest) := Feed(classify, t, buffer, chunks[0]);
    assert u == v.(ending := Some(FrameTooLarge));
    assert FeedAll(classify, u, rest, chunks[1..]) == (u, rest);
  }

  lemma {:induction false} FeedAllExplained(classify: Classifier, t: Track, buffer: seq<Byte>, chunks: seq<seq<Byte>>, tail: Tail)
    requires t.ending.None? && FirstLf(buffer) == |buffer| <= MAX_FRAME_BYTES
    ensures var (u, rest) := FeedAll(classify, t, buffer, chunks);
            Explained(classify, t, buffer + Flatten(chunks), tail, Close(classify, u, rest, tail))
    decreases |chunks|
  {
    if chunks == [] {
      assert buffer + Flatten(chunks) == buffer;
      assert Fold(t, Readings(classify, RawLines(buffer))) == t;
    } else {
      var a := buffer + chunks[0];
      var later := Flatten(chunks[1..]);
      assert buffer + Flatten(chunks) == a + later;
      DrainIsFold(classify, t, a);
      RemainderHasNoLf(a);
      var v := Fold(t, Readings(classify, RawLines(a)));
      var (u, rest) := FeedAll(classify, t, buffer, chunks);
      var outcome := Close(classify, u, rest, tail);
      var (w, kept) := Feed(classify, t, buffer, chunks[0]);
      assert (u, rest) == FeedAll(classify, w, kept, chunks[1..]);
      if v.ending.Some? {
        assert u == w == v;
        EndedStays(classify, v, Readings(classify, RawLines(Remainder(a) + later)), Remainder(Remainder(a) + later), rest, tail);
      } else if |Remainder(a)| > MAX_FRAME_BYTES {
        OverlongRemainder(classify, v, Remainder(a), later, tail);
        OverlongChunk(classify, t, buffer, chunks, tail);
        assert outcome == Cut(v);
        var raws := RawLines(Remainder(a) + later);
        if CriticalAt(classify, v, raws, 0) {
          assert Readings(classify, raws)[..0] == [];
          assert outcome == Cut(Fold(v, Readings(classify, raws)[..0]));
        }
      } else {
        assert (w, kept) == (v, Remainder(a));
        FeedAllExplained(classify, v, Remainder(a), chunks[1..], tail);
      }
      assert Explained(classify, v, Remainder(a) + later, tail, outcome);
      ExplainedAfterLines(classify, t, a, later, tail, outcome);
    }
  }

  lemma {:induction false} EndedStays(classify: Classifier, v: Track, lines: seq<Reading>, rest: seq<Byte>, rest': seq<Byte>, tail: Tail)
    requires v.ending.Some?
    ensures Close(classify, Fold(v, lines), rest, tail) == Close(classify, v, rest', tail)
  {
  }

  // --------------------------------------------- the fold is the reference

  /** Up to the first stopping line the flags say what the lines so far hold. */
  lemma {:induction false} FoldLead(lines: seq<Reading>, k: nat)
    requires k <= Lead(lines)
    ensures var before := lines[..k];
            Fold(START, before) == Track(HasReasoning(before), Contents(before) != [], Contents(before), None)
  {
    if k > 0 {
      FoldLead(lines, k - 1);
      var before, last := lines[..k - 1], lines[k - 1];
      assert lines[..k] == before + [last];
      assert lines[..k][..k - 1] == before;
      FoldConcat(START, before, [last]);
      FoldOne(Fold(START, before), last);
    }
  }

  lemma {:induction false} FoldOne(t: Track, line: Reading)
    requires t.ending.None?
    ensures Fold(t, [line]) == OnLine(t, line)
  {
    var lines := [line];
    assert lines[1..] == [];
  }

  lemma {:induction false} FoldThroughStop(lines: seq<Reading>)
    requires Lead(lines) < |lines|
    ensures Fold(START, lines) == OnLine(Fold(START, lines[..Lead(lines)]), lines[Lead(lines)])
  {
    var k := Lead(lines);
    FoldLead(lines, k);
    var t := Fold(START, lines[..k]);
    assert lines == lines[..k] + [lines[k]] + lines[k + 1..];
    FoldConcat(START, lines[..k] + [lines[k]], lines[k + 1..]);
    FoldConcat(START, lines[..k], [lines[k]]);
    FoldOne(t, lines[k]);
  }

  lemma {:induction false} FoldIsReference(classify: Classifier, lines: seq<Reading>, rest: seq<Byte>, tail: Tail)
    ensures Close(classify, Fold(START, lines), rest, tail) == ReferenceOf(classify, lines, rest, tail)
  {
    var k := Lead(lines);
    FoldLead(lines, k);
    if k < |lines| {
      FoldThroughStop(lines);
    } else {
      assert lines[..k] == lines;
    }
  }

  /** A line is reached by a running stream exactly when no line before it stops. */
  lemma {:induction false} RunningUpTo(lines: seq<Reading>, k: nat)
    requires k <= |lines|
    ensures Fold(START, lines[..k]).ending.None? <==> k <= Lead(lines)
  {
    var lead := Lead(lines);
    if k <= lead {
      FoldLead(lines, k);
    } else {
      LeadOfPrefix(lines, k);
      FoldThroughStop(lines[..k]);
      FoldLead(lines[..k], lead);
    }
  }

  lemma {:induction false} LeadOfPrefix(lines: seq<Reading>, k: nat)
    requires Lead(lines) < k <= |lines|
    ensures Lead(lines[..k]) == Lead(lines)
  {
    if !Stops(lines[0]) {
      LeadOfPrefix(lines[1..], k - 1);
      assert lines[..k][1..] == lines[1..][..k - 1];
    }
  }

  // -------------------------------------------------------- main results

  /** Every chunking of a byte stream yields the whole-input answer, or the answer
      of a cut inside one of its critical line ends: nothing else can happen. */
  lemma {:induction false} EveryChunking(classify: Classifier, chunks: seq<seq<Byte>>, tail: Tail)
    ensures var s := Flatten(chunks);
            || Decoded(classify, chunks, tail) == Reference(classify, s, tail)
            || exists k: nat :: Critical(classify, s, k) && Decoded(classify, chunks, tail) == CutOutcome(classify, s, k)
  {
    var s := Flatten(chunks);
    var raws := RawLines(s);
    assert [] + s == s;
    FeedAllExplained(classify, START, [], chunks, tail);
    FoldIsReference(classify, Readings(classify, raws), Remainder(s), tail);
    forall k: nat | CriticalAt(classify, START, raws, k)
      ensures Critical(classify, s, k) && Cut(Fold(START, Readings(classify, raws)[..k])) == CutOutcome(classify, s, k)
    {
      RunningUpTo(Readings(classify, raws), k);
      FoldLead(Readings(classify, raws), k);
    }
  }

  lemma {:induction false} RawLinesOfPrefix(s: seq<Byte>, n: nat)
    requires FirstLf(s) < n <= |s|
    ensures RawLines(s[..n]) == [s[..FirstLf(s)]] + RawLines(s[FirstLf(s) + 1..n])
    ensures Remainder(s[..n]) == Remainder(s[FirstLf(s) + 1..n])
  {
    hide FirstLf, RawLines, Remainder;
    var pos := FirstLf(s);
    assert s == s[..n] + s[n..];
    FirstLfConcat(s[..n], s[n..]);
    LinesStep(s[..n]);
    assert s[..n][..pos] == s[..pos];
    assert s[..n][pos + 1..] == s[pos + 1..n];
  }

  /** Where line `k` ends, just before its LF. */
  lemma {:induction false} SplitBeforeLf(s: seq<Byte>, k: nat) returns (cut: nat)
    requires k < |RawLines(s)|
    ensures cut <= |s| && RawLines(s[..cut]) == RawLines(s)[..k] && Remainder(s[..cut]) == RawLines(s)[k]
    decreases |s|
  {
    hide FirstLf, RawLines, Remainder;
    var pos := FirstLf(s);
    LinesStep(s);
    if k == 0 {
      cut := pos;
      assert s[..pos] + s[pos..] == s;
      FirstLfConcat(s[..pos], s[pos..]);
      LinesStep(s[..pos]);
    } else {
      var tail := s[pos + 1..];
      var c := SplitBeforeLf(tail, k - 1);
      cut := pos + 1 + c;
      RawLinesOfPrefix(s, cut);
      assert s[pos + 1..cut] == tail[..c];
      assert RawLines(s)[..k] == [s[..pos]] + RawLines(tail)[..k - 1];
    }
  }

  lemma {:induction false} FlattenTwo(a: seq<Byte>, b: seq<Byte>)
    ensures Flatten([a, b]) == a + b
  {
    var one, two := [b], [a, b];
    assert one[1..] == [] && two[1..] == one;
    assert Flatten(one) == b + [] == b;
  }

  /** A critical line end does get spoilt: two chunks that part it from its LF. */
  lemma {:induction false} CutSpoilsCriticalLine(classify: Classifier, s: seq<Byte>, k: nat, tail: Tail)
    returns (chunks: seq<seq<Byte>>)
    requires Critical(classify, s, k)
    ensures Flatten(chunks) == s && Decoded(classify, chunks, tail) == CutOutcome(classify, s, k)
  {
    var lines := Readings(classify, RawLines(s));
    var cut := SplitBeforeLf(s, k);
    var a := s[..cut];
    chunks := [a, s[cut..]];
    FlattenTwo(a, s[cut..]);
    assert a + s[cut..] == s;
    assert Readings(classify, RawLines(a)) == lines[..k];
    RunningUpTo(lines, k);
    FoldLead(lines, k);
    assert [] + a == a;
    OverlongChunk(classify, START, [], chunks, tail);
  }

  /** The whole input ends in a frame that is too large wherever it is cut. */
  predicate EndsOversize(lines: seq<Reading>, rest: seq<Byte>) {
    if Lead(lines) < |lines| then lines[Lead(lines)].Oversize? else |rest| > MAX_FRAME_BYTES
  }

  predicate ContentLine(line: Reading) {
    line.Framed? && line.frame.Content?
  }

  /** The end of line `k` can be spoilt, and that is seen: without a cut there, a content piece still
      follows or the stream does not end in a frame that is too large. */
  ghost predicate Spoils(classify: Classifier, s: seq<Byte>, k: nat) {
    var lines := Readings(classify, RawLines(s));
    && Critical(classify, s, k)
    && (!EndsOversize(lines, Remainder(s)) || exists j :: k <= j < Lead(lines) && ContentLine(lines[j]))
  }

  lemma {:induction false} ContentsStep(lines: seq<Reading>, n: nat)
    requires n < |lines|
    ensures Contents(lines[..n + 1]) == Contents(lines[..n]) + if ContentLine(lines[n]) then [lines[n].frame.piece] else []
  {
    assert lines[..n + 1][..n] == lines[..n] && lines[..n + 1][n] == lines[n];
  }

  /** The pieces up to line `n` are those up to line `k` exactly if no content line lies between. */
  lemma {:induction false} ContentsBetween(lines: seq<Reading>, k: nat, n: nat)
    requires k <= n <= |lines|
    ensures Contents(lines[..k]) <= Contents(lines[..n])
    ensures Contents(lines[..n]) == Contents(lines[..k]) <==> forall j | k <= j < n :: !ContentLine(lines[j])
  {
    hide Contents;
    if k < n {
      ContentsBetween(lines, k, n - 1);
      ContentsStep(lines, n - 1);
      assert ContentLine(lines[n - 1]) ==> |Contents(lines[..n])| > |Contents(lines[..k])|;
    }
  }

  /** A critical line end changes what the consumer sees exactly if it spoils. */
  lemma {:induction false} CutIsSeen(classify: Classifier, s: seq<Byte>, k: nat, tail: Tail)
    requires Critical(classify, s, k)
    ensures CutOutcome(classify, s, k) != Reference(classify, s, tail) <==> Spoils(classify, s, k)
  {
    hide Contents, RawLines, Remainder, Readings, Lead, HasReasoning;
    var lines := Readings(classify, RawLines(s));
    ContentsBetween(lines, k, Lead(lines));
  }

  /** Chunk independence, exactly: all chunkings of `s` agree with the whole-input reading, in pieces
      and ending, if and only if no critical line end spoils. */
  lemma {:induction false} ChunkIndependence(classify: Classifier, s: seq<Byte>, tail: Tail)
    ensures (forall chunks | Flatten(chunks) == s :: Decoded(classify, chunks, tail) == Reference(classify, s, tail))
            <==> (forall k: nat :: !Spoils(classify, s, k))
  {
    hide CutOutcome, Reference, Decoded, Lead, EndsOversize, RawLines;
    if k: nat :| Spoils(classify, s, k) {
      var chunks := CutSpoilsCriticalLine(classify, s, k, tail);
      CutIsSeen(classify, s, k, tail);
    } else {
      forall chunks | Flatten(chunks) == s
        ensures Decoded(classify, chunks, tail) == Reference(classify, s, tail)
      {
        EveryChunking(classify, chunks, tail);
        if Decoded(classify, chunks, tail) != Reference(classify, s, tail) {
          var k: nat :| Critical(classify, s, k) && Decoded(classify, chunks, tail) == CutOutcome(classify, s, k);
          CutIsSeen(classify, s, k, tail);
        }
      }
    }
  }

  /** In particular when every line, with its CR, is within the limit. */
  lemma {:induction false} WithinTheLimit(classify: Classifier, chunks: seq<seq<Byte>>, tail: Tail)
    requires forall raw | raw in RawLines(Flatten(chunks)) :: |raw| <= MAX_FRAME_BYTES
    ensures Decoded(classify, chunks, tail) == Reference(classify, Flatten(chunks), tail)
  {
    hide Reference, Decoded, CutOutcome, RawLines;
    EveryChunking(classify, chunks, tail);
  }

  /** However the bytes are cut, a normal end needs a content piece before a [DONE] frame,
      which is the first stopping line, or the unterminated remainder after running lines. */
  lemma {:induction false} NormalEnd(classify: Classifier, chunks: seq<seq<Byte>>, tail: Tail)
    ensures var s := Flatten(chunks);
            var lines := Readings(classify, RawLines(s));
            var k := Lead(lines);
            var outcome := Decoded(classify, chunks, tail);
            outcome.ending == Finished ==>
              && outcome.pieces == Contents(lines[..k]) != []
              && if k < |lines| then lines[k] == Framed(Done)
                 else tail == EndOfBody && classify(Remainder(s)) == Done
  {
    hide Decoded, RawLines, Remainder, Readings, Contents, HasReasoning, Lead;
    EveryChunking(classify, chunks, tail);
    var lines := Readings(classify, RawLines(Flatten(chunks)));
    assert Lead(lines) == |lines| ==> lines[..Lead(lines)] == lines;
  }
}
