/** What the decoder makes of a stream of whole lines, in terms of how the bytes of each line are
    classified. */
module SseLines {
  import opened Bytes
  import opened Wrappers
  import opened SseDecoder
  import opened SseChunking

  /** A line as it is sent: its bytes, then LF or CR LF. */
  datatype Line = Line(bytes: seq<Byte>, crlf: bool)

  /** The bytes of the line are all its own: no LF, and no CR that would belong to its end. */
  predicate Whole(l: Line) {
    LF !in l.bytes && (l.bytes != [] ==> l.bytes[|l.bytes| - 1] != CR)
  }

  function Raw(l: Line): seq<Byte> {
    l.bytes + if l.crlf then [CR] else []
  }

  function Wire(lines: seq<Line>): seq<Byte> {
    if lines == [] then [] else Raw(lines[0]) + [LF] + Wire(lines[1..])
  }

  /** A line within the limit that does not end the stream. */
  predicate Passes(classify: Classifier, l: Line) {
    Whole(l) && |l.bytes| <= MAX_FRAME_BYTES && classify(l.bytes) !in {InvalidUtf8, Done, InvalidJson, Reported}
  }

  ghost predicate AllPass(classify: Classifier, lines: seq<Line>) {
    forall i | 0 <= i < |lines| :: Passes(classify, lines[i])
  }

  /** The content of the lines, in order. */
  function Said(classify: Classifier, lines: seq<Line>): seq<string> {
    if lines == [] then []
    else
      var last := lines[|lines| - 1];
      Said(classify, lines[..|lines| - 1]) + match classify(last.bytes) { case Content(piece) => [piece] case _ => [] }
  }

  ghost predicate Reasoned(classify: Classifier, lines: seq<Line>) {
    exists i :: 0 <= i < |lines| && classify(lines[i].bytes) == Reasoning
  }

  /** The end marker after these lines. */
  ghost function Marked(classify: Classifier, lines: seq<Line>): Ending {
    if exists i :: 0 <= i < |lines| && classify(lines[i].bytes).Content? then Finished
    else if Reasoned(classify, lines) then ReasoningWithoutContent
    else ContentMissing
  }

  // ------------------------------------------------------- lines on the wire

  lemma {:induction false} NoLf(a: seq<Byte>)
    requires LF !in a
    ensures FirstLf(a) == |a|
  {
    forall j | 0 <= j < |a| ensures a[j] != LF { assert a[j] in a; }
  }

  lemma {:induction false} FirstOnWire(l: Line, more: seq<Byte>)
    requires Whole(l)
    ensures RawLines(Raw(l) + [LF] + more) == [Raw(l)] + RawLines(more)
    ensures Remainder(Raw(l) + [LF] + more) == Remainder(more)
  {
    hide RawLines, Remainder, FirstLf;
    var s := Raw(l) + ([LF] + more);
    assert Raw(l) + [LF] + more == s;
    NoLf(Raw(l));
    FirstLfConcat(Raw(l), [LF] + more);
    FirstIsLf(more);
    LinesStep(s);
    assert s[..|Raw(l)|] == Raw(l) && s[|Raw(l)| + 1..] == more;
  }

  lemma {:induction false} FirstIsLf(more: seq<Byte>)
    ensures FirstLf([LF] + more) == 0
  {
  }

  function Raws(lines: seq<Line>): (raws: seq<seq<Byte>>)
    ensures |raws| == |lines|
  {
    seq(|lines|, i requires 0 <= i < |lines| => Raw(lines[i]))
  }

  /** Reading splits the wire where writing joined it. */
  lemma {:induction false} WireLines(lines: seq<Line>, more: seq<Byte>)
    requires forall l | l in lines :: Whole(l)
    ensures RawLines(Wire(lines) + more) == Raws(lines) + RawLines(more)
    ensures Remainder(Wire(lines) + more) == Remainder(more)
  {
    hide RawLines, Remainder, Whole, Raw;
    if lines == [] {
      assert Wire(lines) + more == more && Raws(lines) + RawLines(more) == RawLines(more);
    } else {
      assert Wire(lines) + more == Raw(lines[0]) + [LF] + (Wire(lines[1..]) + more);
      assert lines == [lines[0]] + lines[1..];
      WireLines(lines[1..], more);
      FirstOnWire(lines[0], Wire(lines[1..]) + more);
      assert Raws(lines) == [Raw(lines[0])] + Raws(lines[1..]);
    }
  }

  lemma {:induction false} ReadsWhole(classify: Classifier, l: Line)
    requires Whole(l)
    ensures ReadLine(classify, Raw(l)) == if |l.bytes| > MAX_FRAME_BYTES then Oversize else Framed(classify(l.bytes))
  {
    assert l.bytes + [] == l.bytes && (l.bytes + [CR])[..|l.bytes|] == l.bytes;
  }

  lemma {:induction false} PassingLines(classify: Classifier, lines: seq<Line>, i: nat)
    requires AllPass(classify, lines) && i < |lines|
    ensures Readings(classify, Raws(lines))[i] == Framed(classify(lines[i].bytes)) && !Stops(Readings(classify, Raws(lines))[i])
  {
    hide ReadLine, Raw;
    ReadsWhole(classify, lines[i]);
  }

  lemma {:induction false} PassingContents(classify: Classifier, lines: seq<Line>)
    requires AllPass(classify, lines)
    ensures var readings := Readings(classify, Raws(lines));
            && Contents(readings) == Said(classify, lines) && (HasReasoning(readings) <==> Reasoned(classify, lines))
            && (Said(classify, lines) != [] <==> exists i :: 0 <= i < |lines| && classify(lines[i].bytes).Content?)
  {
    hide ReadLine, Raw, Stops, Passes;
    if lines != [] {
      var n := |lines| - 1;
      PassingLines(classify, lines, n);
      PassingContents(classify, lines[..n]);
      assert Readings(classify, Raws(lines))[..n] == Readings(classify, Raws(lines[..n]));
      ReasonedStep(classify, lines);
    }
  }

  lemma {:induction false} ReasonedStep(classify: Classifier, lines: seq<Line>)
    requires lines != []
    ensures var n := |lines| - 1;
            && (Reasoned(classify, lines) <==> Reasoned(classify, lines[..n]) || classify(lines[n].bytes) == Reasoning)
            && ((exists i :: 0 <= i < |lines| && classify(lines[i].bytes).Content?)
                <==> (exists i :: 0 <= i < n && classify(lines[..n][i].bytes).Content?) || classify(lines[n].bytes).Content?)
  {
    var n := |lines| - 1;
    if i :| 0 <= i < n && classify(lines[i].bytes) == Reasoning { assert lines[..n][i] == lines[i]; }
    if i :| 0 <= i < n && classify(lines[i].bytes).Content? { assert lines[..n][i] == lines[i]; }
  }

  /** The readings of a stream that begins with passing lines. */
  lemma {:induction false} LeadingLines(classify: Classifier, before: seq<Line>, later: seq<Reading>)
    requires AllPass(classify, before)
    ensures var readings := Readings(classify, Raws(before)) + later;
            && Lead(readings) >= |before|
            && (later != [] && Stops(later[0]) ==> Lead(readings) == |before|)
            && readings[..|before|] == Readings(classify, Raws(before))
  {
    hide Lead, Readings, Stops;
    forall i | 0 <= i < |before| ensures !Stops(Readings(classify, Raws(before))[i]) { PassingLines(classify, before, i); }
    LeadBounds(Readings(classify, Raws(before)), later);
  }

  lemma {:induction false} LeadBounds(a: seq<Reading>, later: seq<Reading>)
    requires forall i | 0 <= i < |a| :: !Stops(a[i])
    ensures Lead(a + later) >= |a|
    ensures later != [] && Stops(later[0]) ==> Lead(a + later) == |a|
  {
    hide Stops;
    forall i | 0 <= i < |a| ensures !Stops((a + later)[i]) { assert (a + later)[i] == a[i]; }
    if later != [] { assert (a + later)[|a|] == later[0]; }
  }

  // ---------------------------------------------------------- whole streams

  /** No chunk boundary can matter: the stream comes in one chunk, or no line has the one length at
      which a cut inside its CR LF is noticed. */
  ghost predicate Uncut(lines: seq<Line>, chunks: seq<seq<Byte>>) {
    |chunks| == 1 || forall i | 0 <= i < |lines| :: !(lines[i].crlf && |lines[i].bytes| == MAX_FRAME_BYTES)
  }

  lemma {:induction false} OneChunk(classify: Classifier, s: seq<Byte>, tail: Tail)
    ensures Decoded(classify, [s], tail) == Reference(classify, s, tail)
  {
    hide OnLine, ReadLine, RawLines, Remainder, FirstLf, Drain, Reference, ReferenceOf, Fold, OnDone;
    var one := [s];
    assert one[1..] == [] && [] + s == s;
    DrainIsFold(classify, START, s);
    FoldIsReference(classify, Readings(classify, RawLines(s)), Remainder(s), tail);
    var (u, rest) := Feed(classify, START, [], s);
    assert FeedAll(classify, u, rest, []) == (u, rest);
    assert FeedAll(classify, START, [], one) == (u, rest);
    ReferenceIsFold(classify, s, tail);
  }

  lemma {:induction false} ReferenceIsFold(classify: Classifier, s: seq<Byte>, tail: Tail)
    ensures Reference(classify, s, tail) == ReferenceOf(classify, Readings(classify, RawLines(s)), Remainder(s), tail)
  {
  }

  /** The first lines of a stream that are whole and reached are not critical, however it is cut. */
  lemma {:induction false} ReadAsOne(classify: Classifier, lines: seq<Line>, more: seq<Byte>, chunks: seq<seq<Byte>>, tail: Tail)
    requires (forall l | l in lines :: Whole(l)) && Uncut(lines, chunks) && Flatten(chunks) == Wire(lines) + more
    requires Lead(Readings(classify, RawLines(Wire(lines) + more))) < |lines| || RawLines(more) == []
    ensures Decoded(classify, chunks, tail) == Reference(classify, Wire(lines) + more, tail)
  {
    hide Decoded, Reference, RawLines, Remainder, Lead, Readings, CutOutcome, Wire;
    var s := Wire(lines) + more;
    WireLines(lines, more);
    if |chunks| == 1 {
      FlattenOne(chunks);
      OneChunk(classify, s, tail);
    } else {
      forall k: nat ensures !Critical(classify, s, k) {
        if k < |lines| { assert RawLines(s)[k] == Raw(lines[k]) && lines[k] in lines; }
      }
      EveryChunking(classify, chunks, tail);
    }
  }

  lemma {:induction false} FlattenOne(chunks: seq<seq<Byte>>)
    requires |chunks| == 1
    ensures chunks == [Flatten(chunks)]
  {
    assert chunks[1..] == [] && chunks[0] + [] == chunks[0];
  }

  /** After lines that pass, the next line decides by its own bytes alone: one over the limit, one that is not
      UTF-8 or not JSON, a provider error or the end marker ends the stream there, with the content so far. */
  lemma {:induction false} LineEndsStream(classify: Classifier, before: seq<Line>, l: Line, more: seq<Byte>, chunks: seq<seq<Byte>>, tail: Tail)
    requires AllPass(classify, before) && Whole(l) && Uncut(before + [l], chunks) && Flatten(chunks) == Wire(before + [l]) + more
    ensures var said := Said(classify, before);
            if |l.bytes| > 262_144 then Decoded(classify, chunks, tail) == Outcome(said, FrameTooLarge)
            else match classify(l.bytes)
              case InvalidUtf8 => Decoded(classify, chunks, tail) == Outcome(said, BadUtf8)
              case InvalidJson => Decoded(classify, chunks, tail) == Outcome(said, BadJson)
              case Reported => Decoded(classify, chunks, tail) == Outcome(said, ProviderReportedError)
              case Done => Decoded(classify, chunks, tail) == Outcome(said, Marked(classify, before))
              case _ => AllPass(classify, before + [l]) && Said(classify, before + [l]) == said + (if classify(l.bytes).Content? then [classify(l.bytes).piece] else [])
  {
    hide Decoded, RawLines, Remainder, Lead, HasReasoning, Contents, Wire, Raw, Reasoned;
    var lines := before + [l];
    assert lines[..|before|] == before;
    if !Passes(classify, l) {
      WireLines(lines, more);
      var later := Readings(classify, [Raw(l)] + RawLines(more));
      var readings := Readings(classify, RawLines(Wire(lines) + more));
      assert readings == Readings(classify, Raws(before)) + later;
      ReadsWhole(classify, l);
      assert Stops(later[0]);
      LeadingLines(classify, before, later);
      PassingContents(classify, before);
      ReadAsOne(classify, lines, more, chunks, tail);
    }
  }

  /** A stream of lines that pass, whose source then stops: a remainder is one more line if the body has
      ended, and there is no normal end but by the end marker. */
  lemma {:induction false} StreamRunsOut(classify: Classifier, lines: seq<Line>, rest: seq<Byte>, chunks: seq<seq<Byte>>, tail: Tail)
    requires AllPass(classify, lines) && LF !in rest && Uncut(lines, chunks) && Flatten(chunks) == Wire(lines) + rest
    ensures var said := Said(classify, lines);
            Decoded(classify, chunks, tail)
            == if |rest| > 262_144 then Outcome(said, FrameTooLarge)
               else match tail
                 case ReadError => Outcome(said, ReadFailed)
                 case Idle => Outcome(said, IdleTimeout)
                 case EndOfBody =>
                   match classify(rest)
                   case InvalidUtf8 => Outcome(said, BadUtf8)
                   case InvalidJson => Outcome(said, BadJson)
                   case Reported => Outcome(said, ProviderReportedError)
                   case Done => Outcome(said, Marked(classify, lines))
                   case Content(piece) => Outcome(said + [piece], EndedBeforeMarker)
                   case Reasoning => Outcome(said, ReasoningWithoutContent)
                   case Ignored => Outcome(said, EndedBeforeMarker)
  {
    hide Decoded, Lead, HasReasoning, Contents, Wire, Raw, Reasoned, RawLines, Remainder;
    NoLf(rest);
    LinesStep(rest);
    WireLines(lines, rest);
    assert RawLines(Wire(lines) + rest) == Raws(lines);
    LeadingLines(classify, lines, []);
    PassingContents(classify, lines);
    var readings := Readings(classify, Raws(lines));
    assert readings + [] == readings && readings[..|lines|] == readings;
    ReadAsOne(classify, lines, rest, chunks, tail);
  }
}
