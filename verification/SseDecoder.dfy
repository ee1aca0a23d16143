/** The streaming decoder for provider responses: an incremental, line-framed
    reader of server-sent events (a narrow subset of section 9.2.5 of the WHATWG
    HTML Standard), compared with a reader that sees the whole input at once. */
module SseDecoder {
  import opened Bytes
  import opened Wrappers

  const MAX_FRAME_BYTES: nat := 256 * 1024

  /** `Ignored` is a line without `data:`, or JSON with nothing to show. */
  datatype Frame =
    | InvalidUtf8
    | Done
    | InvalidJson
    | Reported
    | Content(piece: string)
    | Reasoning
    | Ignored

  /** How the bytes of one line are read. The decoder treats this as given, so what is
      proved of it holds for every UTF-8 decoder and JSON reader. */
  type Classifier = seq<Byte> -> Frame

  datatype Ending =
    | Finished
    | FrameTooLarge
    | BadUtf8
    | BadJson
    | ProviderReportedError
    | ReasoningWithoutContent
    | ContentMissing
    | EndedBeforeMarker
    | ReadFailed
    | IdleTimeout

  /** How the byte source stops: end of body, a read error, or an idle timeout. */
  datatype Tail = EndOfBody | ReadError | Idle

  /** What the consumer of the stream sees. */
  datatype Outcome = Outcome(pieces: seq<string>, ending: Ending)

  // ---------------------------------------------------------------- frames

  function StripCr(raw: seq<Byte>): seq<Byte> {
    if raw != [] && raw[|raw| - 1] == CR then raw[..|raw| - 1] else raw
  }

  /** A complete line as the decoder meets it. */
  datatype Reading = Oversize | Framed(frame: Frame)

  /** `raw` has lost its LF and still has its CR, which does not count. */
  function ReadLine(classify: Classifier, raw: seq<Byte>): Reading {
    var line := StripCr(raw);
    if |line| > MAX_FRAME_BYTES then Oversize else Framed(classify(line))
  }

  // ------------------------------------------------ the incremental decoder

  /** The flags and output of the running stream. */
  datatype Track = Track(reasoning: bool, emitted: bool, pieces: seq<string>, ending: Option<Ending>)

  const START := Track(false, false, [], None)

  function OnDone(t: Track): Ending {
    if t.emitted then Finished else if t.reasoning then ReasoningWithoutContent else ContentMissing
  }

  function OnFrame(t: Track, frame: Frame): Track {
    match frame
    case InvalidUtf8 => t.(ending := Some(BadUtf8))
    case Done => t.(ending := Some(OnDone(t)))
    case InvalidJson => t.(ending := Some(BadJson))
    case Reported => t.(ending := Some(ProviderReportedError))
    case Content(piece) => t.(emitted := true, pieces := t.pieces + [piece])
    case Reasoning => t.(reasoning := true)
    case Ignored => t
  }

  function OnLine(t: Track, reading: Reading): Track {
    match reading
    case Oversize => t.(ending := Some(FrameTooLarge))
    case Framed(frame) => OnFrame(t, frame)
  }

  function Drain(classify: Classifier, t: Track, buffer: seq<Byte>): (Track, seq<Byte>)
    decreases |buffer|
  {
    var pos := FirstLf(buffer);
    if t.ending.Some? || pos == |buffer| then (t, buffer)
    else Drain(classify, OnLine(t, ReadLine(classify, buffer[..pos])), buffer[pos + 1..])
  }

  function Feed(classify: Classifier, t: Track, buffer: seq<Byte>, chunk: seq<Byte>): (Track, seq<Byte>) {
    var (u, rest) := Drain(classify, t, buffer + chunk);
    if u.ending.None? && |rest| > MAX_FRAME_BYTES then (u.(ending := Some(FrameTooLarge)), rest) else (u, rest)
  }

  function FeedAll(classify: Classifier, t: Track, buffer: seq<Byte>, chunks: seq<seq<Byte>>): (Track, seq<Byte>)
    decreases |chunks|
  {
    if t.ending.Some? || chunks == [] then (t, buffer)
    else
      var (u, rest) := Feed(classify, t, buffer, chunks[0]);
      FeedAll(classify, u, rest, chunks[1..])
  }

  /** What happens once the byte source stops with `rest` still unread. */
  function Close(classify: Classifier, t: Track, rest: seq<Byte>, tail: Tail): Outcome {
    if t.ending.Some? then Outcome(t.pieces, t.ending.value)
    else if |rest| > MAX_FRAME_BYTES then Outcome(t.pieces, FrameTooLarge)
    else match tail
      case ReadError => Outcome(t.pieces, ReadFailed)
      case Idle => Outcome(t.pieces, IdleTimeout)
      case EndOfBody =>
        match classify(rest)
        case InvalidUtf8 => Outcome(t.pieces, BadUtf8)
        case Done => Outcome(t.pieces, OnDone(t))
        case InvalidJson => Outcome(t.pieces, BadJson)
        case Reported => Outcome(t.pieces, ProviderReportedError)
        case Content(piece) => Outcome(t.pieces + [piece], EndedBeforeMarker)
        case Reasoning => Outcome(t.pieces, ReasoningWithoutContent)
        case Ignored => Outcome(t.pieces, EndedBeforeMarker)
  }

  function Decoded(classify: Classifier, chunks: seq<seq<Byte>>, tail: Tail): Outcome {
    var (t, rest) := FeedAll(classify, START, [], chunks);
    Close(classify, t, rest, tail)
  }

  /** The generator behind the response stream: its locals are the fields. */
  class StreamDecoder {
    var buffer: seq<Byte>
    var observedReasoning: bool
    var emittedFinalContent: bool
    var pieces: seq<string>
    var ending: Option<Ending>
    const classify: Classifier

    ghost function View(): Track
      reads this
    {
      Track(observedReasoning, emittedFinalContent, pieces, ending)
    }

    constructor (classify: Classifier)
      ensures View() == START && buffer == [] && this.classify == classify
    {
      this.classify := classify;
      buffer, pieces := [], [];
      observedReasoning, emittedFinalContent := false, false;
      ending := None;
    }

    method MarkDone()
      requires ending.None?
      modifies this`ending
      ensures View() == old(View()).(ending := Some(OnDone(old(View()))))
    {
      if emittedFinalContent {
        ending := Some(Finished);
      } else if observedReasoning {
        ending := Some(ReasoningWithoutContent);
      } else {
        ending := Some(ContentMissing);
      }
    }

    /** The body of the line loop, on a line without its LF. */
    method AcceptLine(raw: seq<Byte>)
      requires ending.None?
      modifies this
      ensures View() == OnLine(old(View()), ReadLine(classify, raw)) && buffer == old(buffer)
    {
      var line := raw;
      if line != [] && line[|line| - 1] == CR {
        line := line[..|line| - 1];
      }
      if |line| > MAX_FRAME_BYTES {
        ending := Some(FrameTooLarge);
        return;
      }
      match classify(line) {
        case InvalidUtf8 => ending := Some(BadUtf8);
        case Done => MarkDone();
        case InvalidJson => ending := Some(BadJson);
        case Reported => ending := Some(ProviderReportedError);
        case Content(piece) => emittedFinalContent := true; pieces := pieces + [piece];
        case Reasoning => observedReasoning := true;
        case Ignored =>
      }
    }

    /** One chunk: buffer it, drain every complete line, then bound what is left. */
    method Accept(chunk: seq<Byte>)
      requires ending.None?
      modifies this
      ensures (View(), buffer) == Feed(classify, old(View()), old(buffer), chunk)
      ensures ending.None? ==> |buffer| <= MAX_FRAME_BYTES
    {
      buffer := buffer + chunk;
      var pos := FirstLf(buffer);
      while ending.None? && pos < |buffer|
        invariant pos == FirstLf(buffer)
        invariant Drain(classify, old(View()), old(buffer) + chunk) == Drain(classify, View(), buffer)
        decreases |buffer|
      {
        var raw := buffer[..pos];
        buffer := buffer[pos + 1..];
        AcceptLine(raw);
        pos := FirstLf(buffer);
      }
      if ending.None? && |buffer| > MAX_FRAME_BYTES {
        ending := Some(FrameTooLarge);
      }
    }

    /** What follows the chunk loop: the unterminated remainder is one more frame. */
    method Finish(tail: Tail) returns (outcome: Outcome)
      requires ending.None? ==> |buffer| <= MAX_FRAME_BYTES
      modifies this
      ensures outcome == Close(classify, old(View()), buffer, tail) && buffer == old(buffer)
    {
      if ending.None? {
        match tail {
          case ReadError => ending := Some(ReadFailed);
          case Idle => ending := Some(IdleTimeout);
          case EndOfBody =>
            match classify(buffer) {
              case InvalidUtf8 => ending := Some(BadUtf8);
              case Done => MarkDone();
              case InvalidJson => ending := Some(BadJson);
              case Reported => ending := Some(ProviderReportedError);
              case Content(piece) => pieces := pieces + [piece]; ending := Some(EndedBeforeMarker);
              case Reasoning => ending := Some(ReasoningWithoutContent);
              case Ignored => ending := Some(EndedBeforeMarker);
            }
        }
      }
      outcome := Outcome(pieces, ending.value);
    }
  }

  /** The whole response, as the consumer of the stream sees it. */
  method Decode(classify: Classifier, chunks: seq<seq<Byte>>, tail: Tail) returns (outcome: Outcome)
    ensures outcome == Decoded(classify, chunks, tail)
  {
    var decoder := new StreamDecoder(classify);
    var i := 0;
    while decoder.ending.None? && i < |chunks|
      invariant i <= |chunks| && decoder.classify == classify
      invariant decoder.ending.None? ==> |decoder.buffer| <= MAX_FRAME_BYTES
      invariant FeedAll(classify, START, [], chunks) ==
                FeedAll(classify, decoder.View(), decoder.buffer, chunks[i..])
    {
      assert chunks[i..][0] == chunks[i] && chunks[i..][1..] == chunks[i + 1..];
      decoder.Accept(chunks[i]);
      i := i + 1;
    }
    outcome := decoder.Finish(tail);
  }
}
