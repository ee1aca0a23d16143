/** How the decoder reads the bytes of one line: UTF-8, trimming, the `data:` prefix,
    the end marker and the JSON inspection. */
module SseFrames {
  import opened Bytes
  import opened Wrappers
  import opened SseDecoder
  import opened Whitespace

  /** What a JSON frame turned out to hold. */
  datatype JsonFrame = NotJson | ErrorReport | Text(piece: string) | ReasoningText | OtherJson

  /** UTF-8 decoding and JSON inspection are left open; everything between them is not. */
  datatype Codec = Codec(utf8: seq<Byte> -> Option<string>, json: string -> JsonFrame)

  function Classify(codec: Codec, line: seq<Byte>): Frame {
    match codec.utf8(line)
    case None => InvalidUtf8
    case Some(text) => ClassifyText(codec, Trim(text))
  }

  function ClassifyText(codec: Codec, text: string): Frame {
    if !("data:" <= text) then Ignored
    else if Trim(text[5..]) == "[DONE]" then Done
    else
      match codec.json(Trim(text[5..]))
      case NotJson => InvalidJson
      case ErrorReport => Reported
      case Text(piece) => Content(piece)
      case ReasoningText => Reasoning
      case OtherJson => Ignored
  }

  /** CR is one ASCII byte: it neither repairs nor breaks the encoding before it. */
  ghost predicate CrIsTransparent(codec: Codec) {
    forall line: seq<Byte> ::
      codec.utf8(line + [CR]) == match codec.utf8(line) case None => None case Some(text) => Some(text + "\r")
  }

  lemma {:induction false} TrimIgnoresTrailingCr(s: string)
    ensures Trim(s + "\r") == Trim(s)
  {
    if s != [] && IsSpace(s[0]) {
      assert (s + "\r")[1..] == s[1..] + "\r";
      TrimIgnoresTrailingCr(s[1..]);
    } else if s != [] {
      assert (s + "\r")[..|s|] == s;
    } else {
      assert s + "\r" == "\r" && "\r"[1..] == s;
    }
  }

  /** The remainder of a body is never stripped of its CR, and is read all the same
      as the complete line would be: both are trimmed. */
  lemma {:induction false} TrailingCrIgnored(codec: Codec, line: seq<Byte>)
    requires CrIsTransparent(codec)
    ensures Classify(codec, line + [CR]) == Classify(codec, line) == Classify(codec, StripCr(line))
  {
    forall l: seq<Byte>
      ensures Classify(codec, l + [CR]) == Classify(codec, l)
    {
      if codec.utf8(l).Some? { TrimIgnoresTrailingCr(codec.utf8(l).value); }
    }
    if StripCr(line) != line {
      assert line == StripCr(line) + [CR];
    }
  }

  // ---------------------------------------------------- what a line means

  /** A line that begins with `data:`, white space apart, is the end marker or JSON, by what follows with its
      white space taken away. */
  lemma {:induction false} DataLine(codec: Codec, line: seq<Byte>, a: string, gap: string, payload: string, b: string)
    requires codec.utf8(line) == Some(a + ("data:" + gap + payload) + b) && Blank(a) && Blank(gap) && Tight(payload) && Blank(b)
    ensures Classify(codec, line)
            == if payload == "[DONE]" then Done
               else match codec.json(payload)
                 case NotJson => InvalidJson
                 case ErrorReport => Reported
                 case Text(piece) => Content(piece)
                 case ReasoningText => Reasoning
                 case OtherJson => Ignored
  {
    hide TrimStart, TrimEnd, IsSpace;
    assert !IsSpace('d') && !IsSpace(':') by { LettersAreNoSpace(); }
    var core := "data:" + gap + payload;
    if payload == [] {
      assert a + core + b == a + "data:" + (gap + b);
      TrimLaw(a, "data:", gap + b);
      TrimLaw([], [], []);
      assert [] + payload + [] == [] && "data:"[5..] == payload;
    } else {
      assert core[0] == 'd' && core[|core| - 1] == payload[|payload| - 1];
      TrimLaw(a, core, b);
      assert core[5..] == gap + payload + [];
      TrimLaw(gap, payload, []);
    }
  }

  lemma {:induction false} LettersAreNoSpace()
    ensures !IsSpace('d') && !IsSpace(':')
  {
  }

  /** Every other line is ignored, and one that is not UTF-8 is an error. */
  lemma {:induction false} OtherLine(codec: Codec, line: seq<Byte>, a: string, text: string, b: string)
    requires Blank(a) && Tight(text) && Blank(b) && !("data:" <= text)
    ensures codec.utf8(line) == Some(a + text + b) ==> Classify(codec, line) == Ignored
    ensures codec.utf8(line) == None ==> Classify(codec, line) == InvalidUtf8
  {
    TrimLaw(a, text, b);
  }
}
