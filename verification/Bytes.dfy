/** Bytes and LF-terminated lines, shared by the two line-framed transports. */
module Bytes {

  type Byte = b: int | 0 <= b < 256

  const LF: Byte := 10
  const CR: Byte := 13

  /** The position of the first LF, or the length when there is none. */
  function FirstLf(b: seq<Byte>): (i: nat)
    ensures i <= |b|
    ensures i < |b| ==> b[i] == LF
    ensures forall j :: 0 <= j < i ==> b[j] != LF
  {
    if b == [] || b[0] == LF then 0 else 1 + FirstLf(b[1..])
  }

  /** The LF-terminated lines of `s`, without their LF. */
  function RawLines(s: seq<Byte>): seq<seq<Byte>>
    decreases |s|
  {
    var pos := FirstLf(s);
    if pos == |s| then [] else [s[..pos]] + RawLines(s[pos + 1..])
  }

  /** What follows the last LF. */
  function Remainder(s: seq<Byte>): seq<Byte>
    decreases |s|
  {
    var pos := FirstLf(s);
    if pos == |s| then s else Remainder(s[pos + 1..])
  }

  lemma {:induction false} FirstLfConcat(a: seq<Byte>, b: seq<Byte>)
    ensures FirstLf(a + b) == if FirstLf(a) < |a| then FirstLf(a) else |a| + FirstLf(b)
  {
    if a == [] {
      assert a + b == b;
    } else {
      assert (a + b)[1..] == a[1..] + b;
      FirstLfConcat(a[1..], b);
    }
  }

  lemma {:induction false} LinesStep(s: seq<Byte>)
    ensures var pos := FirstLf(s);
      if pos == |s| then RawLines(s) == [] && Remainder(s) == s
      else RawLines(s) == [s[..pos]] + RawLines(s[pos + 1..]) && Remainder(s) == Remainder(s[pos + 1..])
  {
    hide FirstLf;
  }

  /** Lines that a cut splits in two are put together again by the buffer. */
  lemma {:induction false} LinesConcat(a: seq<Byte>, b: seq<Byte>)
    ensures RawLines(a + b) == RawLines(a) + RawLines(Remainder(a) + b)
    ensures Remainder(a + b) == Remainder(Remainder(a) + b)
    decreases |a|
  {
    hide FirstLf, RawLines, Remainder;
    FirstLfConcat(a, b);
    LinesStep(a);
    LinesStep(a + b);
    var pos := FirstLf(a);
    if pos < |a| {
      assert (a + b)[..pos] == a[..pos];
      assert (a + b)[pos + 1..] == a[pos + 1..] + b;
      LinesConcat(a[pos + 1..], b);
    }
  }

  lemma {:induction false} RemainderHasNoLf(s: seq<Byte>)
    ensures FirstLf(Remainder(s)) == |Remainder(s)|
    decreases |s|
  {
    var pos := FirstLf(s);
    if pos < |s| {
      RemainderHasNoLf(s[pos + 1..]);
    }
  }
}
