/** White space as Rust's `char::is_whitespace` has it, and trimming of it. */
module Whitespace {

  predicate IsSpace(c: char) {
    '\t' <= c <= '\r' || c == ' ' || c == '\U{0085}' || c == '\U{00A0}' || c == '\U{1680}'
    || '\U{2000}' <= c <= '\U{200A}' || c == '\U{2028}' || c == '\U{2029}' || c == '\U{202F}'
    || c == '\U{205F}' || c == '\U{3000}'
  }

  function TrimEnd(s: string): string {
    if s != [] && IsSpace(s[|s| - 1]) then TrimEnd(s[..|s| - 1]) else s
  }

  function TrimStart(s: string): string {
    if s != [] && IsSpace(s[0]) then TrimStart(s[1..]) else s
  }

  function Trim(s: string): string {
    TrimEnd(TrimStart(s))
  }

  ghost predicate Blank(s: string) {
    forall i | 0 <= i < |s| :: IsSpace(s[i])
  }

  /** White space at the end is taken away, and nothing else. */
  lemma {:induction false} TrimEndLaw(p: string, b: string)
    requires Blank(b) && (p != [] ==> !IsSpace(p[|p| - 1]))
    ensures TrimEnd(p + b) == p
    decreases |b|
  {
    if b == [] {
      assert p + b == p;
    } else {
      assert (p + b)[..|p + b| - 1] == p + b[..|b| - 1];
      TrimEndLaw(p, b[..|b| - 1]);
    }
  }

  /** No white space at either end. */
  predicate Tight(s: string) {
    s != [] ==> !IsSpace(s[0]) && !IsSpace(s[|s| - 1])
  }

  lemma {:induction false} TrimStartLaw(a: string, p: string)
    requires Blank(a) && (p != [] ==> !IsSpace(p[0]))
    ensures TrimStart(a + p) == p
  {
    if a == [] {
      assert a + p == p;
    } else {
      assert (a + p)[1..] == a[1..] + p;
      TrimStartLaw(a[1..], p);
    }
  }

  /** Trimming takes away the white space at both ends and nothing else. */
  lemma {:induction false} TrimLaw(a: string, p: string, b: string)
    requires Blank(a) && Tight(p) && Blank(b)
    ensures Trim(a + p + b) == p
  {
    if p == [] {
      assert a + p + b == (a + b) + [];
      TrimStartLaw(a + b, []);
    } else {
      assert a + p + b == a + (p + b);
      TrimStartLaw(a, p + b);
      TrimEndLaw(p, b);
    }
  }

  /** `s` is what is left of `given` without the white space around it. */
  ghost predicate IsTrimmed(given: string, s: string) {
    Tight(s) && exists a, b :: Blank(a) && Blank(b) && given == a + s + b
  }

  lemma {:induction false} TrimIs(given: string, s: string)
    requires IsTrimmed(given, s)
    ensures Trim(given) == s
  {
    hide TrimStart, TrimEnd, Blank, Tight;
    var a, b :| Blank(a) && Blank(b) && given == a + s + b;
    TrimLaw(a, s, b);
  }
}
