/** JSON trees and the pointers into them (RFC 6901), as the patch engine reads them. */
module JsonPointer {
  import opened Wrappers

  datatype Json =
    | Null
    | Bool(bit: bool)
    | Number(number: int)
    | Text(text: string)
    | Arr(items: seq<Json>)
    | Obj(fields: map<string, Json>)

  // ---------------------------------------------------------------- tokens

  function Split(s: string): (parts: seq<string>)
    ensures |parts| >= 1
  {
    if s == [] then [[]]
    else
      var rest := Split(s[1..]);
      if s[0] == '/' then [[]] + rest else [[s[0]] + rest[0]] + rest[1..]
  }

  function Join(parts: seq<string>): string
    requires parts != []
  {
    if |parts| == 1 then parts[0] else parts[0] + ['/'] + Join(parts[1..])
  }

  /** `str::replace` of a tilde and `code` by one character. */
  function Substitute(s: string, code: char, replacement: char): string
    decreases |s|
  {
    if s == [] then []
    else if s[0] == '~' && |s| >= 2 && s[1] == code then [replacement] + Substitute(s[2..], code, replacement)
    else [s[0]] + Substitute(s[1..], code, replacement)
  }

  function Unescape(token: string): string {
    Substitute(Substitute(token, '1', '/'), '0', '~')
  }

  function UnescapeAll(parts: seq<string>): (tokens: seq<string>)
    ensures |tokens| == |parts|
    ensures forall i | 0 <= i < |parts| :: tokens[i] == Unescape(parts[i])
  {
    seq(|parts|, i requires 0 <= i < |parts| => Unescape(parts[i]))
  }

  /** The reference tokens of a pointer; a pointer is empty or starts with a slash. */
  function Tokens(pointer: string): Option<seq<string>> {
    if pointer == [] then Some([])
    else if pointer[0] != '/' then None
    else Some(UnescapeAll(Split(pointer)[1..]))
  }

  function ParentPointer(pointer: string): Option<string> {
    var parts := Split(pointer);
    if |parts| <= 2 then None else Some(Join(parts[..|parts| - 1]))
  }

  function LastSegment(pointer: string): Option<string> {
    var parts := Split(pointer);
    if parts[|parts| - 1] == [] then None else Some(parts[|parts| - 1])
  }

  ghost predicate SlashFree(parts: seq<string>) {
    forall i | 0 <= i < |parts| :: '/' !in parts[i]
  }

  lemma {:induction false} SplitIsSlashFree(s: string)
    ensures SlashFree(Split(s))
  {
    if s != [] {
      SplitIsSlashFree(s[1..]);
    }
  }

  lemma {:induction false} SplitPart(part: string, rest: string)
    requires '/' !in part
    ensures Split(part) == [part]
    ensures Split(part + ['/'] + rest) == [part] + Split(rest)
  {
    var whole := part + ['/'] + rest;
    if part == [] {
      assert whole[1..] == rest;
    } else {
      SplitPart(part[1..], rest);
      assert whole[1..] == part[1..] + ['/'] + rest;
      assert part == [part[0]] + part[1..];
    }
  }

  lemma {:induction false} SplitJoin(parts: seq<string>)
    requires parts != [] && SlashFree(parts)
    ensures Split(Join(parts)) == parts
  {
    if |parts| == 1 {
      SplitPart(parts[0], []);
      assert parts == [parts[0]];
    } else {
      SplitJoin(parts[1..]);
      SplitPart(parts[0], Join(parts[1..]));
    }
  }

  lemma {:induction false} SplitHead(pointer: string)
    requires pointer != [] && pointer[0] == '/'
    ensures Split(pointer)[0] == []
  {
  }

  lemma {:induction false} EmptySplit()
    ensures |Split([])| == 1
  {
  }

  lemma {:induction false} JoinHead(parts: seq<string>)
    requires |parts| >= 2 && parts[0] == []
    ensures Join(parts) != [] && Join(parts)[0] == '/'
  {
  }

  /** The parent pointer's tokens are the pointer's own without the last. */
  lemma {:induction false} ParentTokens(pointer: string)
    requires Tokens(pointer).Some? && |Split(pointer)| > 2
    ensures var ts := Tokens(pointer).value;
      && |ts| == |Split(pointer)| - 1
      && Tokens(ParentPointer(pointer).value) == Some(ts[..|ts| - 1])
      && ts[|ts| - 1] == Unescape(Split(pointer)[|Split(pointer)| - 1])
  {
    hide Unescape, Split, Join;
    var parts := Split(pointer);
    var n := |parts| - 1;
    SplitIsSlashFree(pointer);
    SplitJoin(parts[..n]);
    assert pointer != [] by { EmptySplit(); }
    SplitHead(pointer);
    JoinHead(parts[..n]);
    assert parts[..n][1..] == parts[1..][..n - 1];
    assert Tokens(pointer) == Some(UnescapeAll(parts[1..]));
    assert UnescapeAll(parts[1..n]) == UnescapeAll(parts[1..])[..n - 1];
  }

  lemma {:induction false} SubstituteLaw(s: string, code: char, replacement: char)
    ensures replacement !in Substitute(s, code, replacement) ==> Substitute(s, code, replacement) == s
    decreases |s|
  {
    if s != [] {
      if s[0] == '~' && |s| >= 2 && s[1] == code {
        assert Substitute(s, code, replacement)[0] == replacement;
      } else {
        SubstituteLaw(s[1..], code, replacement);
        assert s == [s[0]] + s[1..];
        assert Substitute(s, code, replacement)[1..] == Substitute(s[1..], code, replacement);
      }
    }
  }

  // --------------------------------------------------------------- indices

  const USIZE: int := 0x1_0000_0000_0000_0000

  predicate IsDigit(c: char) {
    '0' <= c <= '9'
  }

  predicate Digits(s: string) {
    forall i | 0 <= i < |s| :: IsDigit(s[i])
  }

  function Decimal(s: string): nat
    requires Digits(s)
  {
    if s == [] then 0 else 10 * Decimal(s[..|s| - 1]) + (s[|s| - 1] as int - '0' as int)
  }

  /** `str::parse::<usize>`: one leading plus sign is allowed, and so are leading zeros. */
  function ParseUsize(s: string): Option<nat> {
    var digits := if |s| > 1 && s[0] == '+' then s[1..] else s;
    if digits != [] && Digits(digits) && Decimal(digits) < USIZE then Some(Decimal(digits)) else None
  }

  /** An array index as a token names it: neither of the two is allowed. */
  function ParseIndex(s: string): Option<nat> {
    if s != [] && (s[0] == '+' || (s[0] == '0' && |s| != 1)) then None else ParseUsize(s)
  }

  /** An index has one name. */
  lemma {:induction false} IndexIsCanonical(a: string, b: string)
    requires ParseIndex(a).Some? && ParseIndex(a) == ParseIndex(b)
    ensures a == b
  {
    DecimalIsInjective(a, b);
  }

  ghost predicate NoLeadingZero(s: string) {
    Digits(s) && s != [] && (s[0] == '0' ==> |s| == 1)
  }

  lemma {:induction false} DecimalPositive(s: string)
    requires NoLeadingZero(s) && s[0] != '0'
    ensures Decimal(s) > 0
  {
    if |s| > 1 {
      DecimalPositive(s[..|s| - 1]);
    }
  }

  lemma {:induction false} DecimalIsInjective(a: string, b: string)
    requires NoLeadingZero(a) && NoLeadingZero(b) && Decimal(a) == Decimal(b)
    ensures a == b
    decreases |a|
  {
    var m, n := |a| - 1, |b| - 1;
    assert Decimal(a[..m]) == Decimal(b[..n]) && a[m] == b[n];
    assert a == a[..m] + [a[m]] && b == b[..n] + [b[n]];
    if m == 0 {
      if n > 0 { DecimalPositive(b[..n]); }
    } else {
      DecimalPositive(a[..m]);
      if n > 0 { DecimalIsInjective(a[..m], b[..n]); }
    }
  }

  /** A segment that names an index has no escape in it and means the same number unread. */
  lemma {:induction false} IndexIsEscapeFree(segment: string)
    requires ParseIndex(Unescape(segment)).Some?
    ensures Unescape(segment) == segment && ParseUsize(segment) == ParseIndex(segment)
  {
    var once := Substitute(segment, '1', '/');
    var token := Unescape(segment);
    assert Digits(token);
    SubstituteLaw(once, '0', '~');
    SubstituteLaw(segment, '1', '/');
  }

  // ------------------------------------------------------------ navigation

  function Child(v: Json, token: string): Option<Json> {
    match v
    case Obj(fields) => if token in fields then Some(fields[token]) else None
    case Arr(items) =>
      var i := ParseIndex(token);
      if i.Some? && i.value < |items| then Some(items[i.value]) else None
    case _ => None
  }

  function Get(v: Json, tokens: seq<string>): Option<Json>
    decreases |tokens|
  {
    if tokens == [] then Some(v)
    else
      var child := Child(v, tokens[0]);
      if child.None? then None else Get(child.value, tokens[1..])
  }

  function Resolve(v: Json, pointer: string): Option<Json> {
    if Tokens(pointer).None? then None else Get(v, Tokens(pointer).value)
  }

  function SetChild(v: Json, token: string, x: Json): Json
    requires Child(v, token).Some?
  {
    match v
    case Obj(fields) => Obj(fields[token := x])
    case Arr(items) => Arr(items[ParseIndex(token).value := x])
  }

  /** Writing through a mutable reference to the value that `tokens` name. */
  function Put(v: Json, tokens: seq<string>, x: Json): Json
    requires Get(v, tokens).Some?
    decreases |tokens|
  {
    if tokens == [] then x
    else SetChild(v, tokens[0], Put(Child(v, tokens[0]).value, tokens[1..], x))
  }

  lemma {:induction false} SetChildLaw(v: Json, token: string, x: Json, other: string)
    requires Child(v, token).Some?
    ensures Child(SetChild(v, token, x), other) == if other == token then Some(x) else Child(v, other)
  {
    if v.Arr? && ParseIndex(other).Some? && ParseIndex(other) == ParseIndex(token) {
      IndexIsCanonical(token, other);
    }
  }

  lemma {:induction false} GetConcat(v: Json, a: seq<string>, b: seq<string>)
    ensures Get(v, a + b) == if Get(v, a).None? then None else Get(Get(v, a).value, b)
    decreases |a|
  {
    hide Child;
    if a == [] {
      assert a + b == b;
    } else {
      assert (a + b)[0] == a[0] && (a + b)[1..] == a[1..] + b;
      if Child(v, a[0]).Some? {
        GetConcat(Child(v, a[0]).value, a[1..], b);
      }
    }
  }

  /** What is written is read back, and so is everything in it. */
  lemma {:induction false} PutGet(v: Json, tokens: seq<string>, x: Json, under: seq<string>)
    requires Get(v, tokens).Some?
    ensures Get(Put(v, tokens, x), tokens + under) == Get(x, under)
    decreases |tokens|
  {
    hide Child, SetChild;
    if tokens == [] {
      assert tokens + under == under;
    } else {
      var child := Child(v, tokens[0]).value;
      PutGet(child, tokens[1..], x, under);
      SetChildLaw(v, tokens[0], Put(child, tokens[1..], x), tokens[0]);
      assert (tokens + under)[0] == tokens[0] && (tokens + under)[1..] == tokens[1..] + under;
    }
  }

  /** Two paths part before either ends. */
  ghost predicate Disjoint(a: seq<string>, b: seq<string>) {
    !(a <= b) && !(b <= a)
  }

  lemma {:induction false} PutElsewhere(v: Json, tokens: seq<string>, x: Json, other: seq<string>)
    requires Get(v, tokens).Some? && Disjoint(tokens, other)
    ensures Get(Put(v, tokens, x), other) == Get(v, other)
    decreases |tokens|
  {
    hide Child, SetChild;
    if tokens != [] && other != [] {
      var child := Child(v, tokens[0]).value;
      SetChildLaw(v, tokens[0], Put(child, tokens[1..], x), other[0]);
      if other[0] == tokens[0] {
        assert Disjoint(tokens[1..], other[1..]) by {
          assert tokens == [tokens[0]] + tokens[1..] && other == [other[0]] + other[1..];
        }
        PutElsewhere(child, tokens[1..], x, other[1..]);
      }
    }
  }

  lemma {:induction false} SetChildTwice(v: Json, token: string, x: Json, y: Json)
    requires Child(v, token).Some?
    ensures Child(SetChild(v, token, x), token) == Some(x)
    ensures SetChild(SetChild(v, token, x), token, y) == SetChild(v, token, y)
  {
    SetChildLaw(v, token, x, token);
  }

  lemma {:induction false} SetChildSame(v: Json, token: string)
    requires Child(v, token).Some?
    ensures SetChild(v, token, Child(v, token).value) == v
  {
  }

  /** The last write wins, and writing back what is there changes nothing. */
  lemma {:induction false} PutTwice(v: Json, tokens: seq<string>, x: Json, y: Json)
    requires Get(v, tokens).Some?
    ensures Get(Put(v, tokens, x), tokens) == Some(x)
    ensures Put(Put(v, tokens, x), tokens, y) == Put(v, tokens, y)
    ensures Put(v, tokens, Get(v, tokens).value) == v
    decreases |tokens|
  {
    hide Child, SetChild;
    if tokens != [] {
      var child := Child(v, tokens[0]).value;
      PutTwice(child, tokens[1..], x, y);
      SetChildTwice(v, tokens[0], Put(child, tokens[1..], x), Put(child, tokens[1..], y));
      SetChildSame(v, tokens[0]);
    }
  }

  // ------------------------------------------------- writing what is read

  /** A token as RFC 6901, section 3, has it written. */
  function Escape(token: string): string {
    if token == [] then []
    else (if token[0] == '~' then "~0" else if token[0] == '/' then "~1" else [token[0]]) + Escape(token[1..])
  }

  /** A token with only its tildes written out. */
  function HalfEscape(token: string): string {
    if token == [] then [] else (if token[0] == '~' then "~0" else [token[0]]) + HalfEscape(token[1..])
  }

  function PointerTo(tokens: seq<string>): string {
    if tokens == [] then [] else "/" + Escape(tokens[0]) + PointerTo(tokens[1..])
  }

  lemma {:induction false} SubstitutePlain(c: char, rest: string, code: char, replacement: char)
    requires c != '~'
    ensures Substitute([c] + rest, code, replacement) == [c] + Substitute(rest, code, replacement)
  {
    assert ([c] + rest)[1..] == rest;
  }

  lemma {:induction false} SubstituteCode(d: char, rest: string, code: char, replacement: char)
    requires d != '~'
    ensures Substitute(['~', d] + rest, code, replacement)
         == (if d == code then [replacement] else ['~', d]) + Substitute(rest, code, replacement)
  {
    var s := ['~', d] + rest;
    assert s[2..] == rest && s[1..] == [d] + rest;
    if d != code {
      SubstitutePlain(d, rest, code, replacement);
      assert ['~'] + ([d] + Substitute(rest, code, replacement)) == ['~', d] + Substitute(rest, code, replacement);
    }
  }

  lemma {:induction false} SlashesReadBack(token: string)
    ensures Substitute(Escape(token), '1', '/') == HalfEscape(token) && '/' !in Escape(token)
  {
    hide Substitute;
    if token == [] {
      assert Substitute([], '1', '/') == [] by { SubstituteNothing('1', '/'); }
    } else {
      SlashesReadBack(token[1..]);
      var rest := Escape(token[1..]);
      if token[0] == '~' {
        SubstituteCode('0', rest, '1', '/');
      } else if token[0] == '/' {
        SubstituteCode('1', rest, '1', '/');
      } else {
        SubstitutePlain(token[0], rest, '1', '/');
      }
    }
  }

  lemma {:induction false} SubstituteNothing(code: char, replacement: char)
    ensures Substitute([], code, replacement) == []
  {
  }

  lemma {:induction false} TildesReadBack(token: string)
    ensures Substitute(HalfEscape(token), '0', '~') == token
  {
    hide Substitute;
    if token == [] {
      SubstituteNothing('0', '~');
    } else {
      TildesReadBack(token[1..]);
      var rest := HalfEscape(token[1..]);
      assert token == [token[0]] + token[1..];
      if token[0] == '~' {
        SubstituteCode('0', rest, '0', '~');
      } else {
        SubstitutePlain(token[0], rest, '0', '~');
      }
    }
  }

  function EscapeAll(tokens: seq<string>): (parts: seq<string>)
    ensures |parts| == |tokens|
  {
    seq(|tokens|, i requires 0 <= i < |tokens| => Escape(tokens[i]))
  }

  lemma {:induction false} PointerIsJoin(tokens: seq<string>)
    requires tokens != []
    ensures PointerTo(tokens) == "/" + Join(EscapeAll(tokens))
  {
    hide Escape;
    var parts := EscapeAll(tokens);
    if |tokens| == 1 {
      assert PointerTo(tokens[1..]) == [] && "/" + Escape(tokens[0]) + [] == "/" + Escape(tokens[0]);
    } else {
      PointerIsJoin(tokens[1..]);
      assert parts[1..] == EscapeAll(tokens[1..]);
    }
  }

  /** A pointer written for any tokens reads back as these tokens. */
  lemma {:induction false} PointerReadsBack(tokens: seq<string>)
    ensures Tokens(PointerTo(tokens)) == Some(tokens)
  {
    hide Split, Join, Escape, Substitute;
    if tokens != [] {
      var parts := EscapeAll(tokens);
      PointerIsJoin(tokens);
      assert Join([[]] + parts) == "/" + Join(parts) by { JoinEmpty(parts); }
      forall i | 0 <= i < |tokens| ensures '/' !in parts[i] && Unescape(parts[i]) == tokens[i] {
        SlashesReadBack(tokens[i]);
        TildesReadBack(tokens[i]);
      }
      SplitJoin([[]] + parts);
      assert ([[]] + parts)[1..] == parts;
      assert UnescapeAll(parts) == tokens;
    }
  }

  lemma {:induction false} JoinEmpty(parts: seq<string>)
    requires parts != []
    ensures Join([[]] + parts) == "/" + Join(parts)
  {
    assert ([[]] + parts)[1..] == parts;
    assert [] + ['/'] + Join(parts) == "/" + Join(parts);
  }

  function ShowDigit(d: nat): (c: char)
    requires d < 10
    ensures IsDigit(c) && c as int - '0' as int == d
  {
    '0' + d as char
  }

  function Show(n: nat): string {
    if n < 10 then [ShowDigit(n)] else Show(n / 10) + [ShowDigit(n % 10)]
  }

  lemma {:induction false} ShowLaw(n: nat)
    ensures NoLeadingZero(Show(n)) && Decimal(Show(n)) == n && (n > 0 ==> Show(n)[0] != '0')
  {
    if n >= 10 {
      ShowLaw(n / 10);
      var s := Show(n);
      assert s[..|s| - 1] == Show(n / 10) && s[0] == Show(n / 10)[0];
    }
  }

  /** A 64-bit index written in decimal reads back, and no other token names it. */
  lemma {:induction false} IndexReadsBack(n: nat, token: string)
    requires n < USIZE
    ensures ParseIndex(token) == Some(n) <==> token == Show(n)
  {
    hide Decimal, Show;
    ShowLaw(n);
    assert ParseIndex(Show(n)) == Some(n);
    if ParseIndex(token) == Some(n) {
      IndexIsCanonical(token, Show(n));
    }
  }
}
