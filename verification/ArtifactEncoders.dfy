/** The text encoders of rendered office documents: XML escaping and spreadsheet column names. */
module ArtifactEncoders {
  import opened Wrappers

  // ---------------------------------------------------------- XML escaping

  /** `str::replace` with a one-character pattern. */
  function ReplaceChar(s: string, c: char, entity: string): string {
    if s == [] then [] else (if s[0] == c then entity else [s[0]]) + ReplaceChar(s[1..], c, entity)
  }

  function EscapeXml(value: string): string {
    ReplaceChar(ReplaceChar(ReplaceChar(ReplaceChar(ReplaceChar(value,
      '&', "&amp;"), '<', "&lt;"), '>', "&gt;"), '"', "&quot;"), '\'', "&apos;")
  }

  function Entity(c: char): string {
    if c == '&' then "&amp;"
    else if c == '<' then "&lt;"
    else if c == '>' then "&gt;"
    else if c == '"' then "&quot;"
    else if c == '\'' then "&apos;"
    else [c]
  }

  /** One entity for each character on its own. */
  function EscapeEach(value: string): string {
    if value == [] then [] else Entity(value[0]) + EscapeEach(value[1..])
  }

  lemma {:induction false} ReplaceConcat(a: string, b: string, c: char, entity: string)
    ensures ReplaceChar(a + b, c, entity) == ReplaceChar(a, c, entity) + ReplaceChar(b, c, entity)
  {
    if a == [] {
      assert a + b == b;
    } else {
      assert (a + b)[1..] == a[1..] + b;
      ReplaceConcat(a[1..], b, c, entity);
    }
  }

  lemma {:induction false} ReplaceAbsent(s: string, c: char, entity: string)
    requires c !in s
    ensures ReplaceChar(s, c, entity) == s
  {
    if s != [] {
      ReplaceAbsent(s[1..], c, entity);
    }
  }

  lemma {:induction false} EscapeConcat(a: string, b: string)
    ensures EscapeXml(a + b) == EscapeXml(a) + EscapeXml(b)
  {
    hide ReplaceChar;
    ReplaceConcat(a, b, '&', "&amp;");
    var a1, b1 := ReplaceChar(a, '&', "&amp;"), ReplaceChar(b, '&', "&amp;");
    ReplaceConcat(a1, b1, '<', "&lt;");
    var a2, b2 := ReplaceChar(a1, '<', "&lt;"), ReplaceChar(b1, '<', "&lt;");
    ReplaceConcat(a2, b2, '>', "&gt;");
    var a3, b3 := ReplaceChar(a2, '>', "&gt;"), ReplaceChar(b2, '>', "&gt;");
    ReplaceConcat(a3, b3, '"', "&quot;");
    var a4, b4 := ReplaceChar(a3, '"', "&quot;"), ReplaceChar(b3, '"', "&quot;");
    ReplaceConcat(a4, b4, '\'', "&apos;");
  }

  lemma {:induction false} ReplaceOne(c: char, entity: string)
    ensures ReplaceChar([c], c, entity) == entity
  {
    assert [c][1..] == [] && entity + [] == entity;
  }

  /** On one character: no replacement touches the entity an earlier one wrote. */
  lemma {:induction false} EscapeOne(c: char)
    ensures EscapeXml([c]) == Entity(c)
  {
    hide ReplaceChar;
    if c == '&' {
      ReplaceOne(c, "&amp;");
      ReplaceAbsent("&amp;", '<', "&lt;");
      ReplaceAbsent("&amp;", '>', "&gt;");
      ReplaceAbsent("&amp;", '"', "&quot;");
      ReplaceAbsent("&amp;", '\'', "&apos;");
    } else {
      ReplaceAbsent([c], '&', "&amp;");
      if c == '<' {
        ReplaceOne(c, "&lt;");
        ReplaceAbsent("&lt;", '>', "&gt;");
        ReplaceAbsent("&lt;", '"', "&quot;");
        ReplaceAbsent("&lt;", '\'', "&apos;");
      } else {
        ReplaceAbsent([c], '<', "&lt;");
        if c == '>' {
          ReplaceOne(c, "&gt;");
          ReplaceAbsent("&gt;", '"', "&quot;");
          ReplaceAbsent("&gt;", '\'', "&apos;");
        } else {
          ReplaceAbsent([c], '>', "&gt;");
          if c == '"' {
            ReplaceOne(c, "&quot;");
            ReplaceAbsent("&quot;", '\'', "&apos;");
          } else {
            ReplaceAbsent([c], '"', "&quot;");
            if c == '\'' { ReplaceOne(c, "&apos;"); } else { ReplaceAbsent([c], '\'', "&apos;"); }
          }
        }
      }
    }
  }

  /** The five replacements in a row escape each character once and never an entity. */
  lemma {:induction false} EscapeIsMap(value: string)
    ensures EscapeXml(value) == EscapeEach(value)
  {
    hide ReplaceChar, Entity;
    if value == [] {
      ReplaceAbsent([], '&', "&amp;");
      ReplaceAbsent([], '<', "&lt;");
      ReplaceAbsent([], '>', "&gt;");
      ReplaceAbsent([], '"', "&quot;");
      ReplaceAbsent([], '\'', "&apos;");
    } else {
      assert value == [value[0]] + value[1..];
      EscapeConcat([value[0]], value[1..]);
      EscapeOne(value[0]);
      EscapeIsMap(value[1..]);
    }
  }

  // ------------------------------------------------------------- decoding

  const PREDEFINED: seq<char> := ['&', '<', '>', '"', '\'']

  predicate StartsWith(s: string, prefix: string) {
    |prefix| <= |s| && s[..|prefix|] == prefix
  }

  /** Text content decoded by the predefined entities (section 4.6 of XML 1.0). A bare markup
      character or an ampersand that starts no such entity does not decode. */
  function Decode(s: string): Option<string>
    decreases |s|
  {
    if s == [] then Some([])
    else if StartsWith(s, "&amp;") then Prepend('&', Decode(s[5..]))
    else if StartsWith(s, "&lt;") then Prepend('<', Decode(s[4..]))
    else if StartsWith(s, "&gt;") then Prepend('>', Decode(s[4..]))
    else if StartsWith(s, "&quot;") then Prepend('"', Decode(s[6..]))
    else if StartsWith(s, "&apos;") then Prepend('\'', Decode(s[6..]))
    else if s[0] in PREDEFINED then None
    else Prepend(s[0], Decode(s[1..]))
  }

  function Prepend(c: char, rest: Option<string>): Option<string> {
    match rest
    case None => None
    case Some(s) => Some([c] + s)
  }

  lemma {:induction false} StartsWithChars(s: string, prefix: string)
    ensures StartsWith(s, prefix) <==> |prefix| <= |s| && forall i | 0 <= i < |prefix| :: s[i] == prefix[i]
  {
    if StartsWith(s, prefix) {
      forall i | 0 <= i < |prefix| ensures s[i] == prefix[i] { assert s[..|prefix|][i] == prefix[i]; }
    }
  }

  lemma {:induction false} AllStarts(s: string)
    ensures StartsWith(s, "&amp;") ==> s[1] == 'a' && s[2] == 'm'
    ensures StartsWith(s, "&lt;") ==> s[1] == 'l'
    ensures StartsWith(s, "&gt;") ==> s[1] == 'g'
    ensures StartsWith(s, "&quot;") ==> s[1] == 'q'
    ensures StartsWith(s, "&apos;") ==> s[1] == 'a' && s[2] == 'p'
    ensures s != [] && s[0] != '&' ==>
      !StartsWith(s, "&amp;") && !StartsWith(s, "&lt;") && !StartsWith(s, "&gt;") && !StartsWith(s, "&quot;") && !StartsWith(s, "&apos;")
  {
    hide StartsWith;
    StartsWithChars(s, "&amp;");
    StartsWithChars(s, "&lt;");
    StartsWithChars(s, "&gt;");
    StartsWithChars(s, "&quot;");
    StartsWithChars(s, "&apos;");
  }

  lemma {:induction false} EntityStarts(c: char, rest: string)
    ensures var s := Entity(c) + rest;
            && StartsWith(s, Entity(c)) && s[|Entity(c)|..] == rest && s[0] == Entity(c)[0]
            && (c in PREDEFINED ==> s[1] == Entity(c)[1] && s[2] == Entity(c)[2])
  {
    var s := Entity(c) + rest;
    assert s[..|Entity(c)|] == Entity(c);
  }

  lemma {:induction false} DecodeEntity(c: char, rest: string)
    ensures Decode(Entity(c) + rest) == Prepend(c, Decode(rest))
  {
    hide StartsWith, Prepend;
    EntityStarts(c, rest);
    AllStarts(Entity(c) + rest);
  }

  lemma {:induction false} DecodeEach(value: string)
    ensures Decode(EscapeEach(value)) == Some(value)
  {
    hide Entity;
    if value != [] {
      DecodeEntity(value[0], EscapeEach(value[1..]));
      DecodeEach(value[1..]);
      assert value == [value[0]] + value[1..];
    }
  }

  /** Escaped text is well formed and decodes to the text that was escaped. */
  lemma {:induction false} EscapeRoundTrip(value: string)
    ensures Decode(EscapeXml(value)) == Some(value)
  {
    EscapeIsMap(value);
    DecodeEach(value);
  }

  /** Different texts stay different. */
  lemma {:induction false} EscapeIsInjective(a: string, b: string)
    requires EscapeXml(a) == EscapeXml(b)
    ensures a == b
  {
    EscapeRoundTrip(a);
    EscapeRoundTrip(b);
  }

  lemma {:induction false} EscapeHasNoMarkup(value: string)
    ensures forall c | c in EscapeXml(value) :: !Markup(c)
  {
    hide EscapeXml;
    EscapeIsMap(value);
    EachHasNoMarkup(value);
  }

  predicate Markup(c: char) {
    c == '<' || c == '>' || c == '"' || c == '\''
  }

  lemma {:induction false} EntityHasNoMarkup(c: char)
    ensures forall d | d in Entity(c) :: !Markup(d)
  {
  }

  lemma {:induction false} EachHasNoMarkup(value: string)
    ensures forall c | c in EscapeEach(value) :: !Markup(c)
  {
    hide Entity, Markup;
    if value != [] {
      EntityHasNoMarkup(value[0]);
      EachHasNoMarkup(value[1..]);
    }
  }

  // ---------------------------------------------------- spreadsheet columns

  predicate IsLetter(c: char) {
    'A' <= c <= 'Z'
  }

  function LetterValue(c: char): (v: int)
    requires IsLetter(c)
    ensures 1 <= v <= 26
  {
    c as int - 'A' as int + 1
  }

  ghost predicate IsName(s: string) {
    forall i | 0 <= i < |s| :: IsLetter(s[i])
  }

  /** The column that `name` names when it continues a name of value `high`. */
  function Value(high: int, name: string): int
    requires IsName(name)
    decreases |name|
  {
    if name == [] then high
    else assert IsLetter(name[0]); Value(26 * high + LetterValue(name[0]), name[1..])
  }

  method SpreadsheetColumnName(column: nat) returns (result: string)
    ensures IsName(result) && Value(0, result) == column
  {
    var rest := column;
    result := [];
    while rest > 0
      invariant IsName(result) && Value(rest, result) == column
    {
      rest := rest - 1;
      var letter := ('A' as int + rest % 26) as char;
      assert ([letter] + result)[1..] == result;
      result := [letter] + result;
      rest := rest / 26;
    }
  }

  lemma {:induction false} ValueOfLast(high: int, name: string, last: char)
    requires IsName(name) && IsLetter(last)
    ensures IsName(name + [last]) && Value(high, name + [last]) == 26 * Value(high, name) + LetterValue(last)
    decreases |name|
  {
    if name == [] {
      assert [last][1..] == [];
    } else {
      assert (name + [last])[1..] == name[1..] + [last];
      ValueOfLast(26 * high + LetterValue(name[0]), name[1..], last);
    }
  }

  lemma {:induction false} ValueIsNat(name: string)
    requires IsName(name)
    ensures if name == [] then Value(0, name) == 0 else Value(0, name) >= 1
    decreases |name|
  {
    if name != [] {
      var n := |name| - 1;
      assert name == name[..n] + [name[n]];
      ValueOfLast(0, name[..n], name[n]);
      ValueIsNat(name[..n]);
    }
  }

  /** A column has one name only, so no two columns share one. */
  lemma {:induction false} NamesAreUnique(a: string, b: string)
    requires IsName(a) && IsName(b) && Value(0, a) == Value(0, b)
    ensures a == b
    decreases |a|
  {
    ValueIsNat(a);
    ValueIsNat(b);
    if a != [] && b != [] {
      var m, n := |a| - 1, |b| - 1;
      assert a == a[..m] + [a[m]] && b == b[..n] + [b[n]];
      ValueOfLast(0, a[..m], a[m]);
      ValueOfLast(0, b[..n], b[n]);
      assert LetterValue(a[m]) == LetterValue(b[n]);
      NamesAreUnique(a[..m], b[..n]);
    }
  }
}
