/** Greedy wrapping and pagination of document text. Lengths on the page are in half
    millimetres, in which every height and gap of the layout is a whole number. */
module PdfLayout {
  import opened Whitespace

  // -------------------------------------------------------------- wrapping

  function CharWidth(c: char): nat {
    if c < '\U{0080}' then 1 else 2
  }

  function Width(s: string): nat {
    if s == [] then 0 else CharWidth(s[0]) + Width(s[1..])
  }

  /** Source lines end at LF or CR LF; an unterminated last line counts if it is not empty. */
  function SourceLines(text: string): seq<string> {
    SplitLines(text, [])
  }

  function SplitLines(text: string, line: string): seq<string> {
    if text == [] then (if line == [] then [] else [line])
    else if text[0] == '\n' then [StripCr(line)] + SplitLines(text[1..], [])
    else SplitLines(text[1..], line + [text[0]])
  }

  function StripCr(line: string): string {
    if line != [] && line[|line| - 1] == '\r' then line[..|line| - 1] else line
  }

  /** A line as a text has it: its characters, then LF or CR LF. */
  datatype Ended = Ended(text: string, crlf: bool)

  /** The characters of the line are all its own. */
  predicate Whole(l: Ended) {
    '\n' !in l.text && (l.text != [] ==> l.text[|l.text| - 1] != '\r')
  }

  function Joined(lines: seq<Ended>): string {
    if lines == [] then [] else lines[0].text + (if lines[0].crlf then "\r\n" else "\n") + Joined(lines[1..])
  }

  function LineTexts(lines: seq<Ended>): seq<string> {
    seq(|lines|, i requires 0 <= i < |lines| => lines[i].text)
  }

  lemma {:induction false} SplitRun(run: string, rest: string, line: string)
    requires '\n' !in run
    ensures SplitLines(run + rest, line) == SplitLines(rest, line + run)
    decreases |run|
  {
    if run == [] {
      assert run + rest == rest && line + run == line;
    } else {
      assert (run + rest)[0] == run[0] && (run + rest)[1..] == run[1..] + rest;
      assert run[0] in run && line + [run[0]] + run[1..] == line + run;
      SplitRun(run[1..], rest, line + [run[0]]);
    }
  }

  lemma {:induction false} SplitFirst(l: Ended, rest: string)
    requires Whole(l)
    ensures SplitLines(l.text + (if l.crlf then "\r\n" else "\n") + rest, []) == [l.text] + SplitLines(rest, [])
  {
    hide SplitLines, StripCr, Whole;
    EndIsStripped(l);
    var run := l.text + if l.crlf then "\r" else "";
    assert l.text + (if l.crlf then "\r\n" else "\n") + rest == run + ("\n" + rest);
    SplitRun(run, "\n" + rest, []);
    assert [] + run == run;
    SplitAt(run, rest);
  }

  /** Splitting takes a text apart where its lines were joined, and an unterminated last line, CR and all, is one
      more unless it is empty. */
  lemma {:induction false} LinesAreSplit(lines: seq<Ended>, last: string)
    requires (forall l | l in lines :: Whole(l)) && '\n' !in last
    ensures SourceLines(Joined(lines) + last) == LineTexts(lines) + if last == [] then [] else [last]
  {
    hide SplitLines, Whole;
    if lines == [] {
      assert Joined(lines) + last == last + [] && [] + last == last;
      SplitRun(last, [], []);
      SplitEnd(last);
    } else {
      var l, rest := lines[0], lines[1..];
      assert lines == [l] + rest;
      LinesAreSplit(rest, last);
      SplitFirst(l, Joined(rest) + last);
      JoinedFirst(lines, last);
      assert LineTexts(lines) == [l.text] + LineTexts(rest);
    }
  }

  lemma {:induction false} JoinedFirst(lines: seq<Ended>, last: string)
    requires lines != []
    ensures Joined(lines) + last == lines[0].text + (if lines[0].crlf then "\r\n" else "\n") + (Joined(lines[1..]) + last)
  {
  }

  lemma {:induction false} SplitEnd(last: string)
    ensures SplitLines([], last) == if last == [] then [] else [last]
  {
  }

  lemma {:induction false} SplitAt(run: string, rest: string)
    ensures SplitLines("\n" + rest, run) == [StripCr(run)] + SplitLines(rest, [])
  {
    assert ("\n" + rest)[1..] == rest;
  }

  lemma {:induction false} EndIsStripped(l: Ended)
    requires Whole(l)
    ensures var run := l.text + if l.crlf then "\r" else ""; StripCr(run) == l.text && '\n' !in run
  {
    assert l.text + "" == l.text && (l.text + "\r")[..|l.text|] == l.text;
  }

  /** Characters of ASCII are one unit wide, all others two. */
  lemma {:induction false} WidthLaw(s: string)
    ensures (forall i | 0 <= i < |s| :: s[i] < '\U{0080}') ==> Width(s) == |s|
    ensures (forall i | 0 <= i < |s| :: s[i] >= '\U{0080}') ==> Width(s) == 2 * |s|
  {
    if s != [] {
      WidthLaw(s[1..]);
    }
  }

  /** How many characters the next piece takes: one at least, and all that still fit. */
  function Take(s: string, limit: nat): (k: nat)
    requires s != []
    ensures 1 <= k <= |s|
  {
    1 + More(s[1..], CharWidth(s[0]), limit)
  }

  function More(s: string, used: nat, limit: nat): (k: nat)
    ensures k <= |s|
  {
    if s == [] || used + CharWidth(s[0]) > limit then 0 else 1 + More(s[1..], used + CharWidth(s[0]), limit)
  }

  function Greedy(s: string, limit: nat): seq<string>
    decreases |s|
  {
    if s == [] then [] else [s[..Take(s, limit)]] + Greedy(s[Take(s, limit)..], limit)
  }

  function Concat(pieces: seq<string>): string {
    if pieces == [] then [] else pieces[0] + Concat(pieces[1..])
  }

  function TrimAll(pieces: seq<string>): seq<string> {
    seq(|pieces|, i requires 0 <= i < |pieces| => TrimEnd(pieces[i]))
  }

  function WrapLines(lines: seq<string>, limit: nat): seq<string> {
    if lines == [] then [] else TrimAll(Greedy(lines[0], limit)) + WrapLines(lines[1..], limit)
  }

  function WrapText(text: string, limit: nat): seq<string> {
    WrapLines(SourceLines(text), limit)
  }

  lemma {:induction false} WidthConcat(a: string, b: string)
    ensures Width(a + b) == Width(a) + Width(b)
  {
    if a == [] {
      assert a + b == b;
    } else {
      assert (a + b)[1..] == a[1..] + b;
      WidthConcat(a[1..], b);
    }
  }

  /** Greedy's next piece is the longest prefix that fits, if its first character does. */
  lemma {:induction false} MoreLaw(s: string, used: nat, limit: nat)
    requires used <= limit
    ensures used + Width(s[..More(s, used, limit)]) <= limit
    ensures forall n | 0 <= n <= |s| && used + Width(s[..n]) <= limit :: n <= More(s, used, limit)
  {
    if s != [] {
      var w := CharWidth(s[0]);
      forall n | 0 < n <= |s| ensures Width(s[..n]) == w + Width(s[1..][..n - 1]) {
        assert s[..n][1..] == s[1..][..n - 1];
      }
      if used + w <= limit {
        MoreLaw(s[1..], used + w, limit);
      }
    }
  }

  lemma {:induction false} TakeLaw(s: string, limit: nat)
    requires s != [] && limit >= 2
    ensures Width(s[..Take(s, limit)]) <= limit
    ensures forall n | 0 <= n <= |s| && Width(s[..n]) <= limit :: n <= Take(s, limit)
  {
    var w := CharWidth(s[0]);
    MoreLaw(s[1..], w, limit);
    forall n | 0 < n <= |s| ensures Width(s[..n]) == w + Width(s[1..][..n - 1]) {
      assert s[..n][1..] == s[1..][..n - 1];
    }
  }

  ghost predicate AllWithin(pieces: seq<string>, limit: nat) {
    forall i | 0 <= i < |pieces| :: Width(pieces[i]) <= limit
  }

  ghost predicate NoneEmpty(pieces: seq<string>) {
    forall i | 0 <= i < |pieces| :: pieces[i] != []
  }

  /** The pieces together are the line again, none is empty, and at a limit of two or more,
      which every character fits, none is too wide. */
  lemma {:induction false} GreedyLaw(s: string, limit: nat)
    ensures Concat(Greedy(s, limit)) == s && NoneEmpty(Greedy(s, limit))
    ensures limit >= 2 ==> AllWithin(Greedy(s, limit), limit)
    decreases |s|
  {
    if s != [] {
      if limit >= 2 { TakeLaw(s, limit); }
      GreedyLaw(s[Take(s, limit)..], limit);
    }
  }

  lemma {:induction false} TrimNarrows(s: string)
    ensures Width(TrimEnd(s)) <= Width(s)
  {
    if s != [] && IsSpace(s[|s| - 1]) {
      TrimNarrows(s[..|s| - 1]);
      WidthConcat(s[..|s| - 1], s[|s| - 1..]);
      assert s == s[..|s| - 1] + s[|s| - 1..];
    }
  }

  /** No line of a wrapped text is wider than the limit. */
  lemma {:induction false} WrapWithin(lines: seq<string>, limit: nat)
    requires limit >= 2
    ensures AllWithin(WrapLines(lines, limit), limit)
  {
    if lines != [] {
      var pieces := Greedy(lines[0], limit);
      GreedyLaw(lines[0], limit);
      WrapWithin(lines[1..], limit);
      forall i | 0 <= i < |pieces| ensures Width(TrimAll(pieces)[i]) <= limit {
        TrimNarrows(pieces[i]);
      }
    }
  }

  lemma {:induction false} TrimIsTail(s: string)
    ensures TrimEnd(s) <= s && Blank(s[|TrimEnd(s)|..]) && (TrimEnd(s) != [] ==> !IsSpace(TrimEnd(s)[|TrimEnd(s)| - 1]))
  {
    if s != [] && IsSpace(s[|s| - 1]) {
      var n := |s| - 1;
      TrimIsTail(s[..n]);
      assert s[|TrimEnd(s)|..] == s[..n][|TrimEnd(s)|..] + [s[n]];
    }
  }

  /** Text is wrapped line by line. */
  lemma {:induction false} WrapsByLine(l: Ended, rest: string, limit: nat)
    requires Whole(l)
    ensures WrapText(l.text + (if l.crlf then "\r\n" else "\n") + rest, limit) == TrimAll(Greedy(l.text, limit)) + WrapText(rest, limit)
  {
    hide Greedy, TrimAll, SplitLines;
    SplitFirst(l, rest);
    var lines := SourceLines(rest);
    assert ([l.text] + lines)[1..] == lines;
  }

  lemma {:induction false} WrapsAlone(line: string, limit: nat)
    requires '\n' !in line
    ensures WrapText(line, limit) == TrimAll(Greedy(line, limit))
  {
    hide SplitLines, Greedy;
    assert line + [] == line && [] + line == line;
    SplitRun(line, [], []);
    SplitEnd(line);
    if line == [] {
      GreedyNone(limit);
    } else {
      assert [line][1..] == [] && WrapLines([], limit) == [];
      assert TrimAll(Greedy(line, limit)) + [] == TrimAll(Greedy(line, limit));
    }
  }

  /** One line is cut into pieces that fit, and shown without the white space at their ends. */
  lemma {:induction false} WrappedLine(line: string, limit: nat)
    requires '\n' !in line && limit >= 2
    ensures var shown, pieces := WrapText(line, limit), Greedy(line, limit);
            && |shown| == |pieces| && Fits(pieces, line, limit) && NoneEmpty(pieces)
            && (forall i | 0 <= i < |shown| ::
                  && shown[i] <= pieces[i] && Blank(pieces[i][|shown[i]|..])
                  && (shown[i] != [] ==> !IsSpace(shown[i][|shown[i]| - 1])))
  {
    hide Greedy, SplitLines, IsSpace, Blank, TrimEnd, WrapText;
    GreedyLaw(line, limit);
    WrapsAlone(line, limit);
    var pieces := Greedy(line, limit);
    forall i | 0 <= i < |pieces|
      ensures TrimEnd(pieces[i]) <= pieces[i] && Blank(pieces[i][|TrimEnd(pieces[i])|..])
      ensures TrimEnd(pieces[i]) != [] ==> !IsSpace(TrimEnd(pieces[i])[|TrimEnd(pieces[i])| - 1])
    {
      TrimIsTail(pieces[i]);
    }
  }

  /** `parts` is a way to cut `s` into pieces that fit. */
  ghost predicate Fits(parts: seq<string>, s: string, limit: nat) {
    Concat(parts) == s && AllWithin(parts, limit)
  }

  /** Greedy needs no more pieces for a suffix than any cut of the whole has. */
  lemma {:induction false} GreedyStaysAhead(parts: seq<string>, s: string, u: string, limit: nat)
    requires limit >= 2 && Fits(parts, s, limit) && |u| <= |s| && u == s[|s| - |u|..]
    ensures |Greedy(u, limit)| <= |parts|
    decreases |parts|
  {
    if u != [] {
      var p, rest := parts[0], Concat(parts[1..]);
      assert s == p + rest;
      assert Fits(parts[1..], rest, limit) by {
        forall i | 0 <= i < |parts[1..]| ensures Width(parts[1..][i]) <= limit { assert parts[1..][i] == parts[i + 1]; }
      }
      if |u| <= |rest| {
        assert u == rest[|rest| - |u|..];
        GreedyStaysAhead(parts[1..], rest, u, limit);
      } else {
        var n := |u| - |rest|;
        var q := p[|p| - n..];
        assert u == q + rest && u[..n] == q;
        assert p == p[..|p| - n] + q;
        WidthConcat(p[..|p| - n], q);
        TakeLaw(u, limit);
        var k := Take(u, limit);
        assert k >= n;
        assert u[k..] == rest[|rest| - |u[k..]|..];
        GreedyStaysAhead(parts[1..], rest, u[k..], limit);
      }
    }
  }

  /** Wrapping uses the fewest pieces that any cut of the line within the width can. */
  lemma {:induction false} GreedyIsOptimal(s: string, parts: seq<string>, limit: nat)
    requires limit >= 2 && Fits(parts, s, limit)
    ensures |Greedy(s, limit)| <= |parts| && Fits(Greedy(s, limit), s, limit)
  {
    GreedyLaw(s, limit);
    GreedyStaysAhead(parts, s, s, limit);
  }

  /** The pieces the loop still produces when it holds `current` and `rest` is left to read. */
  function Pieces(current: string, width: nat, rest: string, limit: nat): seq<string>
    decreases |rest|
  {
    if rest == [] then (if current == [] then [] else [current])
    else if width + CharWidth(rest[0]) > limit && current != [] then
      [current] + Pieces([rest[0]], CharWidth(rest[0]), rest[1..], limit)
    else Pieces(current + [rest[0]], width + CharWidth(rest[0]), rest[1..], limit)
  }

  /** Greedy wrapping of `rest`, by its first character. */
  lemma {:induction false} GreedyStep(rest: string, limit: nat)
    requires rest != []
    ensures var m := More(rest[1..], CharWidth(rest[0]), limit);
      Greedy(rest, limit) == [[rest[0]] + rest[1..][..m]] + Greedy(rest[1..][m..], limit)
  {
    var m := More(rest[1..], CharWidth(rest[0]), limit);
    assert rest == [rest[0]] + rest[1..];
    assert rest[..1 + m] == [rest[0]] + rest[1..][..m] && rest[1 + m..] == rest[1..][m..];
  }

  /** A started piece takes all that still fits, and greedy wrapping goes on behind it. */
  lemma {:induction false} PiecesAreGreedy(current: string, width: nat, rest: string, limit: nat)
    requires current != []
    ensures Pieces(current, width, rest, limit)
         == [current + rest[..More(rest, width, limit)]] + Greedy(rest[More(rest, width, limit)..], limit)
    decreases |rest|
  {
    hide Greedy;
    if rest == [] {
      assert current + [] == current && Greedy([], limit) == [] by { GreedyNone(limit); }
    } else if width + CharWidth(rest[0]) > limit {
      PiecesAreGreedy([rest[0]], CharWidth(rest[0]), rest[1..], limit);
      GreedyStep(rest, limit);
      assert current + rest[..0] == current && rest[0..] == rest;
    } else {
      PiecesAreGreedy(current + [rest[0]], width + CharWidth(rest[0]), rest[1..], limit);
      MoreStep(current, width, rest, limit);
    }
  }

  lemma {:induction false} GreedyNone(limit: nat)
    ensures Greedy([], limit) == []
  {
  }

  lemma {:induction false} MoreStep(current: string, width: nat, rest: string, limit: nat)
    requires rest != [] && width + CharWidth(rest[0]) <= limit
    ensures var m, k := More(rest, width, limit), More(rest[1..], width + CharWidth(rest[0]), limit);
      current + rest[..m] == current + [rest[0]] + rest[1..][..k] && rest[m..] == rest[1..][k..]
  {
    assert rest == [rest[0]] + rest[1..];
  }

  /** The whole loop over one source line wraps it greedily. */
  lemma {:induction false} LoopIsGreedy(line: string, limit: nat)
    ensures Pieces([], 0, line, limit) == Greedy(line, limit)
  {
    hide Greedy;
    if line == [] {
      GreedyNone(limit);
    } else {
      assert [] + [line[0]] == [line[0]];
      PiecesAreGreedy([line[0]], CharWidth(line[0]), line[1..], limit);
      GreedyStep(line, limit);
    }
  }

  lemma {:induction false} TrimAllConcat(a: seq<string>, b: seq<string>)
    ensures TrimAll(a + b) == TrimAll(a) + TrimAll(b)
  {
  }

  /** The wrap loop over source lines and characters. */
  method PdfWrapText(text: string, limit: nat) returns (lines: seq<string>)
    ensures lines == WrapText(text, limit)
  {
    hide TrimAll, Greedy, SourceLines;
    lines := [];
    var source := SourceLines(text);
    assert source[0..] == source;
    for i := 0 to |source|
      invariant WrapText(text, limit) == lines + WrapLines(source[i..], limit)
    {
      var wrapped := WrapLine(source[i], limit);
      assert source[i..][0] == source[i] && source[i..][1..] == source[i + 1..];
      assert lines + (wrapped + WrapLines(source[i + 1..], limit)) == lines + wrapped + WrapLines(source[i + 1..], limit);
      lines := lines + wrapped;
    }
    assert lines + [] == lines;
  }

  method WrapLine(line: string, limit: nat) returns (lines: seq<string>)
    ensures lines == TrimAll(Greedy(line, limit))
  {
    hide Greedy, TrimAll, TrimEnd;
    LoopIsGreedy(line, limit);
    lines := [];
    var current: string, width: nat := [], 0;
    assert line[0..] == line && TrimAll([]) == [] by { TrimNone(); }
    for i := 0 to |line|
      invariant TrimAll(Greedy(line, limit)) == lines + TrimAll(Pieces(current, width, line[i..], limit))
    {
      var c := line[i];
      var w := CharWidth(c);
      ghost var rest := line[i..];
      assert rest[0] == c && rest[1..] == line[i + 1..];
      if width + w > limit && current != [] {
        TrimFirst(current, Pieces([c], w, rest[1..], limit));
        lines := lines + [TrimEnd(current)];
        current, width := [], 0;
        assert [] + [c] == [c];
      }
      current := current + [c];
      width := width + w;
    }
    if current != [] {
      TrimFirst(current, []);
      assert [current] + [] == [current];
      lines := lines + [TrimEnd(current)];
    }
    TrimNone();
  }

  lemma {:induction false} TrimNone()
    ensures TrimAll([]) == []
  {
  }

  lemma {:induction false} TrimFirst(piece: string, rest: seq<string>)
    ensures TrimAll([piece] + rest) == [TrimEnd(piece)] + TrimAll(rest)
  {
    TrimAllConcat([piece], rest);
    assert TrimAll([piece]) == [TrimEnd(piece)];
  }

  // ------------------------------------------------------------ pagination

  datatype Placed = Placed(text: string, y: int, height: nat)

  datatype Style = Style(height: nat, maxWidth: nat)

  const TITLE := Style(20, 58)
  const HEADING := Style(15, 76)
  const PARAGRAPH := Style(13, 100)
  const TOP: int := 544
  const BOTTOM: int := 48
  const SECTION_MIN: int := 80

  datatype Section = Section(heading: string, paragraphs: seq<string>)

  datatype Draft = Draft(title: string, sections: seq<Section>)

  type Page = seq<Placed>

  /** The lines on all pages, in order. */
  function PageTexts(pages: seq<Page>): seq<string> {
    if pages == [] then [] else PageTexts(pages[..|pages| - 1]) + Texts(pages[|pages| - 1])
  }

  function Texts(page: Page): seq<string> {
    seq(|page|, i requires 0 <= i < |page| => page[i].text)
  }

  /** All lines of a draft, in reading order. */
  function DraftLines(draft: Draft): seq<string> {
    WrapText(draft.title, TITLE.maxWidth) + SectionLines(draft.sections)
  }

  function SectionLines(sections: seq<Section>): seq<string> {
    if sections == [] then []
    else
      var last := sections[|sections| - 1];
      SectionLines(sections[..|sections| - 1])
      + (WrapText(last.heading, HEADING.maxWidth) + ParagraphLines(last.paragraphs))
  }

  function ParagraphLines(paragraphs: seq<string>): seq<string> {
    if paragraphs == [] then []
    else ParagraphLines(paragraphs[..|paragraphs| - 1]) + WrapText(paragraphs[|paragraphs| - 1], PARAGRAPH.maxWidth)
  }

  ghost predicate Visible(text: string) {
    exists i :: 0 <= i < |text| && !IsSpace(text[i])
  }

  /** What validation of a draft guarantees here: nothing that is laid out is blank. */
  ghost predicate ValidDraft(draft: Draft) {
    Visible(draft.title) && draft.sections != [] && forall s | s in draft.sections :: ValidSection(s)
  }

  ghost predicate ValidSection(section: Section) {
    Visible(section.heading) && section.paragraphs != [] && forall p | p in section.paragraphs :: Visible(p)
  }

  lemma {:induction false} SplitKeepsVisible(text: string, line: string)
    requires Visible(text) || Visible(line)
    ensures exists i :: 0 <= i < |SplitLines(text, line)| && SplitLines(text, line)[i] != []
    decreases |text|
  {
    var lines := SplitLines(text, line);
    if text == [] {
      assert lines[0] == line;
    } else if text[0] == '\n' {
      if Visible(line) {
        var i :| 0 <= i < |line| && !IsSpace(line[i]);
        assert lines[0] == StripCr(line) != [];
      } else {
        var i :| 0 <= i < |text| && !IsSpace(text[i]);
        assert text[1..][i - 1] == text[i];
        SplitKeepsVisible(text[1..], []);
        var j :| 0 <= j < |SplitLines(text[1..], [])| && SplitLines(text[1..], [])[j] != [];
        assert lines[j + 1] == SplitLines(text[1..], [])[j];
      }
    } else {
      var line' := line + [text[0]];
      if Visible(line) {
        var i :| 0 <= i < |line| && !IsSpace(line[i]);
        assert line'[i] == line[i];
      } else {
        var i :| 0 <= i < |text| && !IsSpace(text[i]);
        if i == 0 { assert line'[|line|] == text[0]; } else { assert text[1..][i - 1] == text[i]; }
      }
      SplitKeepsVisible(text[1..], line');
    }
  }

  lemma {:induction false} WrapNotEmpty(lines: seq<string>, limit: nat, i: nat)
    requires i < |lines| && lines[i] != []
    ensures WrapLines(lines, limit) != []
  {
    if i > 0 {
      assert lines[1..][i - 1] == lines[i];
      WrapNotEmpty(lines[1..], limit, i - 1);
    }
  }

  lemma {:induction false} VisibleWraps(text: string, limit: nat)
    requires Visible(text)
    ensures WrapText(text, limit) != []
  {
    SplitKeepsVisible(text, []);
    var i :| 0 <= i < |SourceLines(text)| && SourceLines(text)[i] != [];
    WrapNotEmpty(SourceLines(text), limit, i);
  }

  /** The pages so far, with `y` where the next line would go. */
  datatype Layout = Layout(pages: seq<Page>, y: int)

  function Break(l: Layout, least: int): Layout {
    if l.y < least then Layout(l.pages + [[]], TOP) else l
  }

  function Gap(l: Layout, size: nat): Layout {
    l.(y := l.y - size)
  }

  function AddLine(l: Layout, text: string, height: nat): (m: Layout)
    requires l.pages != []
    ensures m.pages != []
  {
    var b := Break(l, BOTTOM);
    var last := |b.pages| - 1;
    Layout(b.pages[..last] + [b.pages[last] + [Placed(text, b.y, height)]], b.y - height)
  }

  function AddLines(l: Layout, lines: seq<string>, height: nat): (m: Layout)
    requires l.pages != []
    ensures m.pages != []
  {
    if lines == [] then l
    else AddLine(AddLines(l, lines[..|lines| - 1], height), lines[|lines| - 1], height)
  }

  function AddText(l: Layout, text: string, style: Style): (m: Layout)
    requires l.pages != []
    ensures m.pages != []
  {
    AddLines(l, WrapText(text, style.maxWidth), style.height)
  }

  function AddParagraphs(l: Layout, paragraphs: seq<string>): (m: Layout)
    requires l.pages != []
    ensures m.pages != []
  {
    if paragraphs == [] then l
    else Gap(AddText(AddParagraphs(l, paragraphs[..|paragraphs| - 1]), paragraphs[|paragraphs| - 1], PARAGRAPH), 7)
  }

  function AddSection(l: Layout, section: Section): (m: Layout)
    requires l.pages != []
    ensures m.pages != []
  {
    Gap(AddParagraphs(Gap(AddText(Break(l, SECTION_MIN), section.heading, HEADING), 4), section.paragraphs), 6)
  }

  function AddSections(l: Layout, sections: seq<Section>): (m: Layout)
    requires l.pages != []
    ensures m.pages != []
  {
    if sections == [] then l
    else AddSection(AddSections(l, sections[..|sections| - 1]), sections[|sections| - 1])
  }

  function LaidOut(draft: Draft): (m: Layout)
    ensures m.pages != []
  {
    AddSections(Gap(AddText(Layout([[]], TOP), draft.title, TITLE), 16), draft.sections)
  }

  lemma {:induction false} NoLines(l: Layout, height: nat)
    requires l.pages != []
    ensures AddLines(l, [], height) == l
  {
  }

  lemma {:induction false} NextLine(l: Layout, lines: seq<string>, i: nat, height: nat)
    requires l.pages != [] && i < |lines|
    ensures AddLines(l, lines[..i + 1], height) == AddLine(AddLines(l, lines[..i], height), lines[i], height)
  {
    assert lines[..i + 1][..i] == lines[..i];
  }

  method PushPdfText(pages: seq<Page>, y: int, text: string, style: Style) returns (pages': seq<Page>, y': int)
    requires pages != []
    ensures Layout(pages', y') == AddText(Layout(pages, y), text, style)
  {
    hide WrapText, AddLines;
    var lines := PdfWrapText(text, style.maxWidth);
    pages', y' := pages, y;
    assert lines[..0] == [];
    NoLines(Layout(pages, y), style.height);
    for i := 0 to |lines|
      invariant pages' != []
      invariant Layout(pages', y') == AddLines(Layout(pages, y), lines[..i], style.height)
    {
      NextLine(Layout(pages, y), lines, i, style.height);
      if y' < BOTTOM {
        pages' := pages' + [[]];
        y' := TOP;
      }
      var last := |pages'| - 1;
      pages' := pages'[..last] + [pages'[last] + [Placed(lines[i], y', style.height)]];
      y' := y' - style.height;
    }
    assert lines[..|lines|] == lines;
  }

  /** The layout loop. */
  method LayOut(draft: Draft) returns (pages: seq<Page>)
    ensures pages == LaidOut(draft).pages
    ensures ValidDraft(draft) ==> PageTexts(pages) == DraftLines(draft) && WellLaid(pages)
  {
    hide AddText, DraftLines, WellLaid, PageTexts;
    var y: int;
    pages, y := [[]], TOP;
    pages, y := PushPdfText(pages, y, draft.title, TITLE);
    y := y - 16;
    ghost var start := Layout(pages, y);
    for i := 0 to |draft.sections|
      invariant pages != [] && Layout(pages, y) == AddSections(start, draft.sections[..i])
    {
      var section := draft.sections[i];
      assert draft.sections[..i + 1][..i] == draft.sections[..i];
      if y < SECTION_MIN {
        pages := pages + [[]];
        y := TOP;
      }
      pages, y := PushPdfText(pages, y, section.heading, HEADING);
      y := y - 4;
      ghost var before := Layout(pages, y);
      for j := 0 to |section.paragraphs|
        invariant pages != [] && Layout(pages, y) == AddParagraphs(before, section.paragraphs[..j])
      {
        assert section.paragraphs[..j + 1][..j] == section.paragraphs[..j];
        pages, y := PushPdfText(pages, y, section.paragraphs[j], PARAGRAPH);
        y := y - 7;
      }
      assert section.paragraphs[..|section.paragraphs|] == section.paragraphs;
      y := y - 6;
    }
    assert draft.sections[..|draft.sections|] == draft.sections;
    if ValidDraft(draft) {
      LayoutLaw(draft);
    }
  }

  // ------------------------------------------------------- layout properties

  /** Every line within the margins, and clear of the line above it. */
  ghost predicate PageOk(page: Page) {
    && (forall i | 0 <= i < |page| :: BOTTOM <= page[i].y <= TOP)
    && (forall i | 0 < i < |page| :: page[i - 1].y - page[i].y >= page[i - 1].height)
  }

  /** A page that is left has no room for a section: less than 48 mm, with the largest gap. */
  ghost predicate Full(page: Page) {
    page != [] && page[|page| - 1].y - page[|page| - 1].height < SECTION_MIN + 16
  }

  ghost predicate AllOk(pages: seq<Page>) {
    forall p | 0 <= p < |pages| :: PageOk(pages[p])
  }

  ghost predicate FullBefore(pages: seq<Page>) {
    forall p | 0 <= p < |pages| - 1 :: Full(pages[p])
  }

  /** Every line in place, no page empty, and a page left only when it is full. */
  ghost predicate WellLaid(pages: seq<Page>) {
    pages != [] && AllOk(pages) && FullBefore(pages) && pages[|pages| - 1] != []
  }

  /** The next position is below the last line, by no more than its height and `gap`. */
  ghost predicate Near(page: Page, y: int, gap: nat) {
    if page == [] then y == TOP
    else
      var under := page[|page| - 1].y - page[|page| - 1].height;
      under - gap <= y <= under
  }

  ghost predicate Laid(l: Layout, gap: nat) {
    l.pages != [] && AllOk(l.pages) && FullBefore(l.pages) && Near(l.pages[|l.pages| - 1], l.y, gap) && l.y <= TOP
  }

  lemma {:induction false} BreakLaw(l: Layout, least: int)
    requires Laid(l, 16) && least <= SECTION_MIN
    ensures Laid(Break(l, least), 16) && Break(l, least).y >= least
    ensures PageTexts(Break(l, least).pages) == PageTexts(l.pages)
  {
    hide PageOk;
    if l.y < least {
      var n := |l.pages|;
      var all := l.pages + [[]];
      assert all[..n] == l.pages && all[n] == [];
      assert Texts([]) == [];
      EmptyPage();
      assert Full(l.pages[n - 1]);
      forall p | 0 <= p < n ensures Full(all[p]) && PageOk(all[p]) {
        assert all[p] == l.pages[p];
      }
    }
  }

  lemma {:induction false} EmptyPage()
    ensures PageOk([])
  {
  }

  lemma {:induction false} PageGrows(page: Page, text: string, y: int, height: nat, gap: nat)
    requires PageOk(page) && Near(page, y, gap) && BOTTOM <= y <= TOP
    ensures PageOk(page + [Placed(text, y, height)])
    ensures Texts(page + [Placed(text, y, height)]) == Texts(page) + [text]
  {
  }

  /** Only the last page changes. */
  lemma {:induction false} LastPage(pages: seq<Page>, page: Page)
    requires pages != [] && AllOk(pages) && FullBefore(pages) && PageOk(page)
    ensures var all := pages[..|pages| - 1] + [page]; AllOk(all) && FullBefore(all)
  {
    hide PageOk, Full;
    var n := |pages| - 1;
    var all := pages[..n] + [page];
    forall p | 0 <= p < n ensures all[p] == pages[p] && PageOk(all[p]) && Full(all[p]) { }
    assert all[n] == page;
  }

  lemma {:induction false} LastPageTexts(pages: seq<Page>, page: Page, text: string)
    requires pages != [] && Texts(page) == Texts(pages[|pages| - 1]) + [text]
    ensures PageTexts(pages[..|pages| - 1] + [page]) == PageTexts(pages) + [text]
  {
    hide Texts;
    var n := |pages| - 1;
    var all := pages[..n] + [page];
    assert all[..n] == pages[..n] && all[n] == page && |all| == n + 1;
  }

  lemma {:induction false} NearBelow(page: Page, text: string, y: int, height: nat)
    ensures Near(page + [Placed(text, y, height)], y - height, 0)
  {
  }

  lemma {:induction false} AddLineLaw(l: Layout, text: string, height: nat)
    requires Laid(l, 16)
    ensures Laid(AddLine(l, text, height), 0) && WellLaid(AddLine(l, text, height).pages)
    ensures PageTexts(AddLine(l, text, height).pages) == PageTexts(l.pages) + [text]
  {
    hide PageOk, Texts, AllOk, FullBefore, PageTexts, Near, Break;
    BreakLaw(l, BOTTOM);
    var b := Break(l, BOTTOM);
    var n := |b.pages| - 1;
    AllOkAt(b.pages, n);
    PageGrows(b.pages[n], text, b.y, height, 16);
    NearBelow(b.pages[n], text, b.y, height);
    var page := b.pages[n] + [Placed(text, b.y, height)];
    LastPage(b.pages, page);
    LastPageTexts(b.pages, page, text);
    var all := b.pages[..n] + [page];
    assert AddLine(l, text, height) == Layout(all, b.y - height) && |all| == n + 1 && all[n] == page;
  }

  lemma {:induction false} AllOkAt(pages: seq<Page>, p: nat)
    requires AllOk(pages) && p < |pages|
    ensures PageOk(pages[p])
  {
  }

  lemma {:induction false} AddLinesLaw(l: Layout, lines: seq<string>, height: nat)
    requires Laid(l, 16)
    ensures Laid(AddLines(l, lines, height), 16)
    ensures lines != [] ==> Laid(AddLines(l, lines, height), 0) && WellLaid(AddLines(l, lines, height).pages)
    ensures PageTexts(AddLines(l, lines, height).pages) == PageTexts(l.pages) + lines
  {
    hide AllOk, FullBefore, AddLine, PageTexts;
    if lines != [] {
      var n := |lines| - 1;
      AddLinesLaw(l, lines[..n], height);
      AddLineLaw(AddLines(l, lines[..n], height), lines[n], height);
      assert lines == lines[..n] + [lines[n]];
    }
  }

  lemma {:induction false} AddTextLaw(l: Layout, text: string, style: Style, gap: nat)
    requires Laid(l, 16) && Visible(text) && gap <= 16
    ensures var m := Gap(AddText(l, text, style), gap);
      Laid(m, gap) && WellLaid(m.pages) && PageTexts(m.pages) == PageTexts(l.pages) + WrapText(text, style.maxWidth)
  {
    hide AllOk, FullBefore, AddLines, PageTexts, WrapText, Visible;
    VisibleWraps(text, style.maxWidth);
    AddLinesLaw(l, WrapText(text, style.maxWidth), style.height);
  }

  lemma {:induction false} AddParagraphsLaw(l: Layout, paragraphs: seq<string>)
    requires Laid(l, 7) && WellLaid(l.pages) && forall p | p in paragraphs :: Visible(p)
    ensures var m := AddParagraphs(l, paragraphs);
      Laid(m, 7) && WellLaid(m.pages) && PageTexts(m.pages) == PageTexts(l.pages) + ParagraphLines(paragraphs)
  {
    hide AllOk, FullBefore, AddText, PageTexts, WrapText, Visible;
    if paragraphs != [] {
      var n := |paragraphs| - 1;
      AddParagraphsLaw(l, paragraphs[..n]);
      AddTextLaw(AddParagraphs(l, paragraphs[..n]), paragraphs[n], PARAGRAPH, 7);
    }
  }

  lemma {:induction false} AddSectionLaw(l: Layout, section: Section)
    requires Laid(l, 16) && Visible(section.heading) && forall p | p in section.paragraphs :: Visible(p)
    ensures var m := AddSection(l, section);
      && Laid(m, 16) && WellLaid(m.pages)
      && PageTexts(m.pages)
      == PageTexts(l.pages) + (WrapText(section.heading, HEADING.maxWidth) + ParagraphLines(section.paragraphs))
  {
    hide AllOk, FullBefore, AddText, AddParagraphs, PageTexts, WrapText, Visible, Break;
    BreakLaw(l, SECTION_MIN);
    var b := Break(l, SECTION_MIN);
    AddTextLaw(b, section.heading, HEADING, 4);
    AddParagraphsLaw(Gap(AddText(b, section.heading, HEADING), 4), section.paragraphs);
  }

  lemma {:induction false} AddSectionsLaw(l: Layout, sections: seq<Section>)
    requires Laid(l, 16) && WellLaid(l.pages) && forall s | s in sections :: ValidSection(s)
    ensures var m := AddSections(l, sections);
      Laid(m, 16) && WellLaid(m.pages) && PageTexts(m.pages) == PageTexts(l.pages) + SectionLines(sections)
  {
    hide AllOk, FullBefore, Laid, AddSection, PageTexts, WrapText, Visible, ParagraphLines;
    if sections != [] {
      var n := |sections| - 1;
      AddSectionsLaw(l, sections[..n]);
      assert ValidSection(sections[n]);
      AddSectionLaw(AddSections(l, sections[..n]), sections[n]);
    }
  }

  /** Layout loses and reorders no line, keeps every line within the margins and clear of its
      neighbours, leaves no page empty, and leaves a page only when it is full. */
  lemma {:induction false} LayoutLaw(draft: Draft)
    requires ValidDraft(draft)
    ensures WellLaid(LaidOut(draft).pages)
    ensures PageTexts(LaidOut(draft).pages) == DraftLines(draft)
  {
    hide AllOk, FullBefore, AddText, PageTexts, WrapText, Visible, SectionLines;
    var start := Layout([[]], TOP);
    FirstPage();
    AddTextLaw(start, draft.title, TITLE, 16);
    AddSectionsLaw(Gap(AddText(start, draft.title, TITLE), 16), draft.sections);
  }

  lemma {:induction false} FirstPage()
    ensures PageTexts([[]]) == [] && Laid(Layout([[]], TOP), 16)
  {
    var pages: seq<Page> := [[]];
    assert pages[..0] == [] && Texts([]) == [];
  }
}
