/** Where every line of a document comes to stand: below the one before it, by that one's height and the gap
    between the two, or at the top of a new page if that would be too low. */
module PdfFlow {
  import opened PdfLayout

  /** A line with its height, the gap above it and the lowest position it may be put at. */
  datatype Cell = Cell(text: string, height: nat, gap: nat, least: int)

  /** The lines of one text: the gap and the room asked for are those of its first line. */
  function TextCells(lines: seq<string>, height: nat, gap: nat, least: int): (cells: seq<Cell>)
    ensures |cells| == |lines|
  {
    seq(|lines|, i requires 0 <= i < |lines| => if i == 0 then Cell(lines[i], height, gap, least) else Cell(lines[i], height, 0, 48))
  }

  /** 2 mm under a heading, 3.5 mm between paragraphs. */
  function ParagraphCells(paragraphs: seq<string>): seq<Cell> {
    if paragraphs == [] then []
    else
      var n := |paragraphs| - 1;
      ParagraphCells(paragraphs[..n]) + TextCells(WrapText(paragraphs[n], 100), 13, if n == 0 then 4 else 7, 48)
  }

  /** A heading needs 40 mm, and stands 6.5 mm under the section before it, or 8 mm under the title. */
  function SectionCells(sections: seq<Section>): seq<Cell> {
    if sections == [] then []
    else
      var n := |sections| - 1;
      SectionCells(sections[..n])
      + TextCells(WrapText(sections[n].heading, 76), 15, if n == 0 then 16 else 13, 80) + ParagraphCells(sections[n].paragraphs)
  }

  function DraftCells(draft: Draft): seq<Cell> {
    TextCells(WrapText(draft.title, 58), 20, 0, 48) + SectionCells(draft.sections)
  }

  // ------------------------------------------------------- cell by cell

  /** One cell below what is there. */
  function Place(l: Layout, c: Cell): (m: Layout)
    requires l.pages != []
    ensures m.pages != []
  {
    AddLine(Break(Gap(l, c.gap), c.least), c.text, c.height)
  }

  function PlaceAll(l: Layout, cells: seq<Cell>): (m: Layout)
    requires l.pages != []
    ensures m.pages != []
  {
    if cells == [] then l else Place(PlaceAll(l, cells[..|cells| - 1]), cells[|cells| - 1])
  }

  lemma {:induction false} PlaceConcat(l: Layout, a: seq<Cell>, b: seq<Cell>)
    requires l.pages != []
    ensures PlaceAll(l, a + b) == PlaceAll(PlaceAll(l, a), b)
    decreases |b|
  {
    hide Place;
    if b == [] {
      assert a + b == a;
    } else {
      var n := |b| - 1;
      PlaceConcat(l, a, b[..n]);
      assert (a + b)[..|a + b| - 1] == a + b[..n];
    }
  }

  /** The lines of a text, after a gap and a page break if there is little room, are its cells. */
  lemma {:induction false} TextIsPlaced(l: Layout, lines: seq<string>, height: nat, gap: nat, least: int)
    requires l.pages != [] && lines != []
    ensures AddLines(Break(Gap(l, gap), least), lines, height) == PlaceAll(l, TextCells(lines, height, gap, least))
    decreases |lines|
  {
    hide Break, AddLine;
    var n := |lines| - 1;
    var cells := TextCells(lines, height, gap, least);
    BreakHasPages(Gap(l, gap), least);
    assert cells[..n] == TextCells(lines[..n], height, gap, least);
    if n == 0 {
      assert lines[..0] == [] && AddLines(Break(Gap(l, gap), least), lines[..0], height) == Break(Gap(l, gap), least);
      assert PlaceAll(l, cells[..0]) == l;
    } else {
      TextIsPlaced(l, lines[..n], height, gap, least);
      NoGap(PlaceAll(l, cells[..n]), lines[n], height);
    }
  }

  lemma {:induction false} BreakHasPages(l: Layout, least: int)
    requires l.pages != []
    ensures Break(l, least).pages != [] && Gap(l, 0) == l
  {
  }

  /** Inside a text there is no gap, and the line breaks the page itself. */
  lemma {:induction false} NoGap(l: Layout, text: string, height: nat)
    requires l.pages != []
    ensures Place(l, Cell(text, height, 0, 48)) == AddLine(l, text, height)
  {
  }

  lemma {:induction false} ParagraphsArePlaced(l: Layout, paragraphs: seq<string>)
    requires l.pages != [] && paragraphs != [] && forall p | p in paragraphs :: Visible(p)
    ensures AddParagraphs(Gap(l, 4), paragraphs) == Gap(PlaceAll(l, ParagraphCells(paragraphs)), 7)
    decreases |paragraphs|
  {
    hide Break, AddLines, WrapText, Visible, PlaceAll;
    var n := |paragraphs| - 1;
    var lines := WrapText(paragraphs[n], 100);
    VisibleWraps(paragraphs[n], 100);
    if n == 0 {
      NothingPlaced(l);
      assert paragraphs[..0] == [] && ParagraphCells(paragraphs[..0]) == [] && AddParagraphs(Gap(l, 4), []) == Gap(l, 4);
      ParagraphText(l, lines, 4);
      assert ParagraphCells(paragraphs) == TextCells(lines, 13, 4, 48);
    } else {
      ParagraphsArePlaced(l, paragraphs[..n]);
      var before := ParagraphCells(paragraphs[..n]);
      ParagraphText(PlaceAll(l, before), lines, 7);
      PlaceConcat(l, before, TextCells(lines, 13, 7, 48));
    }
  }

  lemma {:induction false} NothingPlaced(l: Layout)
    requires l.pages != []
    ensures PlaceAll(l, []) == l
  {
  }

  /** Only a heading asks for more room than its own first line does. */
  lemma {:induction false} ParagraphText(l: Layout, lines: seq<string>, gap: nat)
    requires l.pages != [] && lines != []
    ensures AddLines(Gap(l, gap), lines, 13) == PlaceAll(l, TextCells(lines, 13, gap, 48))
  {
    hide AddLine, PlaceAll;
    TextIsPlaced(l, lines, 13, gap, 48);
    BreakTwice(Gap(l, gap), lines, 13);
  }

  lemma {:induction false} BreakTwice(l: Layout, lines: seq<string>, height: nat)
    requires l.pages != [] && lines != []
    ensures AddLines(Break(l, 48), lines, height) == AddLines(l, lines, height)
    decreases |lines|
  {
    var n := |lines| - 1;
    if n == 0 {
      assert lines[..0] == [];
      assert AddLine(Break(l, 48), lines[0], height) == AddLine(l, lines[0], height);
    } else {
      BreakTwice(l, lines[..n], height);
    }
  }

  lemma {:induction false} SectionsArePlaced(l: Layout, sections: seq<Section>)
    requires l.pages != [] && sections != [] && forall s | s in sections :: ValidSection(s)
    ensures AddSections(Gap(l, 16), sections) == Gap(PlaceAll(l, SectionCells(sections)), 13)
    decreases |sections|
  {
    hide Break, AddLines, WrapText, Visible, PlaceAll, AddSection, ParagraphCells;
    var n := |sections| - 1;
    var s := sections[n];
    assert ValidSection(s);
    if n == 0 {
      NothingPlaced(l);
      assert sections[..0] == [] && SectionCells(sections[..0]) == [] && AddSections(Gap(l, 16), []) == Gap(l, 16);
      SectionIsPlaced(l, s, 16);
      assert SectionCells(sections) == TextCells(WrapText(s.heading, 76), 15, 16, 80) + ParagraphCells(s.paragraphs);
    } else {
      SectionsArePlaced(l, sections[..n]);
      var before := SectionCells(sections[..n]);
      SectionIsPlaced(PlaceAll(l, before), s, 13);
      var cells := TextCells(WrapText(s.heading, 76), 15, 13, 80) + ParagraphCells(s.paragraphs);
      PlaceConcat(l, before, cells);
      assert before + cells == before + TextCells(WrapText(s.heading, 76), 15, 13, 80) + ParagraphCells(s.paragraphs);
    }
  }

  lemma {:induction false} SectionIsPlaced(l: Layout, s: Section, gap: nat)
    requires l.pages != [] && ValidSection(s)
    ensures AddSection(Gap(l, gap), s)
         == Gap(PlaceAll(l, TextCells(WrapText(s.heading, 76), 15, gap, 80) + ParagraphCells(s.paragraphs)), 13)
  {
    hide Break, AddLines, WrapText, Visible, PlaceAll, AddParagraphs, ParagraphCells;
    VisibleWraps(s.heading, 76);
    var heading := TextCells(WrapText(s.heading, 76), 15, gap, 80);
    TextIsPlaced(l, WrapText(s.heading, 76), 15, gap, 80);
    ParagraphsArePlaced(PlaceAll(l, heading), s.paragraphs);
    PlaceConcat(l, heading, ParagraphCells(s.paragraphs));
  }

  // ------------------------------------------------------------ positions

  function AllPlaced(pages: seq<Page>): seq<Placed> {
    if pages == [] then [] else AllPlaced(pages[..|pages| - 1]) + pages[|pages| - 1]
  }

  /** Where a cell goes under the line before it. */
  function Under(above: Placed, c: Cell): int {
    above.y - above.height - c.gap
  }

  /** A cell does not fit under the line before it, or is the first. */
  ghost predicate GoesOver(all: seq<Placed>, cells: seq<Cell>, i: nat)
    requires i < |cells| && i <= |all|
  {
    i == 0 || Under(all[i - 1], cells[i]) < cells[i].least
  }

  /** Line `i` is that cell, at the top of a page or under the line before it. */
  ghost predicate StandsRight(all: seq<Placed>, cells: seq<Cell>, i: nat)
    requires i < |all| && i < |cells|
  {
    all[i] == Placed(cells[i].text, if GoesOver(all, cells, i) then 544 else Under(all[i - 1], cells[i]), cells[i].height)
  }

  /** The cells in order: the first at the top of the first page, every other one under the one before it on the
      same page if there is room, and otherwise at the top of the next page, at 272 mm. */
  ghost predicate Flows(pages: seq<Page>, cells: seq<Cell>) {
    var all := AllPlaced(pages);
    && |all| == |cells|
    && (forall i: nat | i < |cells| :: StandsRight(all, cells, i))
    && (forall i: nat | i < |cells| :: StartsPage(pages, i) <==> GoesOver(all, cells, i))
    && (forall p | 0 <= p < |pages| :: pages[p] != [])
  }

  /** Line `i` of the document is the first of a page. */
  ghost predicate StartsPage(pages: seq<Page>, i: nat) {
    exists p :: 0 <= p < |pages| && |AllPlaced(pages[..p])| == i
  }

  lemma {:induction false} NewPage(pages: seq<Page>, line: Placed)
    ensures var pages' := pages + [[line]];
            && AllPlaced(pages') == AllPlaced(pages) + [line]
            && (forall i: nat :: StartsPage(pages', i) <==> StartsPage(pages, i) || i == |AllPlaced(pages)|)
  {
    hide AllPlaced;
    var pages' := pages + [[line]];
    PagesSnoc(pages, [line]);
    assert pages'[..|pages|] == pages;
    forall i: nat ensures StartsPage(pages', i) <==> StartsPage(pages, i) || i == |AllPlaced(pages)| {
      if StartsPage(pages, i) {
        var p :| 0 <= p < |pages| && |AllPlaced(pages[..p])| == i;
        assert pages'[..p] == pages[..p];
      }
      if StartsPage(pages', i) {
        var p :| 0 <= p < |pages'| && |AllPlaced(pages'[..p])| == i;
        if p < |pages| { assert pages'[..p] == pages[..p]; }
      }
    }
  }

  lemma {:induction false} PagesSnoc(pages: seq<Page>, page: Page)
    ensures AllPlaced(pages + [page]) == AllPlaced(pages) + page
  {
    assert (pages + [page])[..|pages|] == pages;
  }

  lemma {:induction false} SamePage(pages: seq<Page>, line: Placed)
    requires pages != [] && pages[|pages| - 1] != []
    ensures var pages' := pages[..|pages| - 1] + [pages[|pages| - 1] + [line]];
            && AllPlaced(pages') == AllPlaced(pages) + [line]
            && (forall i: nat :: StartsPage(pages', i) <==> StartsPage(pages, i))
            && (forall i: nat :: StartsPage(pages, i) ==> i < |AllPlaced(pages)|)
  {
    hide AllPlaced;
    var n := |pages| - 1;
    var page := pages[n] + [line];
    var pages' := pages[..n] + [page];
    PagesSnoc(pages[..n], page);
    PagesSnoc(pages[..n], pages[n]);
    assert pages == pages[..n] + [pages[n]];
    assert AllPlaced(pages[..n]) + page == AllPlaced(pages[..n]) + pages[n] + [line];
    forall i: nat ensures StartsPage(pages', i) <==> StartsPage(pages, i) {
      forall p | 0 <= p < |pages| ensures pages'[..p] == pages[..p] { }
      if StartsPage(pages, i) { var p :| 0 <= p < |pages| && |AllPlaced(pages[..p])| == i; assert pages'[..p] == pages[..p]; }
      if StartsPage(pages', i) { var p :| 0 <= p < |pages'| && |AllPlaced(pages'[..p])| == i; assert pages'[..p] == pages[..p]; }
    }
    forall p | 0 <= p < |pages| ensures |AllPlaced(pages[..p])| < |AllPlaced(pages)| { ShorterPrefix(pages, p); }
  }

  lemma {:induction false} ShorterPrefix(pages: seq<Page>, p: nat)
    requires p < |pages| && pages[|pages| - 1] != []
    ensures |AllPlaced(pages[..p])| < |AllPlaced(pages)|
  {
    var n := |pages| - 1;
    PrefixLength(pages[..n], p);
    assert pages[..n][..p] == pages[..p];
  }

  lemma {:induction false} PrefixLength(pages: seq<Page>, p: nat)
    requires p <= |pages|
    ensures |AllPlaced(pages[..p])| <= |AllPlaced(pages)|
    decreases |pages|
  {
    if p < |pages| {
      var n := |pages| - 1;
      PrefixLength(pages[..n], p);
      assert pages[..n][..p] == pages[..p];
    } else {
      assert pages[..p] == pages;
    }
  }

  /** The layout ends right under its last line. */
  ghost predicate EndsAt(l: Layout, cells: seq<Cell>) {
    && Flows(l.pages, cells) && l.pages != [] && cells != []
    && var all := AllPlaced(l.pages); all != [] && l.y == all[|all| - 1].y - all[|all| - 1].height
  }

  lemma {:induction false} FlowsSnoc(pages: seq<Page>, pages': seq<Page>, cells: seq<Cell>, c: Cell, line: Placed)
    requires Flows(pages, cells) && AllPlaced(pages') == AllPlaced(pages) + [line] && forall p | 0 <= p < |pages'| :: pages'[p] != []
    requires StandsRight(AllPlaced(pages'), cells + [c], |cells|)
    requires forall i: nat :: StartsPage(pages, i) ==> i < |cells|
    requires forall i: nat :: StartsPage(pages', i) <==> StartsPage(pages, i) || (i == |cells| && GoesOver(AllPlaced(pages'), cells + [c], i))
    ensures Flows(pages', cells + [c])
  {
    hide AllPlaced, StartsPage;
    var all, all' := AllPlaced(pages), AllPlaced(pages');
    forall i: nat | i < |cells|
      ensures StandsRight(all', cells + [c], i) && (GoesOver(all', cells + [c], i) <==> GoesOver(all, cells, i))
    {
      assert StandsRight(all, cells, i);
    }
  }

  lemma {:induction false} PlaceFlows(l: Layout, cells: seq<Cell>, c: Cell)
    requires EndsAt(l, cells) && 48 <= c.least <= 80
    ensures EndsAt(Place(l, c), cells + [c])
  {
    hide AllPlaced, StartsPage, Flows;
    var pages, y := l.pages, l.y - c.gap;
    var n := |pages| - 1;
    FlowsLength(pages, cells);
    SamePage(pages, Placed(c.text, y, c.height));
    if y < c.least {
      var line := Placed(c.text, 544, c.height);
      NewPage(pages, line);
      assert (pages + [[]])[..n + 1] == pages && [] + [line] == [line];
      assert Place(l, c) == Layout(pages + [[line]], line.y - c.height);
      FlowsSnoc(pages, pages + [[line]], cells, c, line);
    } else {
      var line := Placed(c.text, y, c.height);
      var pages' := pages[..n] + [pages[n] + [line]];
      assert Place(l, c) == Layout(pages', line.y - c.height);
      FlowsSnoc(pages, pages', cells, c, line);
    }
  }

  lemma {:induction false} FlowsLength(pages: seq<Page>, cells: seq<Cell>)
    requires Flows(pages, cells)
    ensures |AllPlaced(pages)| == |cells| && forall p | 0 <= p < |pages| :: pages[p] != []
  {
  }

  ghost predicate Roomy(cells: seq<Cell>) {
    forall i | 0 <= i < |cells| :: 48 <= cells[i].least <= 80
  }

  lemma {:induction false} FirstFlows(c: Cell)
    requires c.gap == 0 && c.least == 48
    ensures EndsAt(Place(Layout([[]], TOP), c), [c])
  {
    hide AllPlaced, StartsPage;
    var line := Placed(c.text, TOP, c.height);
    var blank: seq<Page> := [[]];
    assert blank[..0] == [] && [] + [line] == [line];
    assert Place(Layout(blank, TOP), c).pages == [[line]];
    OnePage(line);
  }

  lemma {:induction false} OnePage(line: Placed)
    ensures AllPlaced([[line]]) == [line] && StartsPage([[line]], 0)
  {
    var pages: seq<Page> := [[line]];
    assert pages[..0] == [] && AllPlaced([]) == [];
    assert |AllPlaced(pages[..0])| == 0;
  }

  lemma {:induction false} AllFlow(cells: seq<Cell>)
    requires cells != [] && Roomy(cells) && cells[0].gap == 0 && cells[0].least == 48
    ensures EndsAt(PlaceAll(Layout([[]], TOP), cells), cells)
    decreases |cells|
  {
    hide EndsAt, Place;
    var n := |cells| - 1;
    if n == 0 {
      FirstFlows(cells[0]);
      assert cells == [cells[0]] && cells[..0] == [];
      NothingPlaced(Layout([[]], TOP));
    } else {
      AllFlow(cells[..n]);
      PlaceFlows(PlaceAll(Layout([[]], TOP), cells[..n]), cells[..n], cells[n]);
      assert cells == cells[..n] + [cells[n]];
    }
  }

  lemma {:induction false} ParagraphCellsRoomy(paragraphs: seq<string>)
    ensures Roomy(ParagraphCells(paragraphs))
  {
    hide WrapText;
    if paragraphs != [] {
      ParagraphCellsRoomy(paragraphs[..|paragraphs| - 1]);
    }
  }

  lemma {:induction false} SectionCellsRoomy(sections: seq<Section>)
    ensures Roomy(SectionCells(sections))
  {
    hide WrapText, ParagraphCells;
    if sections != [] {
      SectionCellsRoomy(sections[..|sections| - 1]);
      ParagraphCellsRoomy(sections[|sections| - 1].paragraphs);
    }
  }

  /** The layout of a valid draft, exactly: all its lines in order, each with the height of its kind, and each
      under the one before it by that one's height and the gap between them, or on a new page, which is begun
      only when the line would come lower than 24 mm, or a heading lower than 40 mm. */
  lemma {:induction false} LayoutExactly(draft: Draft)
    requires ValidDraft(draft)
    ensures Flows(LaidOut(draft).pages, DraftCells(draft))
  {
    hide WrapText, Flows, Visible, ValidSection, SectionCells, PlaceAll, AddLines, AddSections, Roomy;
    var start := Layout([[]], TOP);
    var lines := WrapText(draft.title, 58);
    var title := TextCells(lines, 20, 0, 48);
    VisibleWraps(draft.title, 58);
    TextIsPlaced(start, lines, 20, 0, 48);
    assert Break(Gap(start, 0), 48) == start;
    SectionsArePlaced(PlaceAll(start, title), draft.sections);
    PlaceConcat(start, title, SectionCells(draft.sections));
    RoomyDraft(draft);
    AllFlow(DraftCells(draft));
  }

  lemma {:induction false} RoomyDraft(draft: Draft)
    requires WrapText(draft.title, 58) != []
    ensures Roomy(DraftCells(draft)) && DraftCells(draft) != [] && DraftCells(draft)[0].gap == 0 && DraftCells(draft)[0].least == 48
  {
    hide WrapText, SectionCells;
    SectionCellsRoomy(draft.sections);
  }
}
