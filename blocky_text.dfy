/** drawBlockyText as a layout function: with drawing a cell read as
    "emit this cell", a text and a start cell give the list of cells the
    routine paints, in painting order, and the cursor column it ends on.
    Also the "END" banner drawGame paints over a lost game. */
module BlockyText {
  import opened GameState

  /** What one character paints and how far it moves the cursor. */
  datatype Stroke = Stroke(cells: seq<Point>, step: int)

  /** What a text paints and the column the cursor ends on. */
  datatype Layout = Layout(cells: seq<Point>, cursor: int)

  /** Upper-casing of a character, for the ASCII letters. */
  function ToUpper(c: char): char {
    if 'a' <= c <= 'z' then (c as int - 32) as char else c
  }

  function UpperString(s: string): (u: string)
    ensures |u| == |s|
    ensures forall k :: 0 <= k < |s| ==> u[k] == ToUpper(s[k])
  {
    if s == [] then [] else [ToUpper(s[0])] + UpperString(s[1..])
  }

  /** n cells downwards from (x, y): one of the glyphs' vertical bars. */
  function Column(x: int, y: int, n: nat): (cells: seq<Point>)
    ensures |cells| == n
  {
    seq(n, k => Point(x, y + k))
  }

  /** n cells rightwards from (x, y): one of E's horizontal bars. */
  function Row(x: int, y: int, n: nat): (cells: seq<Point>)
    ensures |cells| == n
  {
    seq(n, k => Point(x + k, y))
  }

  /** The letters that have a glyph. */
  predicate IsGlyph(u: char) {
    u in "GAMEOVRND"
  }

  /** The cells of the glyph for upper-case letter u with its top-left
      corner at (x, y), in the order they are painted; no cells for a
      character without a glyph. D is painted exactly like O. */
  function Glyph(u: char, x: int, y: int): seq<Point> {
    match u
    case 'G' =>
      [Point(x + 1, y), Point(x + 2, y),
       Point(x, y + 1), Point(x, y + 2), Point(x, y + 3), Point(x + 2, y + 3),
       Point(x + 1, y + 4), Point(x + 2, y + 4)]
    case 'A' => Column(x, y, 5) + Column(x + 2, y, 5) + [Point(x + 1, y), Point(x + 1, y + 2)]
    case 'M' => Column(x, y, 5) + Column(x + 2, y, 5) + [Point(x + 1, y + 1)]
    case 'E' => Column(x, y, 5) + Row(x, y, 3) + Row(x, y + 2, 3) + Row(x, y + 4, 3)
    case 'O' => Column(x, y, 5) + Column(x + 2, y, 5) + [Point(x + 1, y), Point(x + 1, y + 4)]
    case 'V' => Column(x, y, 4) + Column(x + 2, y, 4) + [Point(x + 1, y + 4)]
    case 'R' =>
      Column(x, y, 5) +
      [Point(x + 1, y), Point(x + 2, y + 1), Point(x + 1, y + 2), Point(x + 2, y + 3), Point(x + 2, y + 4)]
    case 'N' => Column(x, y, 5) + Column(x + 2, y, 5) + Column(x + 1, y, 5)
    case 'D' => Column(x, y, 5) + Column(x + 2, y, 5) + [Point(x + 1, y), Point(x + 1, y + 4)]
    case _ => []
  }

  /** One pass of the loop: the glyph of the upper-cased character and a
      step of 4; otherwise a '.' (tested on the character as given) paints
      the middle cell of its column and steps 2, and anything else paints
      nothing and steps 4. */
  function DrawChar(c: char, x: int, y: int): Stroke {
    var u := ToUpper(c);
    if IsGlyph(u) then Stroke(Glyph(u, x, y), 4)
    else if c == '.' then Stroke([Point(x, y + 2)], 2)
    else Stroke([], 4)
  }

  /** drawBlockyText from cursor column x on top row y. */
  function DrawText(text: string, x: int, y: int): Layout
    decreases |text|
  {
    if text == [] then Layout([], x)
    else
      var s := DrawChar(text[0], x, y);
      var rest := DrawText(text[1..], x + s.step, y);
      Layout(s.cells + rest.cells, rest.cursor)
  }

  // ---------------------------------------------------------------------
  // The "END" banner

  /** The width drawGame reserves for the banner text. */
  const BannerWidth: int := 15

  /** Where the banner's first line starts: horizontally centred with C++
      division, five rows above the middle row. */
  function BannerOrigin(g: Game): Point {
    Point(CDiv(g.worldWidth - BannerWidth + 1, 2), CDiv(g.worldHeight, 2) - 5)
  }

  /** The banner's two lines. */
  const EndText: string := "END"
  const DotsText: string := "..."

  /** The banner's cells from origin o: "END", and "..." six rows lower. */
  function BannerCells(o: Point): seq<Point> {
    DrawText(EndText, o.x, o.y).cells + DrawText(DotsText, o.x, o.y + 6).cells
  }

  /** The banner cells drawGame paints: only once the game has stopped
      with no health left, and nothing without a positive grid size. */
  function EndBanner(g: Game, gridSize: int): seq<Point> {
    if gridSize <= 0 || g.running || g.health > 0 then []
    else BannerCells(BannerOrigin(g))
  }

  // ---------------------------------------------------------------------
  // Properties

  /** Every cell in columns x0..x1 and rows y0..y1. */
  predicate InBox(cells: seq<Point>, x0: int, x1: int, y0: int, y1: int) {
    forall p :: p in cells ==> x0 <= p.x <= x1 && y0 <= p.y <= y1
  }

  /** Every cell inside a w-by-h world. */
  predicate CellsInside(cells: seq<Point>, w: int, h: int) {
    InBox(cells, 0, w - 1, 0, h - 1)
  }

  /** Two lists in two boxes: their concatenation is in the box that
      spans both. */
  lemma InBoxJoin(a: seq<Point>, b: seq<Point>, x0: int, x1: int, y0: int, y1: int,
                  u0: int, u1: int, v0: int, v1: int)
    requires InBox(a, x0, x1, y0, y1) && InBox(b, u0, u1, v0, v1)
    ensures InBox(a + b, Min(x0, u0), Max(x1, u1), Min(y0, v0), Max(y1, v1))
  {
    forall p | p in a + b
      ensures Min(x0, u0) <= p.x <= Max(x1, u1) && Min(y0, v0) <= p.y <= Max(y1, v1)
    {
      if p !in a {
        assert p in b;
      }
    }
  }

  /** A list in a box is in every larger box. */
  lemma InBoxWiden(a: seq<Point>, x0: int, x1: int, y0: int, y1: int,
                   u0: int, u1: int, v0: int, v1: int)
    requires InBox(a, x0, x1, y0, y1)
    requires u0 <= x0 && x1 <= u1 && v0 <= y0 && y1 <= v1
    ensures InBox(a, u0, u1, v0, v1)
  {
  }

  /** Two lists in one box: so is their concatenation. */
  lemma InBoxAppend(a: seq<Point>, b: seq<Point>, x0: int, x1: int, y0: int, y1: int)
    requires InBox(a, x0, x1, y0, y1) && InBox(b, x0, x1, y0, y1)
    ensures InBox(a + b, x0, x1, y0, y1)
  {
    InBoxJoin(a, b, x0, x1, y0, y1, x0, x1, y0, y1);
  }

  /** A bar of n cells down from (x, y) lies in any box around it. */
  lemma ColumnInBox(x: int, y: int, n: nat, x0: int, x1: int, y0: int, y1: int)
    requires x0 <= x <= x1 && y0 <= y && y + n - 1 <= y1
    ensures InBox(Column(x, y, n), x0, x1, y0, y1)
  {
    var cells := Column(x, y, n);
    forall p | p in cells
      ensures x0 <= p.x <= x1 && y0 <= p.y <= y1
    {
      var k :| 0 <= k < n && cells[k] == p;
    }
  }

  /** A bar of n cells right from (x, y) lies in any box around it. */
  lemma RowInBox(x: int, y: int, n: nat, x0: int, x1: int, y0: int, y1: int)
    requires x0 <= x && x + n - 1 <= x1 && y0 <= y <= y1
    ensures InBox(Row(x, y, n), x0, x1, y0, y1)
  {
    var cells := Row(x, y, n);
    forall p | p in cells
      ensures x0 <= p.x <= x1 && y0 <= p.y <= y1
    {
      var k :| 0 <= k < n && cells[k] == p;
    }
  }

  /** The glyphs built on two full-height side bars stay in their box. */
  lemma BarredGlyphBox(u: char, x: int, y: int)
    requires u in "AMOND"
    ensures |Glyph(u, x, y)| > 0 && InBox(Glyph(u, x, y), x, x + 2, y, y + 4)
  {
    var x1, y1 := x + 2, y + 4;
    var left, right := Column(x, y, 5), Column(x + 2, y, 5);
    ColumnInBox(x, y, 5, x, x1, y, y1);
    ColumnInBox(x + 2, y, 5, x, x1, y, y1);
    InBoxAppend(left, right, x, x1, y, y1);
    if u == 'A' {
      InBoxAppend(left + right, [Point(x + 1, y), Point(x + 1, y + 2)], x, x1, y, y1);
    } else if u == 'M' {
      InBoxAppend(left + right, [Point(x + 1, y + 1)], x, x1, y, y1);
    } else if u == 'O' || u == 'D' {
      InBoxAppend(left + right, [Point(x + 1, y), Point(x + 1, y + 4)], x, x1, y, y1);
    } else {
      assert u == 'N';
      ColumnInBox(x + 1, y, 5, x, x1, y, y1);
      InBoxAppend(left + right, Column(x + 1, y, 5), x, x1, y, y1);
    }
  }

  /** The other glyphs stay in their box too. */
  lemma OpenGlyphBox(u: char, x: int, y: int)
    requires u in "GEVR"
    ensures |Glyph(u, x, y)| > 0 && InBox(Glyph(u, x, y), x, x + 2, y, y + 4)
  {
    var x1, y1 := x + 2, y + 4;
    if u == 'E' {
      var left := Column(x, y, 5);
      ColumnInBox(x, y, 5, x, x1, y, y1);
      RowInBox(x, y, 3, x, x1, y, y1);
      RowInBox(x, y + 2, 3, x, x1, y, y1);
      RowInBox(x, y + 4, 3, x, x1, y, y1);
      InBoxAppend(left, Row(x, y, 3), x, x1, y, y1);
      InBoxAppend(left + Row(x, y, 3), Row(x, y + 2, 3), x, x1, y, y1);
      InBoxAppend(left + Row(x, y, 3) + Row(x, y + 2, 3), Row(x, y + 4, 3), x, x1, y, y1);
    } else if u == 'V' {
      ColumnInBox(x, y, 4, x, x1, y, y1);
      ColumnInBox(x + 2, y, 4, x, x1, y, y1);
      InBoxAppend(Column(x, y, 4), Column(x + 2, y, 4), x, x1, y, y1);
      InBoxAppend(Column(x, y, 4) + Column(x + 2, y, 4), [Point(x + 1, y + 4)], x, x1, y, y1);
    } else if u == 'R' {
      ColumnInBox(x, y, 5, x, x1, y, y1);
      InBoxAppend(Column(x, y, 5), [Point(x + 1, y), Point(x + 2, y + 1), Point(x + 1, y + 2),
                                    Point(x + 2, y + 3), Point(x + 2, y + 4)], x, x1, y, y1);
    } else {
      assert u == 'G';
    }
  }

  /** Every glyph paints at least one cell, all inside its 3-by-5 box. */
  lemma GlyphBox(u: char, x: int, y: int)
    requires IsGlyph(u)
    ensures |Glyph(u, x, y)| > 0 && InBox(Glyph(u, x, y), x, x + 2, y, y + 4)
  {
    if u in "AMOND" {
      BarredGlyphBox(u, x, y);
    } else {
      OpenGlyphBox(u, x, y);
    }
  }

  /** The three kinds of character: a glyph letter in either case steps 4
      and stays in its box; '.' paints (x, y + 2) and steps 2; anything
      else paints nothing and steps 4. */
  lemma DrawCharCases(c: char, x: int, y: int)
    ensures var s := DrawChar(c, x, y);
      && (IsGlyph(ToUpper(c)) ==>
            s.step == 4 && |s.cells| > 0 && InBox(s.cells, x, x + 2, y, y + 4))
      && (c == '.' ==> s == Stroke([Point(x, y + 2)], 2))
      && (!IsGlyph(ToUpper(c)) && c != '.' ==> s == Stroke([], 4))
  {
    if IsGlyph(ToUpper(c)) {
      GlyphBox(ToUpper(c), x, y);
    }
  }

  /** A character and its upper-case form paint the same. */
  lemma DrawCharCaseInsensitive(c: char, x: int, y: int)
    ensures DrawChar(ToUpper(c), x, y) == DrawChar(c, x, y)
  {
    assert ToUpper(ToUpper(c)) == ToUpper(c);
    assert ToUpper(c) == '.' <==> c == '.';
  }

  /** The layout ignores letter case. */
  lemma {:induction false} DrawTextCaseInsensitive(text: string, x: int, y: int)
    ensures DrawText(UpperString(text), x, y) == DrawText(text, x, y)
    decreases |text|
  {
    if text != [] {
      var u := UpperString(text);
      assert u[0] == ToUpper(text[0]) && u[1..] == UpperString(text[1..]);
      DrawCharCaseInsensitive(text[0], x, y);
      DrawTextCaseInsensitive(text[1..], x + DrawChar(text[0], x, y).step, y);
    }
  }

  /** What one character paints lies in the columns before the next
      cursor position but one, and the step is 2 to 4. */
  lemma DrawCharBox(c: char, x: int, y: int)
    ensures var s := DrawChar(c, x, y);
      2 <= s.step <= 4 && InBox(s.cells, x, x + s.step - 2, y, y + 4)
  {
    DrawCharCases(c, x, y);
  }

  /** A character's cells followed by the rest of the line, each in its
      own columns, lie between the start and the final cursor. */
  lemma StepBox(s: Stroke, rest: Layout, x: int, y: int)
    requires s.step >= 2 && rest.cursor >= x + s.step
    requires InBox(s.cells, x, x + s.step - 2, y, y + 4)
    requires InBox(rest.cells, x + s.step, rest.cursor - 1, y, y + 4)
    ensures InBox(s.cells + rest.cells, x, rest.cursor - 1, y, y + 4)
  {
    InBoxWiden(s.cells, x, x + s.step - 2, y, y + 4, x, rest.cursor - 1, y, y + 4);
    InBoxWiden(rest.cells, x + s.step, rest.cursor - 1, y, y + 4, x, rest.cursor - 1, y, y + 4);
    InBoxAppend(s.cells, rest.cells, x, rest.cursor - 1, y, y + 4);
  }

  /** The cursor moves 2 to 4 columns per character, and every cell
      painted lies between the start column and the final cursor, in
      the five rows from the top row. */
  lemma {:induction false} DrawTextBounds(text: string, x: int, y: int)
    ensures var r := DrawText(text, x, y);
      && x + 2 * |text| <= r.cursor <= x + 4 * |text|
      && InBox(r.cells, x, r.cursor - 1, y, y + 4)
    decreases |text|
  {
    if text != [] {
      var s := DrawChar(text[0], x, y);
      var rest := DrawText(text[1..], x + s.step, y);
      assert DrawText(text, x, y) == Layout(s.cells + rest.cells, rest.cursor);
      DrawCharBox(text[0], x, y);
      DrawTextBounds(text[1..], x + s.step, y);
      StepBox(s, rest, x, y);
    }
  }

  /** Drawing a concatenation draws the first part, then the second part
      from where the first one left the cursor. */
  lemma {:induction false} DrawTextAppend(a: string, b: string, x: int, y: int)
    ensures var ra := DrawText(a, x, y);
      var rb := DrawText(b, ra.cursor, y);
      DrawText(a + b, x, y) == Layout(ra.cells + rb.cells, rb.cursor)
    decreases |a|
  {
    if a == [] {
      assert a + b == b;
    } else {
      var s := DrawChar(a[0], x, y);
      assert (a + b)[0] == a[0];
      assert (a + b)[1..] == a[1..] + b;
      DrawTextAppend(a[1..], b, x + s.step, y);
      var ra := DrawText(a[1..], x + s.step, y);
      var rb := DrawText(b, ra.cursor, y);
      assert DrawText(a + b, x, y) == Layout(s.cells + (ra.cells + rb.cells), rb.cursor);
      assert s.cells + (ra.cells + rb.cells) == (s.cells + ra.cells) + rb.cells;
    }
  }

  /** The banner's first line: "END" spans 12 columns and five rows. */
  lemma EndLine(x: int, y: int)
    ensures DrawText(EndText, x, y).cursor == x + 12
    ensures InBox(DrawText(EndText, x, y).cells, x, x + 11, y, y + 4)
  {
    assert "END"[1..] == "ND" && "ND"[1..] == "D" && "D"[1..] == [];
    DrawTextBounds("END", x, y);
  }

  /** The banner's second line: "..." paints three cells two apart on
      its middle row and spans 6 columns. */
  lemma DotsLine(x: int, y: int)
    ensures DrawText(DotsText, x, y) == Layout([Point(x, y + 2), Point(x + 2, y + 2), Point(x + 4, y + 2)], x + 6)
    ensures InBox(DrawText(DotsText, x, y).cells, x, x + 4, y + 2, y + 2)
  {
    DrawCharCases('.', x, y);
    DrawCharCases('.', x + 2, y);
    DrawCharCases('.', x + 4, y);
    assert "."[1..] == [];
    var last := DrawText(".", x + 4, y);
    assert last == Layout([Point(x + 4, y + 2)], x + 6);
    assert ".."[0] == '.' && ".."[1..] == ".";
    var two := DrawText("..", x + 2, y);
    assert two == Layout([Point(x + 2, y + 2)] + last.cells, x + 6);
    assert DotsText[0] == '.' && DotsText[1..] == "..";
    var cells := [Point(x, y + 2), Point(x + 2, y + 2), Point(x + 4, y + 2)];
    assert DrawText(DotsText, x, y) == Layout([Point(x, y + 2)] + two.cells, x + 6);
    assert [Point(x, y + 2)] + two.cells == cells;
    assert InBox(cells, x, x + 4, y + 2, y + 2);
  }

  /** The banner is painted exactly when the game has stopped with no
      health left (and the grid size is positive). */
  lemma EndBannerShown(g: Game, gridSize: int)
    ensures EndBanner(g, gridSize) != [] <==> gridSize > 0 && !g.running && g.health <= 0
  {
    if gridSize > 0 && !g.running && g.health <= 0 {
      var o := BannerOrigin(g);
      DotsLine(o.x, o.y + 6);
    }
  }

  /** Both banner lines drawn from o stay inside a w-by-h world when 12
      columns and 9 rows from o fit in it. */
  lemma BannerFits(o: Point, w: int, h: int)
    requires 0 <= o.x && o.x + 12 <= w && 0 <= o.y && o.y + 8 < h
    ensures CellsInside(BannerCells(o), w, h)
  {
    var top := DrawText(EndText, o.x, o.y).cells;
    var dots := DrawText(DotsText, o.x, o.y + 6).cells;
    assert BannerCells(o) == top + dots;
    EndLine(o.x, o.y);
    DotsLine(o.x, o.y + 6);
    InBoxJoin(top, dots, o.x, o.x + 11, o.y, o.y + 4, o.x, o.x + 4, o.y + 8, o.y + 8);
  }

  /** In a world at least 14 columns wide and 10 rows high, every banner
      cell lies inside the world. */
  lemma EndBannerInsideWorld(g: Game, gridSize: int)
    requires g.worldWidth >= 14 && g.worldHeight >= 10
    ensures CellsInside(EndBanner(g, gridSize), g.worldWidth, g.worldHeight)
  {
    if gridSize > 0 && !g.running && g.health <= 0 {
      var o := BannerOrigin(g);
      assert o.x == (g.worldWidth - 14) / 2 && o.y == g.worldHeight / 2 - 5;
      BannerFits(o, g.worldWidth, g.worldHeight);
    }
  }
}
