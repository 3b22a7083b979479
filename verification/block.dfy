/** A `Block` of pyroglyph: a title and an ordered list of content lines, rendered as a
    bordered rectangle of text lines of a requested width. */
module Pyroglyph {
  import opened Wrappers
  import opened Text

  /** The title is optional; each element of `contents` is one output line. */
  datatype Block = Block(title: Option<string>, contents: seq<string>)

  /** Which of the four edges of the rectangle are drawn. */
  datatype Borders = Borders(top: bool, bottom: bool, left: bool, right: bool)

  /** The keyword defaults of `render`: 80 columns and all four borders. */
  const DefaultWidth: int := 80
  const AllBorders: Borders := Borders(true, true, true, true)

  /** Python raises `ValueError` ("Sign not allowed in string format specifier") when a
      content line is formatted with the spec ` <{iw}` and `iw` is negative: the spec then
      reads as a `-` sign followed by a width. */
  datatype RenderError = NegativeInnerWidth(iw: int)

  const RuleGlyph: char := '.'

  function LeftMarker(left: bool): string
  {
    if left then ": " else " "
  }

  function RightMarker(right: bool): string
  {
    if right then " :" else " "
  }

  /** The width left for text between the two markers. */
  function InnerWidth(width: int, borders: Borders): (iw: int)
    ensures borders.left && borders.right ==> iw == width - 4
    ensures !borders.left && !borders.right ==> iw == width - 2
    ensures borders.left != borders.right ==> iw == width - 3
  {
    width - |LeftMarker(borders.left)| - |RightMarker(borders.right)|
  }

  /** `width * '.'`: empty when the width is not positive. */
  function Rule(width: int): (r: string)
    ensures |r| == Max(0, width)
    ensures forall i :: 0 <= i < |r| ==> r[i] == RuleGlyph
  {
    Repeat(RuleGlyph, width)
  }

  /** Python's truthiness of `self.title`: neither `None` nor empty. */
  predicate HasTitle(block: Block)
  {
    block.title.Some? && block.title.value != []
  }

  /** The header line. `bold` stands for the terminal's styling function, about which
      nothing is assumed. */
  function TitleLine(title: string, bold: string -> string, left: string, iw: int, right: string): string
  {
    left + bold(Ljust(title, iw)) + right
  }

  function ContentLine(line: string, left: string, iw: int, right: string): string
  {
    left + Ljust(line, iw) + right
  }

  /** `f'{line: <{iw}}'`: left-justified in `iw` columns, and an error for negative `iw`. */
  function PadField(line: string, iw: int): (r: Result<string, RenderError>)
    ensures r.Failure? <==> iw < 0
    ensures r.Success? ==> |r.value| == Max(|line|, iw) && r.value[..|line|] == line
    ensures r.Success? ==> AllSpaces(r.value[|line|..])
  {
    if iw < 0 then Failure(NegativeInnerWidth(iw)) else Success(Ljust(line, iw))
  }

  /** The list comprehension over `self.contents`: one framed line per content line, in
      order, or the error of the first line that cannot be formatted. */
  function ContentLines(contents: seq<string>, left: string, iw: int, right: string): (r: Result<seq<string>, RenderError>)
    ensures r.Failure? <==> contents != [] && iw < 0
    ensures r.Success? ==> |r.value| == |contents|
    ensures r.Success? ==> forall i :: 0 <= i < |contents| ==> r.value[i] == ContentLine(contents[i], left, iw, right)
    decreases |contents|
  {
    if contents == [] then Success([])
    else
      match PadField(contents[0], iw)
      case Failure(e) => Failure(e)
      case Success(field) =>
        match ContentLines(contents[1..], left, iw, right)
        case Failure(e) => Failure(e)
        case Success(rest) => Success([left + field + right] + rest)
  }

  /** `Block.render`: optional top rule, optional title line, the content lines, optional
      bottom rule. It fails exactly when there is a content line to format and the inner
      width is negative; otherwise the line count is the sum of the parts. */
  function Render(block: Block, bold: string -> string, width: int, borders: Borders): (r: Result<seq<string>, RenderError>)
    ensures r.Failure? <==> block.contents != [] && InnerWidth(width, borders) < 0
    ensures r.Success? ==>
      |r.value| == (if borders.top then 1 else 0) + (if HasTitle(block) then 1 else 0)
                   + |block.contents| + (if borders.bottom then 1 else 0)
  {
    var iw := InnerWidth(width, borders);
    match ContentLines(block.contents, LeftMarker(borders.left), iw, RightMarker(borders.right))
    case Failure(e) => Failure(e)
    case Success(body) => Success(Assemble(block, bold, width, borders, body))
  }

  /** The rendered lines around the already framed content lines `body`. */
  function Assemble(block: Block, bold: string -> string, width: int, borders: Borders, body: seq<string>): seq<string>
  {
    var left := LeftMarker(borders.left);
    var right := RightMarker(borders.right);
    var iw := InnerWidth(width, borders);
    var rule := Rule(width);
    var top := if borders.top then [rule] else [];
    var header := if HasTitle(block) then [TitleLine(block.title.value, bold, left, iw, right)] else [];
    var bottom := if borders.bottom then [rule] else [];
    top + header + body + bottom
  }

  /** Index of the first content line: after the top rule and the title line, if present. */
  function BodyStart(block: Block, borders: Borders): (k: nat)
    ensures k <= 2
  {
    (if borders.top then 1 else 0) + (if HasTitle(block) then 1 else 0)
  }

  /** The layout of a rendered block described line by line: where each rule, the title
      line and each content line sit, and nothing else. */
  predicate IsLayout(lines: seq<string>, block: Block, bold: string -> string, width: int, borders: Borders)
  {
    var left := LeftMarker(borders.left);
    var right := RightMarker(borders.right);
    var iw := InnerWidth(width, borders);
    var k := BodyStart(block, borders);
    var n := |block.contents|;
    && |lines| == k + n + (if borders.bottom then 1 else 0)
    && (borders.top ==> lines[0] == Rule(width))
    && (HasTitle(block) ==> lines[k - 1] == TitleLine(block.title.value, bold, left, iw, right))
    && (forall i :: 0 <= i < n ==> lines[k + i] == ContentLine(block.contents[i], left, iw, right))
    && (borders.bottom ==> lines[k + n] == Rule(width))
  }

  lemma RenderIsLayout(block: Block, bold: string -> string, width: int, borders: Borders)
    requires Render(block, bold, width, borders).Success?
    ensures IsLayout(Render(block, bold, width, borders).value, block, bold, width, borders)
  {
    var body := ContentLines(block.contents, LeftMarker(borders.left), InnerWidth(width, borders), RightMarker(borders.right)).value;
    AssembleIsLayout(block, bold, width, borders, body);
  }

  lemma AssembleIsLayout(block: Block, bold: string -> string, width: int, borders: Borders, body: seq<string>)
    requires |body| == |block.contents|
    requires forall i :: 0 <= i < |body| ==>
      body[i] == ContentLine(block.contents[i], LeftMarker(borders.left), InnerWidth(width, borders), RightMarker(borders.right))
    ensures IsLayout(Assemble(block, bold, width, borders, body), block, bold, width, borders)
  {
    var left := LeftMarker(borders.left);
    var right := RightMarker(borders.right);
    var iw := InnerWidth(width, borders);
    var rule := Rule(width);
    var top := if borders.top then [rule] else [];
    var header := if HasTitle(block) then [TitleLine(block.title.value, bold, left, iw, right)] else [];
    var bottom := if borders.bottom then [rule] else [];
    var front := top + header;
    var lines := Assemble(block, bold, width, borders, body);
    assert lines == front + body + bottom;
    assert |front| == BodyStart(block, borders);
    forall i | 0 <= i < |block.contents|
      ensures lines[|front| + i] == ContentLine(block.contents[i], left, iw, right)
    {
      assert lines[|front| + i] == (front + body)[|front| + i] == body[i];
    }
    if borders.bottom {
      assert lines[|front| + |body|] == rule;
    }
    if HasTitle(block) {
      assert lines[|front| - 1] == front[|front| - 1];
    }
  }

  /** Two sequences with the same layout are equal. */
  lemma LayoutUnique(a: seq<string>, b: seq<string>, block: Block, bold: string -> string, width: int, borders: Borders)
    requires IsLayout(a, block, bold, width, borders)
    requires IsLayout(b, block, bold, width, borders)
    ensures a == b
  {
    var k := BodyStart(block, borders);
    var n := |block.contents|;
    forall j | 0 <= j < |a|
      ensures a[j] == b[j]
    {
      if j < k {
        if borders.top && j == 0 {
        } else {
          assert HasTitle(block) && j == k - 1;
        }
      } else if j < k + n {
        var i := j - k;
        var line := ContentLine(block.contents[i], LeftMarker(borders.left), InnerWidth(width, borders), RightMarker(borders.right));
        assert a[k + i] == line == b[k + i];
      } else {
        assert borders.bottom && j == k + n;
      }
    }
  }

  /** The layout determines the lines: any sequence laid out as `IsLayout` describes is
      the rendered one. */
  lemma LayoutIsRender(lines: seq<string>, block: Block, bold: string -> string, width: int, borders: Borders)
    requires Render(block, bold, width, borders).Success?
    requires IsLayout(lines, block, bold, width, borders)
    ensures lines == Render(block, bold, width, borders).value
  {
    RenderIsLayout(block, bold, width, borders);
    LayoutUnique(lines, Render(block, bold, width, borders).value, block, bold, width, borders);
  }

  /** In a layout, a rule line appears exactly at the top when `borders.top` and at the
      bottom when `borders.bottom`: every other line starts with a border marker, while a
      rule is either empty or starts with a dot. */
  lemma LayoutRuleLines(lines: seq<string>, block: Block, bold: string -> string, width: int, borders: Borders, j: int)
    requires IsLayout(lines, block, bold, width, borders)
    requires 0 <= j < |lines|
    ensures lines[j] == Rule(width) <==> (borders.top && j == 0) || (borders.bottom && j == |lines| - 1)
  {
    var left := LeftMarker(borders.left);
    var right := RightMarker(borders.right);
    var iw := InnerWidth(width, borders);
    var k := BodyStart(block, borders);
    if width >= 1 {
      assert Rule(width)[0] == RuleGlyph;
    }
    if (borders.top && j == 0) || (borders.bottom && j == |lines| - 1) {
    } else if j < k {
      assert lines[j] == TitleLine(block.title.value, bold, left, iw, right);
      assert lines[j][0] == left[0];
    } else {
      var i := j - k;
      assert lines[k + i] == ContentLine(block.contents[i], left, iw, right);
      assert lines[j][0] == left[0];
    }
  }

  /** In a layout, content line `i` is `contents[i]` unchanged between the two markers,
      followed by spaces up to the inner width. */
  lemma LayoutContentLine(lines: seq<string>, block: Block, bold: string -> string, width: int, borders: Borders, i: int)
    requires IsLayout(lines, block, bold, width, borders)
    requires 0 <= i < |block.contents|
    ensures var line := lines[BodyStart(block, borders) + i];
      var left := LeftMarker(borders.left);
      var right := RightMarker(borders.right);
      var c := block.contents[i];
      var iw := InnerWidth(width, borders);
      && |line| == |left| + Max(|c|, iw) + |right|
      && line[..|left|] == left
      && line[|left|..|left| + |c|] == c
      && AllSpaces(line[|left| + |c|..|line| - |right|])
      && line[|line| - |right|..] == right
      && (|c| <= iw ==> |line| == width)
      && (|c| > iw ==> |line| > width)
  {
    var left := LeftMarker(borders.left);
    var right := RightMarker(borders.right);
    var iw := InnerWidth(width, borders);
    var c := block.contents[i];
    assert lines[BodyStart(block, borders) + i] == ContentLine(c, left, iw, right);
    FramedLine(c, left, iw, right);
  }

  /** A framed line: the markers around the text and its padding. */
  lemma FramedLine(c: string, left: string, iw: int, right: string)
    ensures var line := ContentLine(c, left, iw, right);
      && |line| == |left| + Max(|c|, iw) + |right|
      && line[..|left|] == left
      && line[|left|..|left| + |c|] == c
      && AllSpaces(line[|left| + |c|..|line| - |right|])
      && line[|line| - |right|..] == right
  {
    var line := ContentLine(c, left, iw, right);
    var field := Ljust(c, iw);
    assert line == left + field + right;
    assert line[|left|..|left| + |c|] == field[..|c|];
    assert line[|left| + |c|..|line| - |right|] == field[|c|..];
  }

  /** In the rendered lines, the rule appears exactly as the first line when
      `borders.top` and as the last line when `borders.bottom`. */
  lemma RuleLinesExactly(block: Block, bold: string -> string, width: int, borders: Borders, j: int)
    requires Render(block, bold, width, borders).Success?
    requires 0 <= j < |Render(block, bold, width, borders).value|
    ensures var lines := Render(block, bold, width, borders).value;
      lines[j] == Rule(width) <==> (borders.top && j == 0) || (borders.bottom && j == |lines| - 1)
  {
    RenderIsLayout(block, bold, width, borders);
    LayoutRuleLines(Render(block, bold, width, borders).value, block, bold, width, borders, j);
  }

  /** Rendered content line `i` holds `contents[i]` intact between the markers. Padding
      never truncates: the line is `width` wide when `contents[i]` fits the inner width,
      and wider than `width` when it does not. */
  lemma ContentLineShape(block: Block, bold: string -> string, width: int, borders: Borders, i: int)
    requires Render(block, bold, width, borders).Success?
    requires 0 <= i < |block.contents|
    ensures var line := Render(block, bold, width, borders).value[BodyStart(block, borders) + i];
      var left := LeftMarker(borders.left);
      var right := RightMarker(borders.right);
      var c := block.contents[i];
      && |line| == |left| + Max(|c|, InnerWidth(width, borders)) + |right|
      && line[..|left|] == left
      && line[|left|..|left| + |c|] == c
      && AllSpaces(line[|left| + |c|..|line| - |right|])
      && line[|line| - |right|..] == right
      && (|c| <= InnerWidth(width, borders) ==> |line| == width)
      && (|c| > InnerWidth(width, borders) ==> |line| > width)
  {
    RenderIsLayout(block, bold, width, borders);
    LayoutContentLine(Render(block, bold, width, borders).value, block, bold, width, borders, i);
  }

  /** In a layout whose content lines all fit a non-negative inner width, every rule and
      content line is exactly `width` wide. */
  lemma LayoutFixedWidth(lines: seq<string>, block: Block, bold: string -> string, width: int, borders: Borders, j: int)
    requires InnerWidth(width, borders) >= 0
    requires forall i :: 0 <= i < |block.contents| ==> |block.contents[i]| <= InnerWidth(width, borders)
    requires IsLayout(lines, block, bold, width, borders)
    requires 0 <= j < |lines|
    ensures var iw := InnerWidth(width, borders);
      if HasTitle(block) && j == BodyStart(block, borders) - 1 then
        |block.title.value| <= iw && |bold(Ljust(block.title.value, iw))| == iw ==> |lines[j]| == width
      else
        |lines[j]| == width
  {
    var k := BodyStart(block, borders);
    if k <= j < k + |block.contents| {
      LayoutContentLine(lines, block, bold, width, borders, j - k);
    }
  }

  /** When the inner width is not negative and every content line fits in it, every rule
      and content line is exactly `width` characters wide; so is the title line when the
      title fits and `bold` keeps the length of its argument. */
  lemma FixedWidth(block: Block, bold: string -> string, width: int, borders: Borders, j: int)
    requires InnerWidth(width, borders) >= 0
    requires forall i :: 0 <= i < |block.contents| ==> |block.contents[i]| <= InnerWidth(width, borders)
    requires 0 <= j < |Render(block, bold, width, borders).value|
    ensures var lines := Render(block, bold, width, borders).value;
      var iw := InnerWidth(width, borders);
      if HasTitle(block) && j == BodyStart(block, borders) - 1 then
        |block.title.value| <= iw && |bold(Ljust(block.title.value, iw))| == iw ==> |lines[j]| == width
      else
        |lines[j]| == width
  {
    RenderIsLayout(block, bold, width, borders);
    LayoutFixedWidth(Render(block, bold, width, borders).value, block, bold, width, borders, j);
  }

  /** A call with the default arguments never fails: the inner width is 76, the output
      opens and closes with an 80-dot rule, and every content line of at most 76
      characters is framed to exactly 80 columns. */
  lemma DefaultRender(block: Block, bold: string -> string)
    ensures InnerWidth(DefaultWidth, AllBorders) == 76
    ensures Render(block, bold, DefaultWidth, AllBorders).Success?
    ensures var lines := Render(block, bold, DefaultWidth, AllBorders).value;
      && |lines| == |block.contents| + (if HasTitle(block) then 3 else 2)
      && lines[0] == Rule(DefaultWidth) && |lines[0]| == DefaultWidth
      && lines[|lines| - 1] == Rule(DefaultWidth)
    ensures forall i :: 0 <= i < |block.contents| && |block.contents[i]| <= 76 ==>
      |Render(block, bold, DefaultWidth, AllBorders).value[BodyStart(block, AllBorders) + i]| == DefaultWidth
  {
    RenderIsLayout(block, bold, DefaultWidth, AllBorders);
    forall i | 0 <= i < |block.contents| && |block.contents[i]| <= 76
      ensures |Render(block, bold, DefaultWidth, AllBorders).value[BodyStart(block, AllBorders) + i]| == DefaultWidth
    {
      ContentLineShape(block, bold, DefaultWidth, AllBorders, i);
    }
  }
}
