/**
  `src/utils/pathPainter.js`: the `Path` builder that the directory page uses to draw a
  route, its serialisation to SVG path data, and the defaults of `Paint`.

  Coordinates are JavaScript numbers (reals here). The number-to-text conversion of a
  template literal is a parameter `fmt`; the only thing assumed of it is that it never
  produces a space, which holds of every JavaScript number's text.
*/
module PathPainter {
  import opened Wrappers

  // ---------------------------------------------------------------------------------------
  // Paint
  // ---------------------------------------------------------------------------------------

  /** The properties of a `Paint`. `dashArray` is `null` (None) or an array of dash lengths. */
  datatype Paint = Paint(
    color: string,
    strokeWidth: real,
    style: string,
    opacity: real,
    strokeCap: string,
    strokeJoin: string,
    dashArray: Option<seq<real>>)

  /** The `options` object; a missing property is None. */
  datatype PaintOptions = PaintOptions(
    color: Option<string>,
    strokeWidth: Option<real>,
    style: Option<string>,
    opacity: Option<real>,
    strokeCap: Option<string>,
    strokeJoin: Option<string>,
    dashArray: Option<seq<real>>)

  const NoOptions: PaintOptions := PaintOptions(None, None, None, None, None, None, None)

  /** `value || fallback` for a string property: missing and empty both fall back. */
  function TextOr(value: Option<string>, fallback: string): (r: string)
    ensures value.Some? && value.value != "" ==> r == value.value
    ensures value.None? || value.value == "" ==> r == fallback
  {
    if value.Some? && value.value != "" then value.value else fallback
  }

  /** `value || fallback` for a number property: missing and zero both fall back. */
  function NumberOr(value: Option<real>, fallback: real): (r: real)
    ensures value.Some? && value.value != 0.0 ==> r == value.value
    ensures value.None? || value.value == 0.0 ==> r == fallback
  {
    if value.Some? && value.value != 0.0 then value.value else fallback
  }

  /** `new Paint(options)` */
  function NewPaint(o: PaintOptions): (p: Paint)
    ensures p.color != "" && p.strokeWidth != 0.0 && p.style != "" && p.strokeCap != "" && p.strokeJoin != ""
    ensures p.opacity == (if o.opacity.Some? then o.opacity.value else 1.0)
    ensures p.dashArray == o.dashArray
  {
    Paint(
      TextOr(o.color, "#FF0000"),
      NumberOr(o.strokeWidth, 4.0),
      TextOr(o.style, "stroke"),
      if o.opacity.Some? then o.opacity.value else 1.0,
      TextOr(o.strokeCap, "round"),
      TextOr(o.strokeJoin, "round"),
      o.dashArray)
  }

  /** Every property of a paint, supplied as an option. */
  function OptionsOf(p: Paint): PaintOptions {
    PaintOptions(Some(p.color), Some(p.strokeWidth), Some(p.style), Some(p.opacity), Some(p.strokeCap), Some(p.strokeJoin), p.dashArray)
  }

  /**
    A paint built from another paint's properties is that paint: the defaults only fill in
    what is missing or falsy, and a constructed paint has nothing falsy left but its
    opacity, which is compared with `undefined` alone (so an opacity of 0 is kept).
  */
  lemma PaintRebuilt(o: PaintOptions)
    ensures NewPaint(OptionsOf(NewPaint(o))) == NewPaint(o)
  {
  }

  /** With no options at all, every property takes its default. */
  lemma PaintDefaults()
    ensures NewPaint(NoOptions) == Paint("#FF0000", 4.0, "stroke", 1.0, "round", "round", None)
  {
  }

  /** `Paint.stroke(color, width)`; the default width 4 is passed by the caller. */
  function Stroke(color: Option<string>, width: real): (p: Paint)
    ensures p.style == "stroke" && p.opacity == 1.0 && p.dashArray == None
    ensures p.strokeWidth == (if width == 0.0 then 4.0 else width)
    ensures p.color == (if color.Some? && color.value != "" then color.value else "#FF0000")
  {
    NewPaint(NoOptions.(color := color, strokeWidth := Some(width), style := Some("stroke")))
  }

  /** `Paint.fill(color)` */
  function Fill(color: Option<string>): (p: Paint)
    ensures p.style == "fill" && p.strokeWidth == 4.0 && p.opacity == 1.0 && p.dashArray == None
    ensures p.color == (if color.Some? && color.value != "" then color.value else "#FF0000")
  {
    NewPaint(NoOptions.(color := color, style := Some("fill")))
  }

  // ---------------------------------------------------------------------------------------
  // Path commands and their text
  // ---------------------------------------------------------------------------------------

  /** The recorded commands: `{ type: 'M', x, y }` and the rest. */
  datatype Command =
    | MoveCmd(x: real, y: real)
    | LineCmd(x: real, y: real)
    | QuadCmd(x1: real, y1: real, x: real, y: real)
    | CubicCmd(x1: real, y1: real, x2: real, y2: real, x: real, y: real)
    | CloseCmd

  /** The template literal of one command. */
  function Part(c: Command, fmt: real -> string): string {
    match c
    case MoveCmd(x, y) => "M " + fmt(x) + " " + fmt(y)
    case LineCmd(x, y) => "L " + fmt(x) + " " + fmt(y)
    case QuadCmd(x1, y1, x, y) => "Q " + fmt(x1) + " " + fmt(y1) + " " + fmt(x) + " " + fmt(y)
    case CubicCmd(x1, y1, x2, y2, x, y) => "C " + fmt(x1) + " " + fmt(y1) + " " + fmt(x2) + " " + fmt(y2) + " " + fmt(x) + " " + fmt(y)
    case CloseCmd => "Z"
  }

  /** The words of a command: its letter, then its numbers in the order SVG path data wants them. */
  function Words(c: Command, fmt: real -> string): (r: seq<string>)
    ensures |r| > 0
  {
    match c
    case MoveCmd(x, y) => ["M", fmt(x), fmt(y)]
    case LineCmd(x, y) => ["L", fmt(x), fmt(y)]
    case QuadCmd(x1, y1, x, y) => ["Q", fmt(x1), fmt(y1), fmt(x), fmt(y)]
    case CubicCmd(x1, y1, x2, y2, x, y) => ["C", fmt(x1), fmt(y1), fmt(x2), fmt(y2), fmt(x), fmt(y)]
    case CloseCmd => ["Z"]
  }

  /** `parts.join(' ')` */
  function JoinSpaces(ws: seq<string>): string {
    if |ws| == 0 then ""
    else if |ws| == 1 then ws[0]
    else ws[0] + " " + JoinSpaces(ws[1..])
  }

  /** `commands` mapped to their parts. */
  function Parts(cmds: seq<Command>, fmt: real -> string): (r: seq<string>)
    ensures |r| == |cmds|
  {
    seq(|cmds|, k requires 0 <= k < |cmds| => Part(cmds[k], fmt))
  }

  /** What `toSVGPathString()` returns for these commands. */
  function SvgString(cmds: seq<Command>, fmt: real -> string): string {
    JoinSpaces(Parts(cmds, fmt))
  }

  /** The words of all commands, in command order. */
  function AllWords(cmds: seq<Command>, fmt: real -> string): seq<string> {
    if cmds == [] then [] else Words(cmds[0], fmt) + AllWords(cmds[1..], fmt)
  }

  /** `s.split(' ')` */
  function SplitSpaces(s: string): (r: seq<string>)
    ensures |r| > 0
    decreases |s|
  {
    if ' ' !in s then [s]
    else
      var i := FirstSpace(s);
      [s[..i]] + SplitSpaces(s[i + 1..])
  }

  function FirstSpace(s: string): (i: nat)
    requires ' ' in s
    ensures i < |s| && s[i] == ' ' && ' ' !in s[..i]
  {
    if s[0] == ' ' then 0 else 1 + FirstSpace(s[1..])
  }

  predicate Spaceless(w: string) {
    ' ' !in w
  }

  /** Number text never holds a space. */
  ghost predicate SpacelessFormat(fmt: real -> string) {
    forall r :: Spaceless(fmt(r))
  }

  lemma {:induction false} JoinAppend(a: seq<string>, b: seq<string>)
    requires |a| > 0 && |b| > 0
    ensures JoinSpaces(a + b) == JoinSpaces(a) + " " + JoinSpaces(b)
    decreases |a|
  {
    if |a| == 1 {
      assert (a + b)[1..] == b;
    } else {
      JoinAppend(a[1..], b);
      assert (a + b)[1..] == a[1..] + b;
    }
  }

  /** One command's part is its words separated by single spaces. */
  lemma JoinSnoc(ws: seq<string>, w: string)
    requires |ws| > 0
    ensures JoinSpaces(ws + [w]) == JoinSpaces(ws) + " " + w
  {
    JoinAppend(ws, [w]);
  }

  lemma PartIsWords(c: Command, fmt: real -> string)
    ensures Part(c, fmt) == JoinSpaces(Words(c, fmt))
  {
    match c {
      case MoveCmd(x, y) =>
        JoinSnoc(["M"], fmt(x));
        assert ["M"] + [fmt(x)] == ["M", fmt(x)];
        JoinSnoc(["M", fmt(x)], fmt(y));
        assert ["M", fmt(x)] + [fmt(y)] == ["M", fmt(x), fmt(y)];
        assert "M" + " " == "M ";
      case LineCmd(x, y) =>
        JoinSnoc(["L"], fmt(x));
        assert ["L"] + [fmt(x)] == ["L", fmt(x)];
        JoinSnoc(["L", fmt(x)], fmt(y));
        assert ["L", fmt(x)] + [fmt(y)] == ["L", fmt(x), fmt(y)];
        assert "L" + " " == "L ";
      case QuadCmd(x1, y1, x, y) =>
        JoinSnoc(["Q"], fmt(x1));
        assert ["Q"] + [fmt(x1)] == ["Q", fmt(x1)];
        JoinSnoc(["Q", fmt(x1)], fmt(y1));
        assert ["Q", fmt(x1)] + [fmt(y1)] == ["Q", fmt(x1), fmt(y1)];
        JoinSnoc(["Q", fmt(x1), fmt(y1)], fmt(x));
        assert ["Q", fmt(x1), fmt(y1)] + [fmt(x)] == ["Q", fmt(x1), fmt(y1), fmt(x)];
        JoinSnoc(["Q", fmt(x1), fmt(y1), fmt(x)], fmt(y));
        assert ["Q", fmt(x1), fmt(y1), fmt(x)] + [fmt(y)] == ["Q", fmt(x1), fmt(y1), fmt(x), fmt(y)];
        assert "Q" + " " == "Q ";
      case CubicCmd(x1, y1, x2, y2, x, y) =>
        JoinSnoc(["C"], fmt(x1));
        assert ["C"] + [fmt(x1)] == ["C", fmt(x1)];
        JoinSnoc(["C", fmt(x1)], fmt(y1));
        assert ["C", fmt(x1)] + [fmt(y1)] == ["C", fmt(x1), fmt(y1)];
        JoinSnoc(["C", fmt(x1), fmt(y1)], fmt(x2));
        assert ["C", fmt(x1), fmt(y1)] + [fmt(x2)] == ["C", fmt(x1), fmt(y1), fmt(x2)];
        JoinSnoc(["C", fmt(x1), fmt(y1), fmt(x2)], fmt(y2));
        assert ["C", fmt(x1), fmt(y1), fmt(x2)] + [fmt(y2)] == ["C", fmt(x1), fmt(y1), fmt(x2), fmt(y2)];
        JoinSnoc(["C", fmt(x1), fmt(y1), fmt(x2), fmt(y2)], fmt(x));
        assert ["C", fmt(x1), fmt(y1), fmt(x2), fmt(y2)] + [fmt(x)] == ["C", fmt(x1), fmt(y1), fmt(x2), fmt(y2), fmt(x)];
        JoinSnoc(["C", fmt(x1), fmt(y1), fmt(x2), fmt(y2), fmt(x)], fmt(y));
        assert ["C", fmt(x1), fmt(y1), fmt(x2), fmt(y2), fmt(x)] + [fmt(y)] == ["C", fmt(x1), fmt(y1), fmt(x2), fmt(y2), fmt(x), fmt(y)];
        assert "C" + " " == "C ";
      case CloseCmd =>
    }
  }

  /** The whole path string is the words of all commands, separated by single spaces. */
  lemma {:induction false} SvgStringIsWords(cmds: seq<Command>, fmt: real -> string)
    ensures SvgString(cmds, fmt) == JoinSpaces(AllWords(cmds, fmt))
    decreases |cmds|
  {
    if cmds != [] {
      var rest := cmds[1..];
      SvgStringIsWords(rest, fmt);
      PartIsWords(cmds[0], fmt);
      var ps := Parts(cmds, fmt);
      assert ps[1..] == Parts(rest, fmt);
      if rest == [] {
        assert AllWords(cmds, fmt) == Words(cmds[0], fmt) + [];
        assert Words(cmds[0], fmt) + [] == Words(cmds[0], fmt);
      } else {
        assert AllWords(rest, fmt) != [] by {
          assert |Words(rest[0], fmt)| > 0;
        }
        JoinAppend(Words(cmds[0], fmt), AllWords(rest, fmt));
      }
    }
  }

  /** Splitting at spaces undoes joining with spaces, when no word holds a space. */
  lemma {:induction false} SplitJoin(ws: seq<string>)
    requires |ws| > 0
    requires forall k :: 0 <= k < |ws| ==> Spaceless(ws[k])
    ensures SplitSpaces(JoinSpaces(ws)) == ws
    decreases |ws|
  {
    if |ws| > 1 {
      var s := JoinSpaces(ws);
      var w := ws[0];
      assert s == w + " " + JoinSpaces(ws[1..]);
      assert s[|w|] == ' ';
      assert ' ' in s;
      assert s[..|w|] == w;
      var i := FirstSpace(s);
      assert forall k :: 0 <= k < |w| ==> s[k] != ' ' by {
        assert forall k :: 0 <= k < |w| ==> s[k] == w[k];
      }
      assert forall k :: 0 <= k < i ==> s[k] != ' ' by {
        assert forall k :: 0 <= k < i ==> s[k] == s[..i][k];
      }
      assert i == |w|;
      assert s[i + 1..] == JoinSpaces(ws[1..]);
      SplitJoin(ws[1..]);
    }
  }

  /** Every word of every command is formatted text or a command letter, so none holds a space. */
  lemma {:induction false} AllWordsSpaceless(cmds: seq<Command>, fmt: real -> string)
    requires SpacelessFormat(fmt)
    ensures forall k :: 0 <= k < |AllWords(cmds, fmt)| ==> Spaceless(AllWords(cmds, fmt)[k])
    decreases |cmds|
  {
    if cmds != [] {
      AllWordsSpaceless(cmds[1..], fmt);
      var ws := Words(cmds[0], fmt);
      assert forall k :: 0 <= k < |ws| ==> Spaceless(ws[k]);
    }
  }

  /**
    The path string can be read back: split at single spaces it gives, command by command
    and in order, each command's letter followed by its formatted numbers. An empty path
    gives the empty string.
  */
  lemma SvgStringReadsBack(cmds: seq<Command>, fmt: real -> string)
    requires SpacelessFormat(fmt)
    ensures cmds == [] ==> SvgString(cmds, fmt) == ""
    ensures cmds != [] ==> SplitSpaces(SvgString(cmds, fmt)) == AllWords(cmds, fmt)
  {
    SvgStringIsWords(cmds, fmt);
    if cmds != [] {
      assert |Words(cmds[0], fmt)| > 0;
      AllWordsSpaceless(cmds, fmt);
      SplitJoin(AllWords(cmds, fmt));
    }
  }

  /** Where a command leaves the pen; `Z` leaves it where it was. */
  function EndPoint(c: Command, at: (real, real)): (real, real) {
    if c.CloseCmd? then at else (c.x, c.y)
  }

  /** `addPolyline(points)` for a non-empty list: one `M` to the first point and an `L` to each further point. */
  function PolylineCommands(points: seq<(real, real)>): (r: seq<Command>)
    requires |points| > 0
    ensures |r| == |points| && r[0].MoveCmd?
    ensures forall k :: 1 <= k < |r| ==> r[k].LineCmd?
    ensures forall k :: 0 <= k < |r| ==> r[k].x == points[k].0 && r[k].y == points[k].1
  {
    [MoveCmd(points[0].0, points[0].1)] + seq(|points| - 1, k requires 0 <= k < |points| - 1 => LineCmd(points[k + 1].0, points[k + 1].1))
  }

  /** The polyline of a prefix of the points is a prefix of the polyline. */
  lemma PolylinePrefix(points: seq<(real, real)>, i: nat)
    requires 0 < i < |points|
    ensures PolylineCommands(points[..i + 1]) == PolylineCommands(points[..i]) + [LineCmd(points[i].0, points[i].1)]
  {
    var a := PolylineCommands(points[..i + 1]);
    var b := PolylineCommands(points[..i]) + [LineCmd(points[i].0, points[i].1)];
    assert |a| == |b|;
    forall k | 0 <= k < |a|
      ensures a[k] == b[k]
    {
      if k == 0 {
      } else if k < i {
        assert a[k] == LineCmd(points[k].0, points[k].1);
      }
    }
  }

  // ---------------------------------------------------------------------------------------
  // The path builder
  // ---------------------------------------------------------------------------------------

  /** `class Path`: the recorded commands and the current point. */
  class Path {
    var commands: seq<Command>
    var currentX: real
    var currentY: real

    /** `new Path()` */
    constructor()
      ensures commands == [] && currentX == 0.0 && currentY == 0.0
    {
      commands := [];
      currentX := 0.0;
      currentY := 0.0;
    }

    /** `moveTo(x, y)` */
    method MoveTo(x: real, y: real)
      modifies this
      ensures commands == old(commands) + [MoveCmd(x, y)]
      ensures currentX == x && currentY == y
    {
      commands := commands + [MoveCmd(x, y)];
      currentX := x;
      currentY := y;
    }

    /** `lineTo(x, y)` */
    method LineTo(x: real, y: real)
      modifies this
      ensures commands == old(commands) + [LineCmd(x, y)]
      ensures currentX == x && currentY == y
    {
      commands := commands + [LineCmd(x, y)];
      currentX := x;
      currentY := y;
    }

    /** `quadraticBezierTo(controlX, controlY, endX, endY)` */
    method QuadraticBezierTo(controlX: real, controlY: real, endX: real, endY: real)
      modifies this
      ensures commands == old(commands) + [QuadCmd(controlX, controlY, endX, endY)]
      ensures currentX == endX && currentY == endY
    {
      commands := commands + [QuadCmd(controlX, controlY, endX, endY)];
      currentX := endX;
      currentY := endY;
    }

    /** `cubicBezierTo(controlX1, controlY1, controlX2, controlY2, endX, endY)` */
    method CubicBezierTo(controlX1: real, controlY1: real, controlX2: real, controlY2: real, endX: real, endY: real)
      modifies this
      ensures commands == old(commands) + [CubicCmd(controlX1, controlY1, controlX2, controlY2, endX, endY)]
      ensures currentX == endX && currentY == endY
    {
      commands := commands + [CubicCmd(controlX1, controlY1, controlX2, controlY2, endX, endY)];
      currentX := endX;
      currentY := endY;
    }

    /** `close()`: the current point is left where it is. */
    method Close()
      modifies this
      ensures commands == old(commands) + [CloseCmd]
      ensures currentX == old(currentX) && currentY == old(currentY)
    {
      commands := commands + [CloseCmd];
    }

    /** `addPolyline(points)`: nothing for no points, otherwise the polyline, ending at the last point. */
    method AddPolyline(points: seq<(real, real)>)
      modifies this
      ensures points == [] ==> commands == old(commands) && currentX == old(currentX) && currentY == old(currentY)
      ensures points != [] ==> commands == old(commands) + PolylineCommands(points)
      ensures points != [] ==> (currentX, currentY) == points[|points| - 1]
    {
      if |points| == 0 {
        return;
      }
      MoveTo(points[0].0, points[0].1);
      assert commands == old(commands) + PolylineCommands(points[..1]);
      for i := 1 to |points|
        invariant commands == old(commands) + PolylineCommands(points[..i])
        invariant (currentX, currentY) == points[i - 1]
      {
        LineTo(points[i].0, points[i].1);
        PolylinePrefix(points, i);
      }
      assert points[..|points|] == points;
    }

    /** `toSVGPathString()`: each command's part, in order, separated by single spaces. */
    method ToSVGPathString(fmt: real -> string) returns (s: string)
      ensures s == SvgString(commands, fmt)
      ensures commands == [] ==> s == ""
    {
      var parts: seq<string> := [];
      for k := 0 to |commands|
        invariant parts == Parts(commands[..k], fmt)
      {
        parts := parts + [Part(commands[k], fmt)];
      }
      assert commands[..|commands|] == commands;
      s := JoinSpaces(parts);
    }

    /** `reset()` */
    method Reset()
      modifies this
      ensures commands == [] && currentX == 0.0 && currentY == 0.0
    {
      commands := [];
      currentX := 0.0;
      currentY := 0.0;
    }
  }
}
