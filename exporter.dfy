/**
 * exporter.rb: the SVG text the exporter writes (colour, path data, path
 * elements, the document around them) and the scale it remembers between
 * exports. Coordinates and transformations are opaque: a transformation is
 * a function on points, and `format_length` (SketchUp's millimetre
 * conversion and float printing) is a function from lengths to text.
 */
module Exporter {
  import opened Wrappers
  import opened Text
  import opened Scales
  import opened Scene
  import opened InstancePathHelper
  import opened Traverser
  import ScaleProperties

  /** `format_length`: `length.to_mm.to_s`. */
  type LengthFormat = real -> string

  /** A transformation from an entity's local space to paper space. */
  type Transformation = Point -> Point

  // ---------------------------------------------------------------------------
  // Counting characters
  // ---------------------------------------------------------------------------

  function CountChar(s: string, c: char): nat
    decreases |s|
  {
    if s == [] then 0 else (if s[0] == c then 1 else 0) + CountChar(s[1..], c)
  }

  lemma {:induction false} CountJoin(a: string, b: string, c: char)
    ensures CountChar(a + b, c) == CountChar(a, c) + CountChar(b, c)
    decreases |a|
  {
    if a != [] {
      assert (a + b)[0] == a[0] && (a + b)[1..] == a[1..] + b;
      CountJoin(a[1..], b, c);
    } else {
      assert a + b == b;
    }
  }

  lemma {:induction false} CountAbsent(s: string, c: char)
    requires c !in s
    ensures CountChar(s, c) == 0
    decreases |s|
  {
    if s != [] {
      CountAbsent(s[1..], c);
    }
  }

  /**
   * What `format_length` can print: Ruby's `Float#to_s` writes digits,
   * signs, '.', 'e', "Infinity" or "NaN", never a path command letter, a
   * double quote or a line break.
   */
  predicate NumberText(t: string)
  {
    'M' !in t && 'L' !in t && '"' !in t && '\n' !in t
  }

  ghost predicate PrintsNumbers(formatLength: LengthFormat)
  {
    forall x: real :: NumberText(formatLength(x))
  }

  // ---------------------------------------------------------------------------
  // format_color
  // ---------------------------------------------------------------------------

  /** One digit of `format("%02x")`: lower-case. */
  function HexDigit(d: nat): char
    requires d < 16
  {
    if d < 10 then DigitChar(d) else ('a' as int + d - 10) as char
  }

  /** `format("%02x", n)` for a channel: two lower-case hex digits. */
  function Format02x(n: Channel): (s: string)
    ensures |s| == 2
  {
    [HexDigit(n / 16), HexDigit(n % 16)]
  }

  /** `String#upcase` on ASCII text. */
  function UpcaseChar(c: char): char
  {
    if 'a' <= c <= 'z' then (c as int - 32) as char else c
  }

  function Upcase(s: string): (r: string)
    ensures |r| == |s| && forall i | 0 <= i < |s| :: r[i] == UpcaseChar(s[i])
    decreases |s|
  {
    if s == [] then [] else [UpcaseChar(s[0])] + Upcase(s[1..])
  }

  predicate IsUpperHex(c: char)
  {
    '0' <= c <= '9' || 'A' <= c <= 'F'
  }

  function HexValue(c: char): (d: nat)
    requires IsUpperHex(c)
    ensures d < 16
  {
    if c <= '9' then c as int - '0' as int else c as int - 'A' as int + 10
  }

  /** `format_color`: "#" and the red, green and blue channels as upper-case hex; alpha is dropped. */
  function FormatColor(color: Color): (s: string)
    ensures |s| == 7 && s[0] == '#'
    ensures forall i | 1 <= i < 7 :: IsUpperHex(s[i])
    ensures 16 * HexValue(s[1]) + HexValue(s[2]) == color.red
    ensures 16 * HexValue(s[3]) + HexValue(s[4]) == color.green
    ensures 16 * HexValue(s[5]) + HexValue(s[6]) == color.blue
  {
    var hex := Format02x(color.red) + Format02x(color.green) + Format02x(color.blue);
    ColorDigits(color, hex);
    "#" + Upcase(hex)
  }

  /** The two upper-case digits of a channel read back as the channel. */
  lemma ChannelDigits(n: Channel)
    ensures var u := Upcase(Format02x(n));
      IsUpperHex(u[0]) && IsUpperHex(u[1]) && 16 * HexValue(u[0]) + HexValue(u[1]) == n
  {
  }

  lemma ColorDigits(color: Color, hex: string)
    requires hex == Format02x(color.red) + Format02x(color.green) + Format02x(color.blue)
    ensures var s := "#" + Upcase(hex);
      |s| == 7 && s[0] == '#' && (forall i | 1 <= i < 7 :: IsUpperHex(s[i]))
      && 16 * HexValue(s[1]) + HexValue(s[2]) == color.red
      && 16 * HexValue(s[3]) + HexValue(s[4]) == color.green
      && 16 * HexValue(s[5]) + HexValue(s[6]) == color.blue
  {
    ChannelDigits(color.red);
    ChannelDigits(color.green);
    ChannelDigits(color.blue);
    var s := "#" + Upcase(hex);
    assert s[1] == Upcase(Format02x(color.red))[0] && s[2] == Upcase(Format02x(color.red))[1];
    assert s[3] == Upcase(Format02x(color.green))[0] && s[4] == Upcase(Format02x(color.green))[1];
    assert s[5] == Upcase(Format02x(color.blue))[0] && s[6] == Upcase(Format02x(color.blue))[1];
  }

  /** Reads a colour written as "#RRGGBB" in upper-case hex. */
  function ParseColor(s: string): Option<(Channel, Channel, Channel)>
  {
    if |s| == 7 && s[0] == '#' && forall i | 1 <= i < 7 :: IsUpperHex(s[i]) then
      Some((16 * HexValue(s[1]) + HexValue(s[2]),
            16 * HexValue(s[3]) + HexValue(s[4]),
            16 * HexValue(s[5]) + HexValue(s[6])))
    else None
  }

  /** The colour text reads back as the colour's red, green and blue. */
  lemma ColorRoundTrip(color: Color)
    ensures ParseColor(FormatColor(color)) == Some((color.red, color.green, color.blue))
  {
  }

  lemma HexValueInjective(c: char, d: char)
    requires IsUpperHex(c) && IsUpperHex(d) && HexValue(c) == HexValue(d)
    ensures c == d
  {
  }

  /** Every "#RRGGBB" text is the colour text of the channels it reads as, whatever the alpha. */
  lemma ColorTextUnique(s: string, alpha: Channel)
    requires ParseColor(s).Some?
    ensures var rgb := ParseColor(s).value; FormatColor(Color(rgb.0, rgb.1, rgb.2, alpha)) == s
  {
    var rgb := ParseColor(s).value;
    var t := FormatColor(Color(rgb.0, rgb.1, rgb.2, alpha));
    SameDigits(t[1], t[2], s[1], s[2]);
    SameDigits(t[3], t[4], s[3], s[4]);
    SameDigits(t[5], t[6], s[5], s[6]);
    assert forall i | 0 <= i < 7 :: t[i] == s[i];
  }

  /** Two upper-case digit pairs with the same value are the same digits. */
  lemma SameDigits(hi: char, lo: char, hi': char, lo': char)
    requires IsUpperHex(hi) && IsUpperHex(lo) && IsUpperHex(hi') && IsUpperHex(lo')
    requires 16 * HexValue(hi) + HexValue(lo) == 16 * HexValue(hi') + HexValue(lo')
    ensures hi == hi' && lo == lo'
  {
    HexValueInjective(hi, hi');
    HexValueInjective(lo, lo');
  }

  // ---------------------------------------------------------------------------
  // svg_path
  // ---------------------------------------------------------------------------

  /** "L x y" for one vertex, at its place on paper. */
  function LineTo(vertex: Point, transform: Transformation, formatLength: LengthFormat): string
  {
    var position := transform(vertex);
    "L " + formatLength(position.x) + " " + formatLength(position.y)
  }

  /** `loop.vertices.map { … }`: one line command per vertex. */
  function LineCommands(loop: seq<Point>, transform: Transformation, formatLength: LengthFormat): (commands: seq<string>)
    ensures |commands| == |loop|
    ensures forall i | 0 <= i < |loop| :: commands[i] == LineTo(loop[i], transform, formatLength)
    decreases |loop|
  {
    if loop == [] then [] else [LineTo(loop[0], transform, formatLength)] + LineCommands(loop[1..], transform, formatLength)
  }

  /** `Array#join(separator)`. */
  function Join(parts: seq<string>, separator: string): string
    decreases |parts|
  {
    if parts == [] then ""
    else if |parts| == 1 then parts[0]
    else parts[0] + separator + Join(parts[1..], separator)
  }

  /** `d[0] = "M"`: the first character becomes "M"; an empty string becomes "M". */
  function ReplaceFirst(s: string, c: char): (r: string)
    ensures |r| > 0 && r[0] == c
    ensures s == [] ==> r == [c]
    ensures s != [] ==> |r| == |s| && r[1..] == s[1..]
  {
    if s == [] then [c] else [c] + s[1..]
  }

  /** The path data of one loop: a move to the first vertex, then lines to the others. */
  function LoopData(loop: seq<Point>, transform: Transformation, formatLength: LengthFormat): string
  {
    ReplaceFirst(Join(LineCommands(loop, transform, formatLength), " "), 'M')
  }

  /**
   * A loop's data starts by moving to its first vertex's place on paper:
   * "M x y", with the coordinates of the transformed vertex.
   */
  lemma LoopDataStart(loop: seq<Point>, transform: Transformation, formatLength: LengthFormat)
    requires |loop| > 0
    ensures var position := transform(loop[0]);
      var move := "M " + formatLength(position.x) + " " + formatLength(position.y);
      var d := LoopData(loop, transform, formatLength);
      |d| >= |move| && d[..|move|] == move
  {
    var commands := LineCommands(loop, transform, formatLength);
    var first := LineTo(loop[0], transform, formatLength);
    var position := transform(loop[0]);
    var j := Join(commands, " ");
    assert commands[0] == first;
    assert |j| >= |first| && j[..|first|] == first by {
      if |commands| > 1 {
        assert j == first + (" " + Join(commands[1..], " "));
      }
    }
    var d := ReplaceFirst(j, 'M');
    var move := "M " + formatLength(position.x) + " " + formatLength(position.y);
    assert first == "L " + formatLength(position.x) + " " + formatLength(position.y);
    assert |move| == |first|;
    assert d[..|move|] == move by {
      forall i | 0 <= i < |move| ensures d[i] == move[i] {
        if i > 0 {
          assert d[i] == j[i] == first[i];
        }
      }
    }
  }

  /** The `d` attribute of a face: the loops' path data one after another, with no separator. */
  function PathData(loops: seq<seq<Point>>, transform: Transformation, formatLength: LengthFormat): string
    decreases |loops|
  {
    if loops == [] then ""
    else PathData(loops[..|loops| - 1], transform, formatLength) + LoopData(loops[|loops| - 1], transform, formatLength)
  }

  /** The `<path>` element `svg_path` returns for a face. */
  function PathElement(face: Entity, transform: Transformation, formatLength: LengthFormat, color: Color): string
  {
    "<path" + (Attribute("d", PathData(face.Loops(), transform, formatLength))
      + (Attribute("fill", FormatColor(color)) + " />\n"))
  }

  /** `svg_path`: the outer loop's data, then each inner loop's appended in turn. */
  method SvgPath(face: Entity, transform: Transformation, formatLength: LengthFormat, color: Color) returns (svg: string)
    ensures svg == PathElement(face, transform, formatLength, color)
  {
    var loops := face.Loops();
    var d := Join(LineCommands(face.outerLoop, transform, formatLength), " ");
    // The first command moves to the first vertex instead of drawing a line to it.
    d := ReplaceFirst(d, 'M');
    assert loops[..1] == [face.outerLoop];
    var i := 0;
    while i < |face.innerLoops|
      invariant 0 <= i <= |face.innerLoops|
      invariant d == PathData(loops[..i + 1], transform, formatLength)
    {
      var inner := Join(LineCommands(face.innerLoops[i], transform, formatLength), " ");
      inner := ReplaceFirst(inner, 'M');
      assert inner == LoopData(loops[i + 1], transform, formatLength);
      PathDataNext(loops, i + 1, transform, formatLength);
      d := d + inner;
      i := i + 1;
    }
    assert loops[..i + 1] == loops;
    svg := "<path" + (Attribute("d", d) + (Attribute("fill", FormatColor(color)) + " />\n"));
  }

  /** One more loop appends its data. */
  lemma PathDataNext(loops: seq<seq<Point>>, k: nat, transform: Transformation, formatLength: LengthFormat)
    requires k < |loops|
    ensures PathData(loops[..k + 1], transform, formatLength)
      == PathData(loops[..k], transform, formatLength) + LoopData(loops[k], transform, formatLength)
  {
    assert loops[..k + 1][..k] == loops[..k];
  }

  /** The number of vertices over all loops. */
  function TotalVertices(loops: seq<seq<Point>>): nat
    decreases |loops|
  {
    if loops == [] then 0 else TotalVertices(loops[..|loops| - 1]) + |loops[|loops| - 1]|
  }

  lemma LineToCounts(vertex: Point, transform: Transformation, formatLength: LengthFormat)
    requires PrintsNumbers(formatLength)
    ensures var t := LineTo(vertex, transform, formatLength);
      t[0] == 'L' && CountChar(t, 'L') == 1 && CountChar(t, 'M') == 0 && '"' !in t && '\n' !in t
  {
    var position := transform(vertex);
    var x := formatLength(position.x);
    var y := formatLength(position.y);
    assert NumberText(x) && NumberText(y);
    CountAbsent(x, 'L');
    CountAbsent(x, 'M');
    CountAbsent(y, 'L');
    CountAbsent(y, 'M');
    CommandCounts("L ", x, " ", y);
  }

  lemma CommandCounts(command: string, x: string, space: string, y: string)
    requires command == "L " && space == " "
    requires CountChar(x, 'L') == 0 && CountChar(x, 'M') == 0 && CountChar(y, 'L') == 0 && CountChar(y, 'M') == 0
    ensures CountChar(command + x + space + y, 'L') == 1 && CountChar(command + x + space + y, 'M') == 0
    ensures (command + x + space + y)[0] == 'L'
  {
    CountJoin(command + x + space, y, 'L');
    CountJoin(command + x + space, y, 'M');
    CountJoin(command + x, space, 'L');
    CountJoin(command + x, space, 'M');
    CountJoin(command, x, 'L');
    CountJoin(command, x, 'M');
  }

  /** Joined with spaces, n line commands hold n 'L's, no 'M', no quote and no line break. */
  lemma {:induction false} JoinCounts(loop: seq<Point>, transform: Transformation, formatLength: LengthFormat)
    requires PrintsNumbers(formatLength)
    ensures var j := Join(LineCommands(loop, transform, formatLength), " ");
      CountChar(j, 'L') == |loop| && CountChar(j, 'M') == 0 && '"' !in j && '\n' !in j
      && (|loop| > 0 ==> j[0] == 'L')
    decreases |loop|
  {
    if loop != [] {
      var commands := LineCommands(loop, transform, formatLength);
      var first := LineTo(loop[0], transform, formatLength);
      LineToCounts(loop[0], transform, formatLength);
      if |loop| > 1 {
        var rest := Join(LineCommands(loop[1..], transform, formatLength), " ");
        JoinCounts(loop[1..], transform, formatLength);
        assert commands[1..] == LineCommands(loop[1..], transform, formatLength);
        assert Join(commands, " ") == first + (" " + rest);
        CountJoin(first, " " + rest, 'L');
        CountJoin(first, " " + rest, 'M');
        CountJoin(" ", rest, 'L');
        CountJoin(" ", rest, 'M');
      }
    }
  }

  /** One loop's data holds exactly one 'M' and a line command for every vertex but the first. */
  lemma LoopCounts(loop: seq<Point>, transform: Transformation, formatLength: LengthFormat)
    requires PrintsNumbers(formatLength)
    ensures var d := LoopData(loop, transform, formatLength);
      d[0] == 'M' && CountChar(d, 'M') == 1 && CountChar(d, 'L') == (if loop == [] then 0 else |loop| - 1)
      && '"' !in d && '\n' !in d
  {
    var j := Join(LineCommands(loop, transform, formatLength), " ");
    JoinCounts(loop, transform, formatLength);
    if j != [] {
      assert j == [j[0]] + j[1..];
      CountJoin([j[0]], j[1..], 'L');
      CountJoin([j[0]], j[1..], 'M');
      CountJoin(['M'], j[1..], 'L');
      CountJoin(['M'], j[1..], 'M');
    }
  }

  /**
   * The path data holds one "M" per loop, so one sub-path per loop, and when
   * no loop is empty one command per vertex.
   */
  lemma {:induction false} PathCounts(loops: seq<seq<Point>>, transform: Transformation, formatLength: LengthFormat)
    requires PrintsNumbers(formatLength)
    ensures var d := PathData(loops, transform, formatLength);
      CountChar(d, 'M') == |loops| && '"' !in d && '\n' !in d
      && ((forall i | 0 <= i < |loops| :: |loops[i]| > 0) ==>
            CountChar(d, 'M') + CountChar(d, 'L') == TotalVertices(loops))
    decreases |loops|
  {
    if loops != [] {
      var init := loops[..|loops| - 1];
      var last := loops[|loops| - 1];
      PathCounts(init, transform, formatLength);
      LoopCounts(last, transform, formatLength);
      var a := PathData(init, transform, formatLength);
      var b := LoopData(last, transform, formatLength);
      CountJoin(a, b, 'M');
      CountJoin(a, b, 'L');
      assert forall i | 0 <= i < |init| :: init[i] == loops[i];
    }
  }

  // ---------------------------------------------------------------------------
  // Attributes
  // ---------------------------------------------------------------------------

  /**
   * The pieces of `s` between double quotes, in order: for a tag whose
   * values hold no quote, the attribute names and values alternate.
   */
  function SplitQuotes(s: string): (parts: seq<string>)
    ensures |parts| >= 1
    decreases |s|
  {
    if s == [] then [""]
    else
      var rest := SplitQuotes(s[1..]);
      if s[0] == '"' then [""] + rest else [[s[0]] + rest[0]] + rest[1..]
  }

  /** Text with no quote in front of `b` joins the first piece of `b`. */
  lemma {:induction false} SplitQuotesPrefix(a: string, b: string)
    requires '"' !in a
    ensures SplitQuotes(a + b) == [a + SplitQuotes(b)[0]] + SplitQuotes(b)[1..]
    decreases |a|
  {
    if a == [] {
      var parts := SplitQuotes(b);
      assert a + b == b && a + parts[0] == parts[0];
      assert [parts[0]] + parts[1..] == parts;
    } else {
      assert (a + b)[0] == a[0] && (a + b)[1..] == a[1..] + b;
      SplitQuotesPrefix(a[1..], b);
      assert [a[0]] + (a[1..] + SplitQuotes(b)[0]) == a + SplitQuotes(b)[0];
    }
  }

  lemma SplitQuotesPlain(a: string)
    requires '"' !in a
    ensures SplitQuotes(a) == [a]
  {
    SplitQuotesPrefix(a, "");
    assert a + "" == a;
  }

  lemma SplitQuotesJoin(a: string, b: string)
    requires '"' !in a
    ensures SplitQuotes(a + ("\"" + b)) == [a] + SplitQuotes(b)
  {
    var qb := "\"" + b;
    assert qb[0] == '"' && qb[1..] == b;
    assert SplitQuotes(qb) == [""] + SplitQuotes(b);
    SplitQuotesPrefix(a, qb);
    assert a + "" == a;
  }

  /** One attribute of a tag: ` name="value"`. */
  function Attribute(name: string, value: string): string
  {
    " " + name + "=\"" + value + "\""
  }

  /** An attribute whose name and value hold no quote splits into its name and its value. */
  lemma SplitAttribute(before: string, name: string, value: string, rest: string)
    requires '"' !in before && '"' !in name && '"' !in value
    ensures SplitQuotes(before + (Attribute(name, value) + rest))
      == [before + " " + name + "=", value] + SplitQuotes(rest)
  {
    var head := before + " " + name + "=";
    assert '"' !in head;
    AttributeText(before, name, value, rest);
    SplitQuotesJoin(value, rest);
    SplitQuotesJoin(head, value + ("\"" + rest));
  }

  lemma AttributeText(before: string, name: string, value: string, rest: string)
    ensures before + (Attribute(name, value) + rest)
      == (before + " " + name + "=") + ("\"" + (value + ("\"" + rest)))
  {
    var a := Attribute(name, value);
    assert a == (" " + name + "=") + ("\"" + (value + "\""));
    assert a + rest == (" " + name + "=") + ("\"" + (value + ("\"" + rest)));
  }

  /** A tag with two quote-free attributes splits into its names and values. */
  lemma TwoAttributes(open: string, n1: string, v1: string, n2: string, v2: string, close: string)
    requires '"' !in open && '"' !in n1 && '"' !in v1 && '"' !in n2 && '"' !in v2 && '"' !in close
    ensures SplitQuotes(open + (Attribute(n1, v1) + (Attribute(n2, v2) + close)))
      == [open + " " + n1 + "=", v1, " " + n2 + "=", v2, close]
  {
    var second := Attribute(n2, v2) + close;
    SplitQuotesPlain(close);
    SplitAttribute("", n2, v2, close);
    assert "" + second == second && "" + " " == " ";
    SplitAttribute(open, n1, v1, second);
  }

  /** A path element's attributes: the path data under `d`, the colour text under `fill`. */
  lemma PathElementAttributes(face: Entity, transform: Transformation, formatLength: LengthFormat, color: Color)
    requires PrintsNumbers(formatLength)
    ensures SplitQuotes(PathElement(face, transform, formatLength, color))
      == ["<path d=", PathData(face.Loops(), transform, formatLength), " fill=", FormatColor(color), " />\n"]
  {
    var d := PathData(face.Loops(), transform, formatLength);
    var fill := FormatColor(color);
    PathCounts(face.Loops(), transform, formatLength);
    ColorText(color);
    TwoAttributes("<path", "d", d, "fill", fill, " />\n");
    assert "<path" + " " + "d" + "=" == "<path d=";
    assert " " + "fill" + "=" == " fill=";
  }

  /** The colour text holds no quote and no line break. */
  lemma ColorText(color: Color)
    ensures '"' !in FormatColor(color) && '\n' !in FormatColor(color)
  {
    var fill := FormatColor(color);
    assert forall i | 1 <= i < 7 :: IsUpperHex(fill[i]);
  }

  /** Each path element is one line of the document. */
  lemma PathElementLines(face: Entity, transform: Transformation, formatLength: LengthFormat, color: Color)
    requires PrintsNumbers(formatLength)
    ensures CountChar(PathElement(face, transform, formatLength, color), '\n') == 1
  {
    var d := PathData(face.Loops(), transform, formatLength);
    PathCounts(face.Loops(), transform, formatLength);
    ColorText(color);
    ElementNewlines(Attribute("d", d), Attribute("fill", FormatColor(color)), " />\n");
  }

  lemma ElementNewlines(first: string, second: string, close: string)
    requires '\n' !in first && '\n' !in second && close == " />" + "\n"
    ensures CountChar("<path" + (first + (second + close)), '\n') == 1
  {
    CountJoin("<path", first + (second + close), '\n');
    CountJoin(first, second + close, '\n');
    CountJoin(second, close, '\n');
    CountJoin(" />", "\n", '\n');
    CountAbsent("<path", '\n');
    CountAbsent(" />", '\n');
    CountAbsent(first, '\n');
    CountAbsent(second, '\n');
  }

  // ---------------------------------------------------------------------------
  // svg_content
  // ---------------------------------------------------------------------------

  /** A path whose last entity is a face; `to_a.last` of an empty path is nil, not a face. */
  predicate IsFacePath(path: InstancePath)
  {
    |path| > 0 && path[|path| - 1].kind == Face
  }

  /** The face paths among `paths`, in order. */
  function FacePaths(paths: seq<InstancePath>): (faces: seq<InstancePath>)
    ensures forall p | p in faces :: p in paths && IsFacePath(p)
    ensures forall p | p in paths && IsFacePath(p) :: p in faces
    decreases |paths|
  {
    if paths == [] then []
    else
      var init := paths[..|paths| - 1];
      var last := paths[|paths| - 1];
      assert paths == init + [last];
      FacePaths(init) + (if IsFacePath(last) then [last] else [])
  }

  /**
   * The content written for the yielded paths, in order: a path element
   * for each face, coloured by its resolved colour, and nothing for any
   * other entity.
   */
  function Content(paths: seq<InstancePath>, placement: InstancePath -> Transformation, formatLength: LengthFormat, faceFrontColor: Color): string
    decreases |paths|
  {
    if paths == [] then ""
    else Content(paths[..|paths| - 1], placement, formatLength, faceFrontColor) + PathContent(paths[|paths| - 1], placement, formatLength, faceFrontColor)
  }

  /** What one yielded path writes: its face's path element, or nothing. */
  function PathContent(path: InstancePath, placement: InstancePath -> Transformation, formatLength: LengthFormat, faceFrontColor: Color): string
  {
    if IsFacePath(path)
    then PathElement(path[|path| - 1], placement(path), formatLength, ResolveColor(path, faceFrontColor))
    else ""
  }

  /** Appending one path appends what that path writes. */
  lemma ContentSnoc(paths: seq<InstancePath>, path: InstancePath, placement: InstancePath -> Transformation, formatLength: LengthFormat, faceFrontColor: Color)
    ensures Content(paths + [path], placement, formatLength, faceFrontColor)
      == Content(paths, placement, formatLength, faceFrontColor) + PathContent(path, placement, formatLength, faceFrontColor)
  {
    var s := paths + [path];
    assert s[..|s| - 1] == paths;
    assert s[|s| - 1] == path;
  }

  lemma SplitLast<T>(a: seq<T>, b: seq<T>)
    requires b != []
    ensures b == b[..|b| - 1] + [b[|b| - 1]]
    ensures a + b == (a + b[..|b| - 1]) + [b[|b| - 1]]
  {
    assert b == b[..|b| - 1] + [b[|b| - 1]];
  }

  lemma Associative(x: string, y: string, z: string)
    ensures (x + y) + z == x + (y + z)
  {
  }

  /** The content of consecutive runs of paths is written one run after the other, in order. */
  lemma {:induction false} ContentJoin(a: seq<InstancePath>, b: seq<InstancePath>, placement: InstancePath -> Transformation, formatLength: LengthFormat, faceFrontColor: Color)
    ensures Content(a + b, placement, formatLength, faceFrontColor)
      == Content(a, placement, formatLength, faceFrontColor) + Content(b, placement, formatLength, faceFrontColor)
    decreases |b|
  {
    if b == [] {
      assert a + b == a;
    } else {
      var init, last := b[..|b| - 1], b[|b| - 1];
      SplitLast(a, b);
      ContentJoin(a, init, placement, formatLength, faceFrontColor);
      ContentSnoc(a + init, last, placement, formatLength, faceFrontColor);
      ContentSnoc(init, last, placement, formatLength, faceFrontColor);
      Associative(Content(a, placement, formatLength, faceFrontColor), Content(init, placement, formatLength, faceFrontColor),
        PathContent(last, placement, formatLength, faceFrontColor));
    }
  }

  /** One line, one path element, per face path; the other paths write nothing. */
  lemma {:induction false} ContentLines(paths: seq<InstancePath>, placement: InstancePath -> Transformation, formatLength: LengthFormat, faceFrontColor: Color)
    requires PrintsNumbers(formatLength)
    ensures CountChar(Content(paths, placement, formatLength, faceFrontColor), '\n') == |FacePaths(paths)|
    decreases |paths|
  {
    if paths != [] {
      var init := paths[..|paths| - 1];
      var path := paths[|paths| - 1];
      ContentLines(init, placement, formatLength, faceFrontColor);
      var element := if IsFacePath(path)
        then PathElement(path[|path| - 1], placement(path), formatLength, ResolveColor(path, faceFrontColor))
        else "";
      if IsFacePath(path) {
        PathElementLines(path[|path| - 1], placement(path), formatLength, ResolveColor(path, faceFrontColor));
      }
      CountJoin(Content(init, placement, formatLength, faceFrontColor), element, '\n');
    }
  }

  /**
   * `svg_content`: traverses `entities` (hidden ones skipped) and appends
   * the path element of every face it meets, in traversal order.
   */
  method SvgContent(entities: seq<Entity>, placement: InstancePath -> Transformation, formatLength: LengthFormat, faceFrontColor: Color)
    returns (svg: string)
    ensures svg == Content(Walk(entities, [], true), placement, formatLength, faceFrontColor)
  {
    var traversal := Traverse(entities, true, true);
    var paths := traversal.value;
    svg := "";
    var i := 0;
    while i < |paths|
      invariant 0 <= i <= |paths|
      invariant svg == Content(paths[..i], placement, formatLength, faceFrontColor)
    {
      var path := paths[i];
      ContentNext(paths, i, placement, formatLength, faceFrontColor);
      if |path| > 0 && path[|path| - 1].kind == Face {
        var color := ResolveColor(path, faceFrontColor);
        var element := SvgPath(path[|path| - 1], placement(path), formatLength, color);
        svg := svg + element;
      }
      i := i + 1;
    }
    assert paths[..i] == paths;
  }

  /** One more path appends its element, if it is a face path. */
  lemma ContentNext(paths: seq<InstancePath>, k: nat, placement: InstancePath -> Transformation, formatLength: LengthFormat, faceFrontColor: Color)
    requires k < |paths|
    ensures Content(paths[..k + 1], placement, formatLength, faceFrontColor)
      == Content(paths[..k], placement, formatLength, faceFrontColor)
        + if IsFacePath(paths[k])
          then PathElement(paths[k][|paths[k]| - 1], placement(paths[k]), formatLength, ResolveColor(paths[k], faceFrontColor))
          else ""
  {
    assert paths[..k + 1][..k] == paths[..k];
  }

  // ---------------------------------------------------------------------------
  // The document
  // ---------------------------------------------------------------------------

  /** `format_length_with_unit`: the length in millimetres, with the "mm" unit. */
  function FormatLengthWithUnit(length: real, formatLength: LengthFormat): (s: string)
    ensures |s| >= 2 && s[|s| - 2..] == "mm" && s[..|s| - 2] == formatLength(length)
  {
    formatLength(length) + "mm"
  }

  /** `svg_start`: the opening tag, sized in millimetres, with a unitless view box of the same size. */
  function SvgStart(width: real, height: real, formatLength: LengthFormat): string
  {
    "<svg" + (Attribute("xmlns", "http://www.w3.org/2000/svg")
      + (Attribute("width", FormatLengthWithUnit(width, formatLength))
      + (Attribute("height", FormatLengthWithUnit(height, formatLength))
      + (Attribute("viewBox", "0 0 " + formatLength(width) + " " + formatLength(height))
      + ">\n"))))
  }

  /** `svg_end`. */
  function SvgEnd(): string
  {
    "</svg>\n"
  }

  /** The text `export` writes: the opening tag, the content and the closing tag. */
  function Document(width: real, height: real, content: string, formatLength: LengthFormat): string
  {
    SvgStart(width, height, formatLength) + content + SvgEnd()
  }

  /**
   * The opening tag's attributes: the SVG namespace, width and height with
   * the "mm" unit, and a view box from the origin with the same numbers
   * and no unit.
   */
  lemma SvgStartAttributes(width: real, height: real, formatLength: LengthFormat)
    requires PrintsNumbers(formatLength)
    ensures SplitQuotes(SvgStart(width, height, formatLength)) ==
      ["<svg xmlns=", "http://www.w3.org/2000/svg",
       " width=", formatLength(width) + "mm",
       " height=", formatLength(height) + "mm",
       " viewBox=", "0 0 " + formatLength(width) + " " + formatLength(height),
       ">\n"]
  {
    var w := formatLength(width);
    var h := formatLength(height);
    assert NumberText(w) && NumberText(h);
    var xmlns := "http://www.w3.org/2000/svg";
    assert '"' !in xmlns;
    FourAttributes("<svg", "xmlns", xmlns, "width", w + "mm", "height", h + "mm",
      "viewBox", "0 0 " + w + " " + h, ">\n");
    assert "<svg" + " " + "xmlns" + "=" == "<svg xmlns=";
    assert " " + "width" + "=" == " width=";
    assert " " + "height" + "=" == " height=";
    assert " " + "viewBox" + "=" == " viewBox=";
  }

  /** A tag with four quote-free attributes splits into its names and values. */
  lemma FourAttributes(open: string, n1: string, v1: string, n2: string, v2: string,
                       n3: string, v3: string, n4: string, v4: string, close: string)
    requires '"' !in open && '"' !in n1 && '"' !in v1 && '"' !in n2 && '"' !in v2
    requires '"' !in n3 && '"' !in v3 && '"' !in n4 && '"' !in v4 && '"' !in close
    ensures SplitQuotes(open + (Attribute(n1, v1) + (Attribute(n2, v2) + (Attribute(n3, v3) + (Attribute(n4, v4) + close)))))
      == [open + " " + n1 + "=", v1, " " + n2 + "=", v2, " " + n3 + "=", v3, " " + n4 + "=", v4, close]
  {
    var t4 := Attribute(n4, v4) + close;
    var t3 := Attribute(n3, v3) + t4;
    var t2 := Attribute(n2, v2) + t3;
    assert "" + " " == " " && "" + t4 == t4 && "" + t3 == t3 && "" + t2 == t2;
    SplitQuotesPlain(close);
    SplitAttribute("", n4, v4, close);
    var s4 := [" " + n4 + "=", v4, close];
    assert SplitQuotes(t4) == s4;
    SplitAttribute("", n3, v3, t4);
    var s3 := [" " + n3 + "=", v3] + s4;
    assert SplitQuotes(t3) == s3;
    SplitAttribute("", n2, v2, t3);
    var s2 := [" " + n2 + "=", v2] + s3;
    assert SplitQuotes(t2) == s2;
    SplitAttribute(open, n1, v1, t2);
  }

  // ---------------------------------------------------------------------------
  // prompt_scale and export
  // ---------------------------------------------------------------------------

  /**
   * `prompt_scale`: offers `default.to_s` in the input box; `answer` is
   * what the box returns (None when it is cancelled). Only text that makes
   * a valid scale gives a scale.
   */
  method PromptScale(default: Scale, answer: Option<string>, toLength: LengthParser) returns (offered: string, scale: Scale?)
    requires default.sourceString.Some? || default.IsValid()
    ensures offered == default.ToS()
    ensures answer.None? ==> scale == null
    ensures answer.Some? ==> (scale != null <==> Valid(Parse(answer.value, toLength)))
    ensures scale != null ==> fresh(scale) && scale.IsValid()
    ensures scale != null ==> scale.factor == Parse(answer.value, toLength) && scale.ToS() == answer.value
  {
    offered := default.ToS();
    if answer.None? {
      return offered, null;
    }
    var candidate := new Scale.FromText(answer.value, toLength);
    if !candidate.IsValid() {
      // The source shows "Invalid scale." here.
      return offered, null;
    }
    scale := candidate;
  }

  /** The exporter's module state: the scale remembered between exports. */
  class ExportSession {
    /** `@scale`. */
    var scale: Scale

    /** The remembered scale is always a valid one. */
    predicate Valid()
      reads this, scale
    {
      scale.IsValid()
    }

    /** `@scale ||= Scale.new(1)`. */
    constructor ()
      ensures Valid() && fresh(scale)
      ensures scale.factor == Finite(1.0) && scale.sourceString == None
    {
      scale := new Scale.FromNumber(1.0);
    }

    /**
     * `export`: asks for a scale, remembers it only when it is valid, asks
     * for a file (`destination`, None when cancelled) and returns the
     * document written there. `boundsWidth` and `boundsHeight` are the
     * selection's bounds; `placement` gives, for a scale factor, each
     * path's transformation to paper space.
     */
    method Export(
      answer: Option<string>, toLength: LengthParser, destination: Option<string>,
      selection: seq<Entity>, boundsWidth: real, boundsHeight: real,
      placement: real -> InstancePath -> Transformation, formatLength: LengthFormat, faceFrontColor: Color)
      returns (offered: string, written: Option<(string, string)>)
      requires Valid()
      modifies this
      ensures Valid()
      ensures offered == old(scale.ToS())
      ensures if answer.Some? && Scales.Valid(Parse(answer.value, toLength))
        then scale.factor == Parse(answer.value, toLength) && scale.ToS() == answer.value
        else scale == old(scale)
      ensures written.Some? <==> answer.Some? && Scales.Valid(Parse(answer.value, toLength)) && destination.Some?
      ensures written.Some? ==> written.value == (destination.value,
        ExportText(selection, boundsWidth, boundsHeight, scale.factor.value, placement, formatLength, faceFrontColor))
    {
      var prompted;
      offered, prompted := PromptScale(scale, answer, toLength);
      written := None;
      if prompted != null {
        scale := prompted;
        if destination.Some? {
          var svg := SvgDocument(selection, boundsWidth, boundsHeight, scale.Factor().value, placement, formatLength, faceFrontColor);
          written := Some((destination.value, svg));
        }
      }
    }
  }

  /**
   * The text `export` writes for the selection at scale `factor`: the
   * opening tag sized to the scaled bounds, the traversal's path elements
   * placed for that scale, and the closing tag.
   */
  function ExportText(
    selection: seq<Entity>, boundsWidth: real, boundsHeight: real, factor: real,
    placement: real -> InstancePath -> Transformation, formatLength: LengthFormat, faceFrontColor: Color): string
  {
    Document(boundsWidth * factor, boundsHeight * factor,
      Content(Walk(selection, [], true), placement(factor), formatLength, faceFrontColor), formatLength)
  }

  method SvgDocument(
    selection: seq<Entity>, boundsWidth: real, boundsHeight: real, factor: real,
    placement: real -> InstancePath -> Transformation, formatLength: LengthFormat, faceFrontColor: Color)
    returns (svg: string)
    ensures svg == ExportText(selection, boundsWidth, boundsHeight, factor, placement, formatLength, faceFrontColor)
  {
    svg := SvgStart(boundsWidth * factor, boundsHeight * factor, formatLength);
    var content := SvgContent(selection, placement(factor), formatLength, faceFrontColor);
    svg := svg + content;
    svg := svg + SvgEnd();
  }

  /** A new session offers the scale "1:1". */
  lemma FirstOffer(s: Scale)
    requires s.factor == Finite(1.0) && s.sourceString == None
    ensures s.IsValid() && s.ToS() == "1:1"
  {
    FormatOne();
  }

  lemma FormatOne()
    ensures FormatFactor(1.0) == "1:1"
  {
    var n: nat := 1;
    ScaleProperties.FormatReciprocal(n);
    assert 1.0 / (n as real) == n as real && NatText(n) == "1";
  }
}
