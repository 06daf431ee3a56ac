/** Select-graphic-rendition codes: what one control sequence does to the style (static/sobs-ansi.js). */
module AnsiStyle {
  import opened Options

  // What Number() makes of a parameter.
  datatype Code = Num(n: real) | NaN

  datatype Rgb = Rgb(r: Code, g: Code, b: Code)

  datatype Style = Style(
    fg: Option<real>, bg: Option<real>, fgRgb: Option<Rgb>, bgRgb: Option<Rgb>,
    bold: bool, dim: bool, italic: bool, underline: bool)

  const PLAIN := Style(None, None, None, None, false, false, false, false)

  predicate In(c: Code, lo: int, hi: int) { c.Num? && lo as real <= c.n <= hi as real }

  predicate Is(c: Code, k: int) { c == Num(k as real) }

  function Cube6(i: real): real { if i == 0.0 then 0.0 else 55.0 + i * 40.0 }

  function Ansi256ToRgb(idx: Code): Option<Rgb> {
    match idx
    case NaN => Some(Rgb(NaN, NaN, NaN))
    case Num(x) =>
      if x < 16.0 then None
      else if x < 232.0 then
        var n := x - 16.0;
        var inSquare := n - 36.0 * (n / 36.0).Floor as real;
        var inRow := n - 6.0 * (n / 6.0).Floor as real;
        Some(Rgb(Num(Cube6((n / 36.0).Floor as real)), Num(Cube6((inSquare / 6.0).Floor as real)), Num(Cube6(inRow))))
      else
        var gray := Num(8.0 + (x - 232.0) * 10.0);
        Some(Rgb(gray, gray, gray))
  }

  // How many parameters the code at the front takes up.
  function Width(codes: seq<Code>): (n: nat)
    requires codes != []
    ensures 1 <= n <= |codes|
  {
    if !Is(codes[0], 38) && !Is(codes[0], 48) then 1
    else if |codes| > 2 && Is(codes[1], 5) then 3
    else if |codes| > 4 && Is(codes[1], 2) then 5
    else 1
  }

  function Foreground(s: Style, codes: seq<Code>): Style
    requires codes != []
  {
    match Width(codes)
    case 3 =>
      var rgb := Ansi256ToRgb(codes[2]);
      if rgb.Some? then s.(fgRgb := rgb, fg := None)
      else s.(fg := Some(codes[2].n + if codes[2].n < 8.0 then 30.0 else 82.0), fgRgb := None)
    case 5 => s.(fgRgb := Some(Rgb(codes[2], codes[3], codes[4])), fg := None)
    case _ => s
  }

  function Background(s: Style, codes: seq<Code>): Style
    requires codes != []
  {
    match Width(codes)
    case 3 =>
      var rgb := Ansi256ToRgb(codes[2]);
      if rgb.Some? then s.(bgRgb := rgb, bg := None)
      else s.(bg := Some(codes[2].n + if codes[2].n < 8.0 then 40.0 else 92.0), bgRgb := None)
    case 5 => s.(bgRgb := Some(Rgb(codes[2], codes[3], codes[4])), bg := None)
    case _ => s
  }

  predicate AttributeCode(c: Code) {
    Is(c, 0) || Is(c, 1) || Is(c, 2) || Is(c, 3) || Is(c, 4) || Is(c, 22) || Is(c, 23) || Is(c, 24)
  }

  function Attribute(s: Style, c: Code): Style {
    if Is(c, 0) then PLAIN
    else if Is(c, 1) then s.(bold := true)
    else if Is(c, 2) then s.(dim := true)
    else if Is(c, 3) then s.(italic := true)
    else if Is(c, 4) then s.(underline := true)
    else if Is(c, 22) then s.(bold := false, dim := false)
    else if Is(c, 23) then s.(italic := false)
    else s.(underline := false)
  }

  function One(s: Style, codes: seq<Code>): Style
    requires codes != []
  {
    var c := codes[0];
    if AttributeCode(c) then Attribute(s, c)
    else if In(c, 30, 37) || In(c, 90, 97) then s.(fg := Some(c.n), fgRgb := None)
    else if Is(c, 38) then Foreground(s, codes)
    else if Is(c, 39) then s.(fg := None, fgRgb := None)
    else if In(c, 40, 47) || In(c, 100, 107) then s.(bg := Some(c.n), bgRgb := None)
    else if Is(c, 48) then Background(s, codes)
    else if Is(c, 49) then s.(bg := None, bgRgb := None)
    else s
  }

  function Sgr(codes: seq<Code>, s: Style): Style
    decreases |codes|
  {
    if codes == [] then s else Sgr(codes[Width(codes)..], One(s, codes))
  }

  lemma ThemeIsNumber(idx: Code)
    ensures Ansi256ToRgb(idx).None? <==> idx.Num? && idx.n < 16.0
  {
  }

  // The parameters behind a 38 at j, and the position of the last one taken.
  method ApplyForeground(codes: seq<Code>, j: nat, style: Style) returns (s: Style, last: nat)
    requires j < |codes| && Is(codes[j], 38)
    ensures s == Foreground(style, codes[j..]) && last == j + Width(codes[j..]) - 1
  {
    hide Ansi256ToRgb;
    s, last := style, j;
    if j + 1 < |codes| {
      if Is(codes[j + 1], 5) && j + 2 < |codes| {
        var idx := codes[j + 2];
        var rgb256 := Ansi256ToRgb(idx);
        ThemeIsNumber(idx);
        if rgb256.Some? {
          s := s.(fgRgb := rgb256, fg := None);
        } else if idx.n < 8.0 {
          s := s.(fg := Some(30.0 + idx.n), fgRgb := None);
        } else {
          s := s.(fg := Some(90.0 + (idx.n - 8.0)), fgRgb := None);
        }
        last := j + 2;
      } else if Is(codes[j + 1], 2) && j + 4 < |codes| {
        s := s.(fgRgb := Some(Rgb(codes[j + 2], codes[j + 3], codes[j + 4])), fg := None);
        last := j + 4;
      }
    }
  }

  method ApplyBackground(codes: seq<Code>, j: nat, style: Style) returns (s: Style, last: nat)
    requires j < |codes| && Is(codes[j], 48)
    ensures s == Background(style, codes[j..]) && last == j + Width(codes[j..]) - 1
  {
    hide Ansi256ToRgb;
    s, last := style, j;
    if j + 1 < |codes| {
      if Is(codes[j + 1], 5) && j + 2 < |codes| {
        var idx := codes[j + 2];
        var rgb256 := Ansi256ToRgb(idx);
        ThemeIsNumber(idx);
        if rgb256.Some? {
          s := s.(bgRgb := rgb256, bg := None);
        } else if idx.n < 8.0 {
          s := s.(bg := Some(40.0 + idx.n), bgRgb := None);
        } else {
          s := s.(bg := Some(100.0 + (idx.n - 8.0)), bgRgb := None);
        }
        last := j + 2;
      } else if Is(codes[j + 1], 2) && j + 4 < |codes| {
        s := s.(bgRgb := Some(Rgb(codes[j + 2], codes[j + 3], codes[j + 4])), bg := None);
        last := j + 4;
      }
    }
  }

  method ApplyAttribute(style: Style, code: Code) returns (s: Style)
    requires AttributeCode(code)
    ensures s == Attribute(style, code)
  {
    s := style;
    if Is(code, 0) {
      s := PLAIN;
    } else if Is(code, 1) {
      s := s.(bold := true);
    } else if Is(code, 2) {
      s := s.(dim := true);
    } else if Is(code, 3) {
      s := s.(italic := true);
    } else if Is(code, 4) {
      s := s.(underline := true);
    } else if Is(code, 22) {
      s := s.(bold := false, dim := false);
    } else if Is(code, 23) {
      s := s.(italic := false);
    } else {
      s := s.(underline := false);
    }
  }

  method ApplyCodes(codes: seq<Code>, style: Style) returns (s: Style)
    ensures s == Sgr(codes, style)
  {
    hide Foreground, Background, Attribute;
    s := style;
    var j := 0;
    while j < |codes|
      invariant 0 <= j <= |codes|
      invariant Sgr(codes[j..], s) == Sgr(codes, style)
    {
      var code := codes[j];
      ghost var rest := codes[j..];
      assert codes[j + Width(rest)..] == rest[Width(rest)..];
      if AttributeCode(code) {
        s := ApplyAttribute(s, code);
      } else if In(code, 30, 37) || In(code, 90, 97) {
        s := s.(fg := Some(code.n), fgRgb := None);
      } else if Is(code, 38) {
        s, j := ApplyForeground(codes, j, s);
      } else if Is(code, 39) {
        s := s.(fg := None, fgRgb := None);
      } else if In(code, 40, 47) || In(code, 100, 107) {
        s := s.(bg := Some(code.n), bgRgb := None);
      } else if Is(code, 48) {
        s, j := ApplyBackground(codes, j, s);
      } else if Is(code, 49) {
        s := s.(bg := None, bgRgb := None);
      }
      j := j + 1;
    }
    assert codes[j..] == [];
  }

  // A colour is never given twice.
  predicate OneColour(s: Style) { (s.fg.None? || s.fgRgb.None?) && (s.bg.None? || s.bgRgb.None?) }

  lemma ColourKeepsOneColour(codes: seq<Code>, s: Style)
    requires codes != [] && OneColour(s)
    ensures OneColour(Foreground(s, codes)) && OneColour(Background(s, codes))
  {
    hide Ansi256ToRgb, Width;
  }

  lemma AttributeKeepsOneColour(c: Code, s: Style)
    requires OneColour(s)
    ensures OneColour(Attribute(s, c))
  {
    hide Is;
  }

  lemma OneKeepsOneColour(codes: seq<Code>, s: Style)
    requires codes != [] && OneColour(s)
    ensures OneColour(One(s, codes))
  {
    hide Foreground, Background, Attribute, AttributeCode, Is, In;
    ColourKeepsOneColour(codes, s);
    AttributeKeepsOneColour(codes[0], s);
  }

  lemma {:induction false} SgrKeepsOneColour(codes: seq<Code>, s: Style)
    requires OneColour(s)
    ensures OneColour(Sgr(codes, s))
    decreases |codes|
  {
    hide One, OneColour;
    if codes != [] {
      OneKeepsOneColour(codes, s);
      SgrKeepsOneColour(codes[Width(codes)..], One(s, codes));
    }
  }

  // No 38 or 48 at the end that would take parameters from what follows.
  predicate Whole(codes: seq<Code>)
    decreases |codes|
  {
    codes == [] ||
    ((Is(codes[0], 38) || Is(codes[0], 48) ==>
      |codes| > 1 && (Is(codes[1], 5) ==> |codes| > 2) && (Is(codes[1], 2) ==> |codes| > 4))
     && Whole(codes[Width(codes)..]))
  }

  // Codes in one sequence act like the same codes in two sequences.
  lemma {:induction false} SgrComposes(a: seq<Code>, b: seq<Code>, s: Style)
    requires Whole(a)
    ensures Sgr(a + b, s) == Sgr(b, Sgr(a, s))
    decreases |a|
  {
    if a == [] {
      assert a + b == b;
    } else {
      var w := Width(a);
      assert Width(a + b) == w && One(s, a + b) == One(s, a);
      assert (a + b)[w..] == a[w..] + b;
      SgrComposes(a[w..], b, One(s, a));
    }
  }

  // The sixteen theme colours have a short and a 256-colour name.
  lemma ThemeColourByIndex(n: nat, s: Style)
    requires n < 16
    ensures var short := if n < 8 then 30 + n else 82 + n;
            && Sgr([Num(38.0), Num(5.0), Num(n as real)], s) == Sgr([Num(short as real)], s)
            && Sgr([Num(48.0), Num(5.0), Num(n as real)], s) == Sgr([Num((short + 10) as real)], s)
  {
    var fg, bg := [Num(38.0), Num(5.0), Num(n as real)], [Num(48.0), Num(5.0), Num(n as real)];
    var short := if n < 8 then 30 + n else 82 + n;
    var shortFg, shortBg := [Num(short as real)], [Num((short + 10) as real)];
    assert fg[Width(fg)..] == bg[Width(bg)..] == shortFg[1..] == shortBg[1..] == [];
    assert One(s, fg) == One(s, shortFg) && One(s, bg) == One(s, shortBg);
  }

  // The palette beyond the theme colours: a cube of six levels a channel, then a ramp of grays.
  function Level(k: nat): Code { Num(if k == 0 then 0.0 else (55 + 40 * k) as real) }

  function Cube(r: nat, g: nat, b: nat): nat { 16 + 36 * r + 6 * g + b }

  lemma FloorOfQuotient(q: nat, d: nat, rem: nat)
    requires rem < d
    ensures ((q * d + rem) as real / d as real).Floor == q
  {
    var e, k := d as real, q as real;
    var part := rem as real / e;
    assert 0.0 <= part < 1.0;
    assert (q * d + rem) as real == k * e + rem as real == (k + part) * e;
    assert (q * d + rem) as real / e == k + part;
  }

  lemma CubeColour(r: nat, g: nat, b: nat)
    requires r < 6 && g < 6 && b < 6
    ensures Ansi256ToRgb(Num(Cube(r, g, b) as real)) == Some(Rgb(Level(r), Level(g), Level(b)))
  {
    CubeQuotients(r, g, b);
    LevelIs(r);
    LevelIs(g);
    LevelIs(b);
    hide Cube6, Level;
    var n := Cube(r, g, b) as real - 16.0;
    assert n - 6.0 * (6 * r + g) as real == b as real;
  }

  lemma LevelIs(k: nat)
    ensures Num(Cube6(k as real)) == Level(k)
  {
  }

  lemma CubeQuotients(r: nat, g: nat, b: nat)
    requires r < 6 && g < 6 && b < 6
    ensures var n := Cube(r, g, b) as real - 16.0;
            (n / 36.0).Floor == r && (n / 6.0).Floor == 6 * r + g && ((n - 36.0 * r as real) / 6.0).Floor == g
  {
    var n := Cube(r, g, b) as real - 16.0;
    assert n == (r * 36 + (6 * g + b)) as real == ((6 * r + g) * 6 + b) as real;
    assert n - 36.0 * r as real == (g * 6 + b) as real;
    hide Cube;
    FloorOfQuotient(r, 36, 6 * g + b);
    FloorOfQuotient(6 * r + g, 6, b);
    FloorOfQuotient(g, 6, b);
  }

  lemma GrayColour(k: nat)
    ensures var gray := Num((8 + 10 * k) as real); Ansi256ToRgb(Num((232 + k) as real)) == Some(Rgb(gray, gray, gray))
  {
  }

  lemma LevelInjective(j: nat, k: nat)
    requires Level(j) == Level(k)
    ensures j == k
  {
  }

  // No colour of the palette beyond the theme colours has two indices.
  lemma PaletteInjective(m: nat, n: nat)
    requires 16 <= m < 256 && 16 <= n < 256 && Ansi256ToRgb(Num(m as real)) == Ansi256ToRgb(Num(n as real))
    ensures m == n
  {
    hide Ansi256ToRgb, Level;
    var c := Place(m);
    var d := Place(n);
    if m < 232 && n < 232 {
      LevelInjective(c.0, d.0);
      LevelInjective(c.1, d.1);
      LevelInjective(c.2, d.2);
    } else if m < 232 || n < 232 {
      LevelNoGray(if m < 232 then c.0 else d.0, if m < 232 then n - 232 else m - 232);
    }
  }

  lemma LevelNoGray(j: nat, k: nat)
    ensures Level(j) != Num((8 + 10 * k) as real)
  {
  }

  lemma Place(n: nat) returns (c: (nat, nat, nat))
    requires 16 <= n < 256
    ensures n < 232 ==>
              && c.0 < 6 && c.1 < 6 && c.2 < 6 && n == Cube(c.0, c.1, c.2)
              && Ansi256ToRgb(Num(n as real)) == Some(Rgb(Level(c.0), Level(c.1), Level(c.2)))
    ensures n >= 232 ==>
              var gray := Num((8 + 10 * (n - 232)) as real); Ansi256ToRgb(Num(n as real)) == Some(Rgb(gray, gray, gray))
  {
    hide Ansi256ToRgb;
    var k := n - 16;
    if n < 232 {
      c := (k / 36, k % 36 / 6, k % 6);
      CubeColour(c.0, c.1, c.2);
    } else {
      c := (0, 0, 0);
      GrayColour(n - 232);
    }
  }
}
