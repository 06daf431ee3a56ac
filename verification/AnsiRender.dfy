/** Rendering captured text with colours as HTML: escapeHtml and renderAnsi of static/sobs-ansi.js. */
module AnsiRender {
  import opened Ansi
  import opened AnsiStyle
  import opened Options
  import opened Text

  function ReplaceAll(s: string, c: char, word: string): string {
    if s == "" then "" else (if s[0] == c then word else [s[0]]) + ReplaceAll(s[1..], c, word)
  }

  function EscapeHtml(s: string): string {
    ReplaceAll(ReplaceAll(ReplaceAll(ReplaceAll(s, '&', "&amp;"), '<', "&lt;"), '>', "&gt;"), '"', "&quot;")
  }

  // What a reader of the page sees of a character.
  function Entity(c: char): string {
    if c == '&' then "&amp;" else if c == '<' then "&lt;" else if c == '>' then "&gt;" else if c == '"' then "&quot;" else [c]
  }

  lemma {:induction false} ReplaceConcat(a: string, b: string, c: char, word: string)
    ensures ReplaceAll(a + b, c, word) == ReplaceAll(a, c, word) + ReplaceAll(b, c, word)
  {
    if a == "" {
      assert a + b == b;
    } else {
      ReplaceConcat(a[1..], b, c, word);
      assert (a + b)[1..] == a[1..] + b;
      var first := if a[0] == c then word else [a[0]];
      Regroup(first, ReplaceAll(a[1..], c, word), ReplaceAll(b, c, word));
    }
  }

  lemma {:induction false} ReplaceNothing(s: string, c: char, word: string)
    requires c !in s
    ensures ReplaceAll(s, c, word) == s
  {
    if s != "" {
      ReplaceNothing(s[1..], c, word);
    }
  }

  // The four replacements one after the other act on each character alone.
  lemma EscapeByChar(c: char, rest: string)
    ensures EscapeHtml([c] + rest) == Entity(c) + EscapeHtml(rest)
  {
    var r1 := ReplaceAll([c], '&', "&amp;");
    var r2 := ReplaceAll(r1, '<', "&lt;");
    var r3 := ReplaceAll(r2, '>', "&gt;");
    var q1 := ReplaceAll(rest, '&', "&amp;");
    var q2 := ReplaceAll(q1, '<', "&lt;");
    var q3 := ReplaceAll(q2, '>', "&gt;");
    ReplaceConcat([c], rest, '&', "&amp;");
    ReplaceConcat(r1, q1, '<', "&lt;");
    ReplaceConcat(r2, q2, '>', "&gt;");
    ReplaceConcat(r3, q3, '"', "&quot;");
    EscapeOne(c);
  }

  lemma ReplaceIn(x: char, c: char, word: string)
    ensures ReplaceAll([x], c, word) == if x == c then word else [x]
  {
  }

  lemma EscapeOne(c: char)
    ensures EscapeHtml([c]) == Entity(c)
  {
    hide ReplaceAll;
    ReplaceIn(c, '&', "&amp;");
    ReplaceIn(c, '<', "&lt;");
    ReplaceIn(c, '>', "&gt;");
    ReplaceIn(c, '"', "&quot;");
    if c in "&" {
      ReplaceNothing("&amp;", '<', "&lt;");
      ReplaceNothing("&amp;", '>', "&gt;");
      ReplaceNothing("&amp;", '"', "&quot;");
    } else if c == '<' {
      ReplaceNothing("&lt;", '>', "&gt;");
      ReplaceNothing("&lt;", '"', "&quot;");
    } else if c == '>' {
      ReplaceNothing("&gt;", '"', "&quot;");
    }
  }

  // The two colour tables of the theme, and the text of a number.
  datatype Theme = Theme(fg: real -> Option<string>, bg: real -> Option<string>, show: Code -> string)

  // No table entry and no number holds the character that ends a tag.
  ghost predicate NoTagEnd(theme: Theme) {
    && (forall x :: EntryClean(theme.fg, x))
    && (forall x :: EntryClean(theme.bg, x))
    && (forall c :: '>' !in theme.show(c))
  }

  predicate EntryClean(table: real -> Option<string>, x: real) { table(x).Some? ==> '>' !in table(x).value }

  function Colour(rgb: Option<Rgb>, code: Option<real>, table: real -> Option<string>, show: Code -> string): Option<string> {
    if rgb.Some? then Some("rgb(" + show(rgb.value.r) + "," + show(rgb.value.g) + "," + show(rgb.value.b) + ")")
    else if code.Some? then table(code.value)
    else None
  }

  // The style attribute's declarations, in the order the renderer pushes them.
  function Css(s: Style, theme: Theme): seq<string> {
    var colours := Colours(Colour(s.fgRgb, s.fg, theme.fg, theme.show), Colour(s.bgRgb, s.bg, theme.bg, theme.show));
    Push(Push(Push(Push(colours, s.bold, "font-weight:bold"), s.dim, "opacity:0.6"),
              s.italic, "font-style:italic"), s.underline, "text-decoration:underline")
  }

  function Colours(fg: Option<string>, bg: Option<string>): seq<string> {
    Push(Push([], fg.Some?, "color:" + if fg.Some? then fg.value else ""),
         bg.Some?, "background-color:" + if bg.Some? then bg.value else "")
  }

  function Push(styles: seq<string>, holds: bool, text: string): (r: seq<string>)
    ensures Clean(styles) && (holds ==> '>' !in text) ==> Clean(r)
  {
    if holds then styles + [text] else styles
  }

  // Nothing here ends a tag.
  predicate Clean(styles: seq<string>) { forall p :: p in styles ==> '>' !in p }

  function Tag(inside: string): string { "<" + inside + ">" }

  function SpanTag(css: seq<string>): string { "span style=\"" + Join(css, ';') + "\"" }

  function Piece(g: Segment, theme: Theme): string {
    var css := Css(g.style, theme);
    if css == [] then EscapeHtml(g.text) else Tag(SpanTag(css)) + EscapeHtml(g.text) + Tag("/span")
  }

  function Html(segments: seq<Segment>, theme: Theme): string {
    if segments == [] then "" else Piece(segments[0], theme) + Html(segments[1..], theme)
  }

  // The text of a page: tags are not shown, and the four entities are shown as their characters.
  function Visible(html: string): string
    decreases |html|
  {
    if html == "" then ""
    else if html[0] == '<' then Visible(AfterTag(html[1..]))
    else if "&amp;" <= html then "&" + Visible(html[5..])
    else if "&lt;" <= html then "<" + Visible(html[4..])
    else if "&gt;" <= html then ">" + Visible(html[4..])
    else if "&quot;" <= html then "\"" + Visible(html[6..])
    else [html[0]] + Visible(html[1..])
  }

  function AfterTag(html: string): (r: string)
    ensures |r| <= |html|
  {
    if html == "" then "" else if html[0] == '>' then html[1..] else AfterTag(html[1..])
  }

  lemma {:induction false} TagEnds(tag: string, rest: string)
    requires '>' !in tag
    ensures AfterTag(tag + ">" + rest) == rest
  {
    if tag == "" {
      assert (tag + ">" + rest)[1..] == rest;
    } else {
      assert (tag + ">" + rest)[1..] == tag[1..] + ">" + rest;
      TagEnds(tag[1..], rest);
    }
  }

  lemma TagHidden(tag: string, rest: string)
    requires '>' !in tag
    ensures Visible(Tag(tag) + rest) == Visible(rest)
  {
    TagEnds(tag, rest);
    assert (Tag(tag) + rest)[1..] == tag + ">" + rest;
  }

  lemma EntityVisible(c: char, rest: string)
    ensures Visible(Entity(c) + rest) == [c] + Visible(rest)
  {
    var h := Entity(c) + rest;
    assert h[|Entity(c)|..] == rest;
    if c !in "&<>\"" {
      assert h[0] == c && !("&amp;" <= h) && !("&lt;" <= h) && !("&gt;" <= h) && !("&quot;" <= h);
    } else {
      assert h[1] == if c == '&' then 'a' else if c == '<' then 'l' else if c == '>' then 'g' else 'q';
    }
  }

  // Escaping loses nothing.
  lemma {:induction false} EscapedVisible(text: string, rest: string)
    ensures Visible(EscapeHtml(text) + rest) == text + Visible(rest)
  {
    assert EscapeHtml("") == "";
    hide *;
    if text == "" {
      assert "" + rest == rest && text + Visible(rest) == Visible(rest);
    } else {
      var c, more := text[0], text[1..];
      assert text == [c] + more;
      EscapeByChar(c, more);
      EscapedVisible(more, rest);
      EntityVisible(c, EscapeHtml(more) + rest);
      Regroup(Entity(c), EscapeHtml(more), rest);
      Regroup([c], more, Visible(rest));
    }
  }

  lemma {:induction false} JoinLacks(parts: seq<string>, sep: char, c: char)
    requires c != sep && forall p :: p in parts ==> c !in p
    ensures c !in Join(parts, sep)
  {
    if |parts| > 1 {
      JoinLacks(parts[1..], sep, c);
    }
  }

  lemma PieceIs(g: Segment, theme: Theme)
    ensures var css := Css(g.style, theme);
            Piece(g, theme) == if css == [] then EscapeHtml(g.text) else Tag(SpanTag(css)) + EscapeHtml(g.text) + Tag("/span")
  {
  }

  lemma PieceVisible(g: Segment, theme: Theme, rest: string)
    requires NoTagEnd(theme)
    ensures Visible(Piece(g, theme) + rest) == g.text + Visible(rest)
  {
    PieceIs(g, theme);
    hide *;
    var css, escaped := Css(g.style, theme), EscapeHtml(g.text);
    EscapedVisible(g.text, rest);
    if css != [] {
      CssClean(g.style, theme);
      SpanTagLacksTagEnd(css);
      var end := Tag("/span");
      Regroup(Tag(SpanTag(css)) + escaped, end, rest);
      Regroup(Tag(SpanTag(css)), escaped, end + rest);
      TagHidden(SpanTag(css), escaped + (end + rest));
      EscapedVisible(g.text, end + rest);
      TagHidden("/span", rest);
    }
  }

  lemma SpanTagLacksTagEnd(css: seq<string>)
    requires Clean(css)
    ensures '>' !in SpanTag(css)
  {
    JoinLacks(css, ';', '>');
  }

  lemma ConcatLacks(a: string, b: string, c: char)
    ensures c !in a + b <==> c !in a && c !in b
  {
  }

  lemma CssClean(s: Style, theme: Theme)
    requires NoTagEnd(theme)
    ensures Clean(Css(s, theme))
  {
    ColourClean(s.fgRgb, s.fg, theme.fg, theme.show);
    ColourClean(s.bgRgb, s.bg, theme.bg, theme.show);
    hide Colours, Push, Clean, NoTagEnd, Colour;
    ColoursClean(Colour(s.fgRgb, s.fg, theme.fg, theme.show), Colour(s.bgRgb, s.bg, theme.bg, theme.show));
    NamesClean();
  }

  lemma ColoursClean(fg: Option<string>, bg: Option<string>)
    requires (fg.Some? ==> '>' !in fg.value) && (bg.Some? ==> '>' !in bg.value)
    ensures Clean(Colours(fg, bg))
  {
  }

  lemma NamesClean()
    ensures '>' !in "color:" && '>' !in "background-color:" && '>' !in "font-weight:bold" && '>' !in "opacity:0.6"
    ensures '>' !in "font-style:italic" && '>' !in "text-decoration:underline"
    ensures '>' !in "rgb(" && '>' !in "," && '>' !in ")"
  {
  }

  lemma ColourClean(rgb: Option<Rgb>, code: Option<real>, table: real -> Option<string>, show: Code -> string)
    requires forall x :: EntryClean(table, x)
    requires forall c :: '>' !in show(c)
    ensures var colour := Colour(rgb, code, table, show); colour.Some? ==> '>' !in colour.value
  {
    if rgb.Some? {
      NamesClean();
      var r, g, b := show(rgb.value.r), show(rgb.value.g), show(rgb.value.b);
      var x := "rgb(" + r;
      ConcatLacks("rgb(", r, '>');
      ConcatLacks(x, ",", '>');
      ConcatLacks(x + ",", g, '>');
      var y := x + "," + g;
      ConcatLacks(y, ",", '>');
      ConcatLacks(y + ",", b, '>');
      ConcatLacks(y + "," + b, ")", '>');
      assert Colour(rgb, code, table, show) == Some(y + "," + b + ")");
    } else if code.Some? {
      assert EntryClean(table, code.value);
    }
  }

  lemma {:induction false} HtmlVisible(segments: seq<Segment>, theme: Theme)
    requires NoTagEnd(theme)
    ensures Visible(Html(segments, theme)) == Letters(Flat(segments))
    decreases |segments|
  {
    hide NoTagEnd, Piece;
    if segments != [] {
      PieceVisible(segments[0], theme, Html(segments[1..], theme));
      HtmlVisible(segments[1..], theme);
      FlatFront(segments);
    }
  }

  lemma {:induction false} FlatFront(segments: seq<Segment>)
    requires segments != []
    ensures Letters(Flat(segments)) == segments[0].text + Letters(Flat(segments[1..]))
    decreases |segments|
  {
    var n := |segments| - 1;
    if n == 0 {
      assert segments[1..] == [] && segments[..0] == [];
      assert Flat(segments) == Paint(segments[0].text, segments[0].style);
      assert segments[0].text + "" == segments[0].text;
    } else {
      var front, last := segments[..n], segments[n];
      FlatFront(front);
      assert front[1..] == segments[1..][..n - 1];
      assert Letters(Flat(segments)) == Letters(Flat(front)) + last.text;
      assert Letters(Flat(segments[1..])) == Letters(Flat(front[1..])) + last.text;
      Regroup(segments[0].text, Letters(Flat(front[1..])), last.text);
    }
  }

  method Declarations(s: Style, theme: Theme) returns (styles: seq<string>)
    ensures styles == Css(s, theme)
  {
    hide Colour;
    styles := [];
    var fgColor := Colour(s.fgRgb, s.fg, theme.fg, theme.show);
    if fgColor.Some? {
      styles := styles + ["color:" + fgColor.value];
    }
    var bgColor := Colour(s.bgRgb, s.bg, theme.bg, theme.show);
    if bgColor.Some? {
      styles := styles + ["background-color:" + bgColor.value];
    }
    if s.bold {
      styles := styles + ["font-weight:bold"];
    }
    if s.dim {
      styles := styles + ["opacity:0.6"];
    }
    if s.italic {
      styles := styles + ["font-style:italic"];
    }
    if s.underline {
      styles := styles + ["text-decoration:underline"];
    }
  }

  method RenderSegments(segments: seq<Segment>, theme: Theme) returns (html: string)
    ensures html == Html(segments, theme)
  {
    hide Css, EscapeHtml, Tag, SpanTag;
    html := "";
    for i := 0 to |segments|
      invariant html + Html(segments[i..], theme) == Html(segments, theme)
    {
      var g := segments[i];
      assert segments[i..][1..] == segments[i + 1..];
      var styles := Declarations(g.style, theme);
      var piece := EscapeHtml(g.text);
      if styles != [] {
        piece := Tag(SpanTag(styles)) + piece + Tag("/span");
      }
      Regroup(html, piece, Html(segments[i + 1..], theme));
      html := html + piece;
    }
  }

  // The page shows exactly the characters outside the control sequences.
  method RenderAnsi(text: string, theme: Theme, number: string -> Code) returns (html: string, ghost segments: seq<Segment>)
    requires NoTagEnd(theme)
    ensures html == Html(segments, theme) && Flat(segments) == Styled(Lex(text).0, PLAIN, number)
    ensures Visible(html) == Kept(Lex(text).0)
  {
    var parsed := ParseAnsi(text, number);
    segments := parsed;
    html := RenderSegments(parsed, theme);
    assert OneColour(PLAIN);
    hide *;
    HtmlVisible(segments, theme);
    StyledKeeps(Lex(text).0, PLAIN, number);
  }
}
