/** ANSI colour codes in captured text: the parser, the stripper and the renderer of static/sobs-ansi.js. */
module Ansi {
  import opened AnsiStyle
  import opened Options
  import opened Text

  datatype Segment = Segment(text: string, style: Style)

  const ESC: char := '\U{1B}'

  // ----- the text as a list of characters and control sequences -----

  datatype Token = Char(c: char) | Sequence(params: string, final: char)

  predicate FinalByte(c: char) { '@' <= c <= '~' }

  predicate NoFinal(s: string) { forall i :: 0 <= i < |s| ==> !FinalByte(s[i]) }

  function Spell(token: Token): string {
    match token
    case Char(c) => [c]
    case Sequence(params, final) => [ESC, '['] + params + [final]
  }

  function Unlex(ts: seq<Token>): string {
    if ts == [] then "" else Spell(ts[0]) + Unlex(ts[1..])
  }

  // A sequence ends at its first final byte.
  predicate Good(token: Token) { token.Sequence? ==> NoFinal(token.params) && FinalByte(token.final) }

  // An escape character that stands alone is not followed by a bracket.
  predicate Apart(token: Token, next: Token) { token == Char(ESC) ==> next != Char('[') }

  predicate Proper(ts: seq<Token>) {
    ts == [] || (Good(ts[0]) && (|ts| > 1 ==> Apart(ts[0], ts[1])) && Proper(ts[1..]))
  }

  // What a text may end with after its tokens: nothing, or a sequence without a final byte.
  predicate Cut(tail: string) { tail == "" || ([ESC, '['] <= tail && NoFinal(tail[2..])) }

  predicate Opens(t: string) { |t| > 1 && t[0] == ESC && t[1] == '[' }

  function FinalAt(t: string): (n: nat)
    ensures n <= |t| && NoFinal(t[..n]) && (n < |t| ==> FinalByte(t[n]))
  {
    if t == "" || FinalByte(t[0]) then 0
    else
      var n := 1 + FinalAt(t[1..]);
      assert forall i :: 1 <= i < n ==> t[..n][i] == t[1..][..n - 1][i - 1];
      n
  }

  // The token at the front of a text, unless the rest of the text is cut off.
  function First(t: string): (token: Option<Token>)
    requires t != ""
    ensures token.Some? ==> Good(token.value) && 1 <= |Spell(token.value)| <= |t|
  {
    if !Opens(t) then Some(Char(t[0])) else
    var n := 2 + FinalAt(t[2..]);
    assert t[2..][..n - 2] == t[2..n];
    if n == |t| then None else Some(Sequence(t[2..n], t[n]))
  }

  function Lex(t: string): (r: (seq<Token>, string))
    decreases |t|
  {
    if t == "" || First(t).None? then ([], t) else
    var token := First(t).value;
    var (ts, tail) := Lex(t[|Spell(token)|..]);
    ([token] + ts, tail)
  }

  lemma FirstSpells(t: string)
    requires t != ""
    ensures First(t).None? ==> Cut(t)
    ensures First(t).Some? ==> Spell(First(t).value) <= t
    ensures First(t) == Some(Char(ESC)) ==> |t| == 1 || t[1] != '['
  {
    if Opens(t) {
      var n := 2 + FinalAt(t[2..]);
      assert t[2..][..n - 2] == t[2..n];
      if n == |t| {
        assert t[2..n] == t[2..];
      } else {
        assert t[..n + 1] == [ESC, '['] + t[2..n] + [t[n]];
      }
    }
  }

  // Only a plain bracket spells a bracket first.
  lemma BracketFirst(ts: seq<Token>, tail: string)
    requires Cut(tail)
    ensures var t := Unlex(ts) + tail; t != "" && t[0] == '[' <==> ts != [] && ts[0] == Char('[')
  {
  }

  lemma SpellLength(token: Token)
    ensures |Spell(token)| == if token.Char? then 1 else 3 + |token.params|
  {
  }

  lemma UnlexCons(t: string, token: Token, ts: seq<Token>, tail: string)
    requires Spell(token) <= t && Unlex(ts) + tail == t[|Spell(token)|..]
    ensures Unlex([token] + ts) + tail == t
  {
  }

  lemma ProperCons(token: Token, ts: seq<Token>)
    requires Good(token) && Proper(ts) && (ts != [] ==> Apart(token, ts[0]))
    ensures Proper([token] + ts)
  {
  }

  // Every text is its tokens and a cut-off tail, and no text is so in two ways.
  lemma {:induction false} LexSpells(t: string)
    ensures var (ts, tail) := Lex(t); Unlex(ts) + tail == t && Proper(ts) && Cut(tail)
    decreases |t|
  {
    assert Unlex([]) == "" && Proper([]) && Cut("");
    hide First, Cut, Good, NoFinal, Spell, Unlex, Proper;
    if t != "" {
      FirstSpells(t);
      if First(t).Some? {
        var token := First(t).value;
        var n := |Spell(token)|;
        LexSpells(t[n..]);
        var (rest, tail) := Lex(t[n..]);
        UnlexCons(t, token, rest, tail);
        BracketFirst(rest, tail);
        SpellLength(token);
        ProperCons(token, rest);
      }
    }
  }

  lemma {:induction false} FinalAtSpec(params: string, c: char, rest: string)
    requires NoFinal(params) && FinalByte(c)
    ensures FinalAt(params + [c] + rest) == |params|
    ensures FinalAt(params) == |params|
  {
    if params != "" {
      assert params == [params[0]] + params[1..];
      assert (params + [c] + rest)[1..] == params[1..] + [c] + rest;
      FinalAtSpec(params[1..], c, rest);
    }
  }

  lemma FirstOfChar(c: char, rest: string)
    requires c == ESC && rest != "" ==> rest[0] != '['
    ensures First([c] + rest) == Some(Char(c))
  {
  }

  lemma FirstOfSequence(params: string, final: char, rest: string)
    requires NoFinal(params) && FinalByte(final)
    ensures First([ESC, '['] + params + [final] + rest) == Some(Sequence(params, final))
  {
    FinalAtSpec(params, final, rest);
    hide FinalAt, NoFinal, FinalByte;
    var n := |params|;
    var t, u := [ESC, '['] + params + [final] + rest, params + [final] + rest;
    assert t[2..] == u;
    assert t[2..2 + n] == params && t[2 + n] == final && Opens(t);
  }

  lemma FirstOfSpell(token: Token, rest: string)
    requires Good(token)
    requires token == Char(ESC) && rest != "" ==> rest[0] != '['
    ensures First(Spell(token) + rest) == Some(token)
  {
    hide First;
    match token
    case Char(c) => FirstOfChar(c, rest);
    case Sequence(params, final) => FirstOfSequence(params, final, rest);
  }

  lemma FirstOfCut(tail: string)
    requires Cut(tail) && tail != ""
    ensures First(tail) == None
  {
  }

  lemma {:induction false} LexUnique(ts: seq<Token>, tail: string)
    requires Proper(ts) && Cut(tail)
    ensures Lex(Unlex(ts) + tail) == (ts, tail)
    decreases |ts|
  {
    hide First, Good, Spell, Cut;
    if ts == [] {
      assert Unlex(ts) + tail == tail;
      if tail != "" {
        FirstOfCut(tail);
      }
    } else {
      LexUnique(ts[1..], tail);
      var rest := Unlex(ts[1..]) + tail;
      var t := Spell(ts[0]) + rest;
      assert Unlex(ts) + tail == t;
      BracketFirst(ts[1..], tail);
      FirstOfSpell(ts[0], rest);
      assert t[|Spell(ts[0])|..] == rest;
      assert ts == [ts[0]] + ts[1..];
    }
  }

  lemma {:induction false} UnlexConcat(a: seq<Token>, b: seq<Token>)
    ensures Unlex(a + b) == Unlex(a) + Unlex(b)
  {
    hide Spell;
    if a == [] {
      assert a + b == b;
    } else {
      UnlexConcat(a[1..], b);
      assert (a + b)[1..] == a[1..] + b;
      Regroup(Spell(a[0]), Unlex(a[1..]), Unlex(b));
    }
  }

  lemma {:induction false} ProperConcat(a: seq<Token>, b: seq<Token>)
    requires Proper(a) && Proper(b) && (a != [] && b != [] ==> Apart(a[|a| - 1], b[0]))
    ensures Proper(a + b)
  {
    hide Good, Apart;
    if a == [] {
      assert a + b == b;
    } else {
      ProperConcat(a[1..], b);
      assert (a + b)[1..] == a[1..] + b;
    }
  }

  // The text ends outside every sequence, and no escape character at its end meets a bracket.
  predicate Closed(a: string, b: string) {
    Lex(a).1 == "" && (a != "" && a[|a| - 1] == ESC ==> b == "" || b[0] != '[')
  }

  lemma {:induction false} LastSpells(ts: seq<Token>)
    requires ts != [] && Proper(ts)
    ensures var t := Unlex(ts); t != "" && (ts[|ts| - 1] == Char(ESC) <==> t[|t| - 1] == ESC)
  {
    if |ts| > 1 {
      LastSpells(ts[1..]);
    }
  }

  lemma LexConcat(a: string, b: string)
    requires Closed(a, b)
    ensures Lex(a + b) == (Lex(a).0 + Lex(b).0, Lex(b).1)
  {
    hide Lex, Unlex, Proper, Cut;
    var (ta, empty) := Lex(a);
    var (tb, tail) := Lex(b);
    LexSpells(a);
    LexSpells(b);
    assert a == Unlex(ta) + "" == Unlex(ta);
    if ta != [] && tb != [] {
      LastSpells(ta);
      BracketFirst(tb, tail);
    }
    ProperConcat(ta, tb);
    UnlexConcat(ta, tb);
    LexUnique(ta + tb, tail);
    assert Unlex(ta) + (Unlex(tb) + tail) == (Unlex(ta) + Unlex(tb)) + tail;
  }

  // ----- parsing into styled characters -----

  // What a control sequence does to the style: only a sequence ended by m does anything.
  function Restyle(token: Token, s: Style, number: string -> Code): Style {
    if token.Char? || token.final != 'm' then s else Sgr(Codes(token.params, number), s)
  }

  function Codes(params: string, number: string -> Code): seq<Code> {
    if params == "" then [Num(0.0)]
    else
      var parts := Split(params, ';');
      seq(|parts|, i requires 0 <= i < |parts| => number(parts[i]))
  }

  function StyleAfter(ts: seq<Token>, s: Style, number: string -> Code): Style {
    if ts == [] then s else StyleAfter(ts[1..], Restyle(ts[0], s, number), number)
  }

  // Every character outside control sequences, with the style that holds there.
  function Styled(ts: seq<Token>, s: Style, number: string -> Code): seq<(char, Style)> {
    if ts == [] then []
    else Front(ts[0], s) + Styled(ts[1..], Restyle(ts[0], s, number), number)
  }

  function Kept(ts: seq<Token>): string {
    if ts == [] then "" else (if ts[0].Char? then [ts[0].c] else "") + Kept(ts[1..])
  }

  function Paint(text: string, s: Style): (r: seq<(char, Style)>)
    ensures |r| == |text| && forall i :: 0 <= i < |text| ==> r[i] == (text[i], s)
  {
    seq(|text|, i requires 0 <= i < |text| => (text[i], s))
  }

  function Flat(segments: seq<Segment>): seq<(char, Style)> {
    if segments == [] then [] else Flat(segments[..|segments| - 1]) + Paint(segments[|segments| - 1].text, segments[|segments| - 1].style)
  }

  lemma Ahead(t: string, s: Style, number: string -> Code)
    requires t != ""
    ensures First(t).None? ==> Styled(Lex(t).0, s, number) == []
    ensures First(t).Some? ==>
              var token := First(t).value;
              Styled(Lex(t).0, s, number) ==
              Front(token, s) + Styled(Lex(t[|Spell(token)|..]).0, Restyle(token, s, number), number)
  {
    hide First, Restyle;
  }

  lemma FirstIs(text: string, i: nat, end: nat)
    requires i + 2 <= end <= |text| && Opens(text[i..]) && NoFinal(text[i + 2..end])
    requires end < |text| ==> FinalByte(text[end])
    ensures First(text[i..]) == if end == |text| then None else Some(Sequence(text[i + 2..end], text[end]))
  {
    var t, params := text[i..], text[i + 2..end];
    assert t[2..] == params + text[end..];
    FinalAtSpec(params, if end < |text| then text[end] else '@', if end < |text| then text[end + 1..] else "");
    if end < |text| {
      assert t[2..] == params + [text[end]] + text[end + 1..];
      assert t[2..2 + |params|] == params && t[2 + |params|] == text[end];
    } else {
      assert t[2..] == params;
    }
  }

  // out is what the text up to i gives, when the style at i is s.
  predicate At(text: string, i: nat, out: seq<(char, Style)>, s: Style, number: string -> Code)
    requires i <= |text|
  {
    out + Styled(Lex(text[i..]).0, s, number) == Styled(Lex(text).0, PLAIN, number)
  }

  lemma OpensIs(text: string, i: nat)
    requires i < |text|
    ensures text[i..] != "" && |text[i..]| == |text| - i
    ensures Opens(text[i..]) <==> text[i] == ESC && i + 1 < |text| && text[i + 1] == '['
  {
  }

  lemma FrontOfSequence(token: Token, s: Style)
    requires token.Sequence?
    ensures Front(token, s) == []
  {
  }

  lemma AtIs(text: string, i: nat, out: seq<(char, Style)>, s: Style, number: string -> Code)
    requires i <= |text|
    ensures At(text, i, out, s, number) <==> out + Styled(Lex(text[i..]).0, s, number) == Styled(Lex(text).0, PLAIN, number)
  {
  }

  lemma AtStart(text: string, number: string -> Code)
    ensures At(text, 0, [], PLAIN, number)
  {
  }

  lemma PassChar(text: string, i: nat, out: seq<(char, Style)>, s: Style, number: string -> Code)
    requires i < |text| && !Opens(text[i..]) && At(text, i, out, s, number)
    ensures At(text, i + 1, out + [(text[i], s)], s, number)
  {
    hide Styled, Lex;
    var t := text[i..];
    Ahead(t, s, number);
    assert t[1..] == text[i + 1..];
    var rest := Styled(Lex(text[i + 1..]).0, s, number);
    assert out + ([(text[i], s)] + rest) == (out + [(text[i], s)]) + rest;
  }

  lemma PassSequence(text: string, i: nat, end: nat, out: seq<(char, Style)>, s: Style, number: string -> Code)
    requires i + 2 <= end <= |text| && Opens(text[i..]) && NoFinal(text[i + 2..end]) && At(text, i, out, s, number)
    requires end < |text| ==> FinalByte(text[end])
    ensures end == |text| ==> out == Styled(Lex(text).0, PLAIN, number)
    ensures end < |text| ==> At(text, end + 1, out, Restyle(Sequence(text[i + 2..end], text[end]), s, number), number)
  {
    hide *;
    var t := text[i..];
    OpensIs(text, i);
    AtIs(text, i, out, s, number);
    Ahead(t, s, number);
    FirstIs(text, i, end);
    if end < |text| {
      var token := Sequence(text[i + 2..end], text[end]);
      AtIs(text, end + 1, out, Restyle(token, s, number), number);
      SpellLength(token);
      FrontOfSequence(token, s);
      assert t[end + 1 - i..] == text[end + 1..];
      assert [] + Styled(Lex(text[end + 1..]).0, Restyle(token, s, number), number) == Styled(Lex(t).0, s, number);
    }
  }

  lemma AtEnd(text: string, out: seq<(char, Style)>, s: Style, number: string -> Code)
    requires At(text, |text|, out, s, number)
    ensures out == Styled(Lex(text).0, PLAIN, number)
  {
  }

  lemma Flush(segments: seq<Segment>, text: string, s: Style)
    ensures Flat(segments + [Segment(text, s)]) == Flat(segments) + Paint(text, s)
  {
  }

  // To the final byte, or to the end of the text.
  method ScanFinal(text: string, start: nat) returns (end: nat)
    requires start <= |text|
    ensures start <= end <= |text| && NoFinal(text[start..end]) && (end < |text| ==> FinalByte(text[end]))
  {
    end := start;
    while end < |text| && !FinalByte(text[end])
      invariant start <= end <= |text|
      invariant NoFinal(text[start..end])
    {
      assert text[start..end + 1] == text[start..end] + [text[end]];
      end := end + 1;
    }
  }

  // The text so far is what was segmented and what is in the buffer.
  ghost predicate Written(out: seq<(char, Style)>, segments: seq<Segment>, buf: string, s: Style) {
    out == Flat(segments) + Paint(buf, s) && forall g :: g in segments ==> g.text != ""
  }

  lemma WriteChar(out: seq<(char, Style)>, segments: seq<Segment>, buf: string, s: Style, c: char)
    requires Written(out, segments, buf, s)
    ensures Written(out + [(c, s)], segments, buf + [c], s)
  {
  }

  lemma Flushed(out: seq<(char, Style)>, segments: seq<Segment>, buf: string, s: Style, next: Style)
    requires Written(out, segments, buf, s)
    ensures Written(out, if buf != "" then segments + [Segment(buf, s)] else segments, "", next)
  {
  }

  lemma NothingWritten()
    ensures Written([], [], "", PLAIN)
  {
  }

  lemma AllWritten(out: seq<(char, Style)>, segments: seq<Segment>, s: Style)
    requires Written(out, segments, "", s)
    ensures out == Flat(segments) && forall g :: g in segments ==> g.text != ""
  {
  }

  method ParseAnsi(text: string, number: string -> Code) returns (segments: seq<Segment>)
    ensures Flat(segments) == Styled(Lex(text).0, PLAIN, number)
    ensures forall g :: g in segments ==> g.text != ""
  {
    NothingWritten();
    hide Written, Flat, Paint, At, Opens, Styled, Lex, FinalByte, NoFinal, Split, Sgr, First;
    segments := [];
    var state, buf, i := PLAIN, "", 0;
    ghost var out: seq<(char, Style)> := [];
    AtStart(text, number);
    while i < |text|
      invariant 0 <= i <= |text|
      invariant Written(out, segments, buf, state) && At(text, i, out, state, number)
    {
      OpensIs(text, i);
      if text[i] == ESC && i + 1 < |text| && text[i + 1] == '[' {
        ghost var before := state;
        Flushed(out, segments, buf, state, state);
        if buf != "" {
          segments := segments + [Segment(buf, state)];
          buf := "";
        }
        var start := i + 2;
        var end := ScanFinal(text, start);
        PassSequence(text, i, end, out, state, number);
        if end >= |text| {
          break;
        }
        var final, params := text[end], text[start..end];
        i := end + 1;
        if final != 'm' {
          continue;
        }
        var codes := [Num(0.0)];
        if params != "" {
          var parts := Split(params, ';');
          codes := seq(|parts|, k requires 0 <= k < |parts| => number(parts[k]));
        }
        state := ApplyCodes(codes, state);
        Flushed(out, segments, "", before, state);
      } else {
        PassChar(text, i, out, state, number);
        WriteChar(out, segments, buf, state, text[i]);
        out := out + [(text[i], state)];
        buf := buf + [text[i]];
        i := i + 1;
      }
    }
    if i >= |text| {
      AtEnd(text, out, state, number);
    }
    Flushed(out, segments, buf, state, state);
    if buf != "" {
      segments := segments + [Segment(buf, state)];
    }
    AllWritten(out, segments, state);
  }

  // ----- main results about parsing -----

  function Front(token: Token, s: Style): seq<(char, Style)> { if token.Char? then [(token.c, s)] else [] }

  lemma StyledCons(token: Token, ts: seq<Token>, s: Style, number: string -> Code)
    ensures var r := Restyle(token, s, number);
            Styled([token] + ts, s, number) == Front(token, s) + Styled(ts, r, number) && StyleAfter([token] + ts, s, number) == StyleAfter(ts, r, number)
  {
  }

  lemma {:induction false} StyledConcat(a: seq<Token>, b: seq<Token>, s: Style, number: string -> Code)
    ensures Styled(a + b, s, number) == Styled(a, s, number) + Styled(b, StyleAfter(a, s, number), number)
    ensures StyleAfter(a + b, s, number) == StyleAfter(b, StyleAfter(a, s, number), number)
  {
    if a == [] {
      assert Styled(a, s, number) == [] && StyleAfter(a, s, number) == s;
      hide *;
      assert a + b == b && [] + Styled(b, s, number) == Styled(b, s, number);
    } else {
      hide *;
      var r := Restyle(a[0], s, number);
      StyledConcat(a[1..], b, r, number);
      StyledCons(a[0], a[1..], s, number);
      StyledCons(a[0], a[1..] + b, s, number);
      assert [a[0]] + a[1..] == a && [a[0]] + (a[1..] + b) == a + b;
      Regroup(Front(a[0], s), Styled(a[1..], r, number), Styled(b, StyleAfter(a[1..], r, number), number));
    }
  }

  lemma Regroup<T>(a: seq<T>, b: seq<T>, c: seq<T>)
    ensures (a + b) + c == a + (b + c)
  {
  }

  // Parsing a + b is parsing a, then parsing b from the style that a leaves.
  lemma ParseComposes(a: string, b: string, s: Style, number: string -> Code)
    requires Closed(a, b)
    ensures Styled(Lex(a + b).0, s, number)
         == Styled(Lex(a).0, s, number) + Styled(Lex(b).0, StyleAfter(Lex(a).0, s, number), number)
  {
    LexConcat(a, b);
    StyledConcat(Lex(a).0, Lex(b).0, s, number);
  }

  function Letters(styled: seq<(char, Style)>): (t: string)
    ensures |t| == |styled|
  {
    seq(|styled|, i requires 0 <= i < |styled| => styled[i].0)
  }

  // The styles do not matter for what is kept, and every style on the way names each colour once.
  lemma {:induction false} StyledKeeps(ts: seq<Token>, s: Style, number: string -> Code)
    requires OneColour(s)
    ensures Letters(Styled(ts, s, number)) == Kept(ts)
    ensures forall i :: 0 <= i < |Styled(ts, s, number)| ==> OneColour(Styled(ts, s, number)[i].1)
  {
    if ts != [] {
      if ts[0].Sequence? && ts[0].final == 'm' {
        SgrKeepsOneColour(Codes(ts[0].params, number), s);
      }
      hide OneColour, Sgr, Codes;
      StyledKeeps(ts[1..], Restyle(ts[0], s, number), number);
    }
  }

  // ----- stripping -----

  predicate Parameter(c: char) { '0' <= c <= '9' || c == ';' }

  predicate Letter(c: char) { 'a' <= c <= 'z' || 'A' <= c <= 'Z' }

  function Parameters(t: string): (n: nat)
    ensures n <= |t|
  {
    if t != "" && Parameter(t[0]) then 1 + Parameters(t[1..]) else 0
  }

  // The length of a match of the stripping expression at the front of t, or 0.
  function Match(t: string): (n: nat)
    ensures n <= |t|
  {
    if !Opens(t) then 0 else
    var n := 2 + Parameters(t[2..]);
    if n < |t| && Letter(t[n]) then n + 1 else 0
  }

  // A global replacement by nothing: leftmost matches, none overlapping.
  function StripAnsi(t: string): string
    decreases |t|
  {
    if t == "" then ""
    else if Match(t) > 0 then StripAnsi(t[Match(t)..])
    else [t[0]] + StripAnsi(t[1..])
  }

  predicate Simple(token: Token) {
    token.Sequence? ==> Letter(token.final) && forall i :: 0 <= i < |token.params| ==> Parameter(token.params[i])
  }

  lemma {:induction false} ParametersSpec(params: string, rest: string)
    requires forall i :: 0 <= i < |params| ==> Parameter(params[i])
    requires rest == "" || !Parameter(rest[0])
    ensures Parameters(params + rest) == |params|
  {
    if params == "" {
      assert params + rest == rest;
    } else {
      assert (params + rest)[1..] == params[1..] + rest;
      ParametersSpec(params[1..], rest);
    }
  }

  lemma MatchIs(token: Token, rest: string)
    requires Good(token) && Simple(token) && (token == Char(ESC) && rest != "" ==> rest[0] != '[')
    ensures Match(Spell(token) + rest) == if token.Char? then 0 else |Spell(token)|
  {
    if token.Char? {
      assert Spell(token) + rest == [token.c] + rest;
    } else {
      SequenceMatches(token.params, token.final, rest);
    }
  }

  lemma SequenceMatches(params: string, final: char, rest: string)
    requires Letter(final) && forall i :: 0 <= i < |params| ==> Parameter(params[i])
    ensures Match([ESC, '['] + params + [final] + rest) == 3 + |params|
  {
    ParametersSpec(params, [final] + rest);
    hide Parameters;
    var t := [ESC, '['] + params + [final] + rest;
    var n := |params|;
    assert t[2..] == params + ([final] + rest);
    assert t[n + 2] == final && Opens(t);
    hide Parameter;
  }

  lemma StripStep(token: Token, t: string, rest: string)
    requires t == Spell(token) + rest && Match(t) == if token.Char? then 0 else |Spell(token)|
    ensures StripAnsi(t) == (if token.Char? then [token.c] else "") + StripAnsi(rest)
  {
    hide Match;
    assert t[|Spell(token)|..] == rest;
  }

  lemma {:induction false} StripKeeps(ts: seq<Token>)
    requires Proper(ts) && forall k :: k in ts ==> Simple(k)
    ensures StripAnsi(Unlex(ts)) == Kept(ts)
  {
    hide Match, Spell, Simple, Good;
    if ts != [] {
      var rest := Unlex(ts[1..]);
      var t := Spell(ts[0]) + rest;
      BracketFirst(ts[1..], "");
      assert rest + "" == rest;
      MatchIs(ts[0], rest);
      StripKeeps(ts[1..]);
      assert t[|Spell(ts[0])|..] == rest;
      StripStep(ts[0], t, rest);
    }
  }

  // When every sequence is simple and none is cut off, the two keep the same characters.
  lemma StripAgrees(t: string)
    requires Lex(t).1 == "" && forall k :: k in Lex(t).0 ==> Simple(k)
    ensures StripAnsi(t) == Kept(Lex(t).0)
  {
    LexSpells(t);
    StripKeeps(Lex(t).0);
    assert Unlex(Lex(t).0) + "" == Unlex(Lex(t).0);
  }

  // ----- the converse, by counting escape characters -----

  function Escapes(t: string): nat {
    if t == "" then 0 else (if t[0] == ESC then 1 else 0) + Escapes(t[1..])
  }

  // Escape characters that no bracket follows.
  function Lone(t: string): nat {
    if t == "" then 0 else (if t[0] == ESC && !Opens(t) then 1 else 0) + Lone(t[1..])
  }

  // Openings of a sequence at which the stripping expression does not match.
  function Unmatched(t: string): nat {
    if t == "" then 0 else (if Opens(t) && Match(t) == 0 then 1 else 0) + Unmatched(t[1..])
  }

  lemma {:induction false} CountsDrop(t: string, n: nat)
    requires n <= |t|
    ensures Lone(t[n..]) <= Lone(t) && Unmatched(t[n..]) <= Unmatched(t)
    ensures (forall i :: 0 <= i < n ==> t[i] != ESC) ==> Lone(t[n..]) == Lone(t) && Unmatched(t[n..]) == Unmatched(t)
  {
    hide Match;
    if n > 0 {
      assert t[1..][n - 1..] == t[n..];
      CountsDrop(t[1..], n - 1);
    }
  }

  lemma {:induction false} ParametersArePlain(t: string)
    ensures forall i :: 0 <= i < Parameters(t) ==> Parameter(t[i])
  {
    if t != "" && Parameter(t[0]) {
      ParametersArePlain(t[1..]);
    }
  }

  // A match is an opening, parameters and a letter.
  lemma MatchShape(t: string)
    requires Match(t) > 0
    ensures var n := Match(t);
            Opens(t) && n >= 3 && Letter(t[n - 1]) && forall i :: 2 <= i < n - 1 ==> Parameter(t[i])
  {
    ParametersArePlain(t[2..]);
  }

  lemma CountsPassMatch(t: string)
    requires Match(t) > 0
    ensures Lone(t) == Lone(t[Match(t)..]) && Unmatched(t) == Unmatched(t[Match(t)..])
  {
    MatchShape(t);
    var n := Match(t);
    hide Match;
    assert t[1..][n - 1..] == t[n..];
    assert forall i :: 0 <= i < n - 1 ==> t[1..][i] == t[i + 1] != ESC;
    CountsDrop(t[1..], n - 1);
  }

  lemma {:induction false} StrippedEscapes(t: string)
    ensures Escapes(StripAnsi(t)) == Lone(t) + Unmatched(t)
    decreases |t|
  {
    hide Match;
    if t != "" && Match(t) > 0 {
      StrippedEscapes(t[Match(t)..]);
      CountsPassMatch(t);
    } else if t != "" {
      StrippedEscapes(t[1..]);
      var kept := [t[0]] + StripAnsi(t[1..]);
      assert kept[1..] == StripAnsi(t[1..]) && StripAnsi(t) == kept;
    }
  }

  lemma KeptCons(token: Token, ts: seq<Token>)
    ensures Kept([token] + ts) == (if token.Char? then [token.c] else "") + Kept(ts)
  {
  }

  lemma LexCons(t: string)
    requires t != ""
    ensures First(t).None? ==> Lex(t) == ([], t)
    ensures First(t).Some? ==>
              var token, (ts, tail) := First(t).value, Lex(t[|Spell(First(t).value)|..]); Lex(t) == ([token] + ts, tail)
  {
    hide First, Spell;
  }

  lemma {:induction false} KeptEscapes(t: string)
    ensures Escapes(Kept(Lex(t).0)) <= Lone(t)
    decreases |t|
  {
    assert Kept([]) == "" && Escapes("") == 0 && Lex("") == ([], "");
    hide Kept, Lex, First, Spell, Lone, Opens;
    if t != "" {
      LexCons(t);
      if First(t).Some? {
        var token := First(t).value;
        var n := |Spell(token)|;
        KeptEscapes(t[n..]);
        KeptCons(token, Lex(t[n..]).0);
        CountsDrop(t, n);
        if token.Char? {
          FrontIsChar(t);
          CountsFront(t, Kept(Lex(t[n..]).0));
        } else {
          assert "" + Kept(Lex(t[n..]).0) == Kept(Lex(t[n..]).0);
        }
      }
    }
  }

  lemma CountsFront(t: string, kept: string)
    requires t != "" && !Opens(t)
    ensures Escapes([t[0]] + kept) == Escapes(kept) + Lone(t) - Lone(t[1..])
  {
    assert ([t[0]] + kept)[1..] == kept;
  }

  lemma FrontIsChar(t: string)
    requires t != "" && First(t).Some? && First(t).value.Char?
    ensures First(t) == Some(Char(t[0])) && !Opens(t) && |Spell(First(t).value)| == 1
  {
  }

  lemma FirstOfMatch(t: string)
    requires Match(t) > 0
    ensures First(t).Some? && Simple(First(t).value) && |Spell(First(t).value)| == Match(t)
  {
    MatchShape(t);
    var n := Match(t);
    hide Match, First;
    FirstIs(t, 0, n - 1);
    assert t[0..] == t;
    SpellLength(First(t).value);
  }

  lemma FirstOfOther(t: string)
    requires t != "" && !Opens(t)
    ensures First(t) == Some(Char(t[0])) && Spell(First(t).value) == [t[0]]
  {
  }

  lemma {:induction false} AllMatchedIsSimple(t: string)
    requires Unmatched(t) == 0
    ensures Lex(t).1 == "" && forall k :: k in Lex(t).0 ==> Simple(k)
    decreases |t|
  {
    hide Match, First, Simple, Spell;
    if t != "" {
      if Opens(t) {
        FirstOfMatch(t);
      } else {
        FirstOfOther(t);
        assert Simple(First(t).value) by {
          CharIsSimple(t[0]);
        }
      }
      var n := |Spell(First(t).value)|;
      CountsDrop(t, n);
      AllMatchedIsSimple(t[n..]);
    }
  }

  lemma CharIsSimple(c: char)
    ensures Simple(Char(c))
  {
  }

  // The parser and the stripper keep the same characters exactly when every sequence is digits and
  // semicolons ended by a letter, and none is cut off.
  lemma StripAgreesExactly(t: string)
    ensures StripAnsi(t) == Kept(Lex(t).0) <==> Lex(t).1 == "" && forall k :: k in Lex(t).0 ==> Simple(k)
  {
    hide StripAnsi, Kept, Lex, Simple, Lone, Unmatched, Escapes;
    if StripAnsi(t) == Kept(Lex(t).0) {
      StrippedEscapes(t);
      KeptEscapes(t);
      AllMatchedIsSimple(t);
    }
    if Lex(t).1 == "" && forall k :: k in Lex(t).0 ==> Simple(k) {
      StripAgrees(t);
    }
  }

  // For one: the parser takes the second bracket as the end of the first sequence.
  lemma StripDisagrees()
    ensures var t := [ESC, '[', ESC, '[', '1', 'm'];
            StripAnsi(t) == [ESC, '['] && Kept(Lex(t).0) == "1m"
  {
    var t := [ESC, '[', ESC, '[', '1', 'm'];
    var ts := [Sequence([ESC], '['), Char('1'), Char('m')];
    assert Unlex(ts[3..]) == "";
    assert Unlex(ts[2..]) == "m";
    assert Unlex(ts[1..]) == "1m";
    assert Unlex(ts) == t && t + "" == t;
    assert Proper(ts[2..]) && Proper(ts[1..]);
    LexUnique(ts, "");
    assert t[2..][0] == ESC && Match(t) == 0;
    assert t[1..][0] == '[' && Match(t[1..]) == 0 && t[1..][1..] == t[2..];
    ParametersSpec("1", "m");
    assert t[2..][2..] == "1" + "m";
    assert Match(t[2..]) == 4 && t[2..][4..] == "";
    assert StripAnsi(t[2..]) == "";
    assert Kept(ts[1..]) == "1" + Kept(ts[2..]);
  }
}
