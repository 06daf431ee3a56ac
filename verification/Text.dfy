/** The string functions of Go's standard library that the models share. */
module Text {

  // Go's strings.Join and strings.Split for a one-character separator.
  function Join(parts: seq<string>, sep: char): string {
    if parts == [] then ""
    else if |parts| == 1 then parts[0]
    else parts[0] + [sep] + Join(parts[1..], sep)
  }

  function Split(s: string, sep: char): (parts: seq<string>)
    ensures parts != []
  {
    if s == "" then [""]
    else
      var rest := Split(s[1..], sep);
      if s[0] == sep then [""] + rest else [[s[0]] + rest[0]] + rest[1..]
  }

  predicate Without(parts: seq<string>, sep: char) {
    forall i :: 0 <= i < |parts| ==> sep !in parts[i]
  }

  lemma {:induction false} SplitConcat(a: string, b: string, sep: char)
    requires sep !in a
    ensures Split(a, sep) == [a]
    ensures Split(a + [sep] + b, sep) == [a] + Split(b, sep)
  {
    if a == "" {
      assert (a + [sep] + b)[1..] == b;
    } else {
      SplitConcat(a[1..], b, sep);
      assert (a + [sep] + b)[1..] == a[1..] + [sep] + b;
      assert [a[0]] + a[1..] == a;
    }
  }

  lemma {:induction false} SplitOfJoin(parts: seq<string>, sep: char)
    requires parts != [] && Without(parts, sep)
    ensures Split(Join(parts, sep), sep) == parts
  {
    if |parts| == 1 {
      SplitConcat(parts[0], "", sep);
    } else {
      SplitOfJoin(parts[1..], sep);
      SplitConcat(parts[0], Join(parts[1..], sep), sep);
    }
  }

  lemma {:induction false} JoinSnoc(parts: seq<string>, last: string, sep: char)
    requires parts != []
    ensures Join(parts + [last], sep) == Join(parts, sep) + [sep] + last
  {
    if |parts| == 1 {
      assert (parts + [last])[1..] == [last];
    } else {
      JoinSnoc(parts[1..], last, sep);
      assert (parts + [last])[1..] == parts[1..] + [last];
    }
  }

  function TrimLeft(s: string, c: char): string {
    if s != "" && s[0] == c then TrimLeft(s[1..], c) else s
  }

  function TrimRight(s: string, c: char): string {
    if s != "" && s[|s| - 1] == c then TrimRight(s[..|s| - 1], c) else s
  }

  // unicode.IsSpace
  predicate Space(c: char) {
    c in " \t\n\r" || c == '\U{B}' || c == '\U{C}' || c == '\U{85}' || c == '\U{A0}' || c == '\U{1680}' ||
    '\U{2000}' <= c <= '\U{200A}' || c == '\U{2028}' || c == '\U{2029}' || c == '\U{202F}' ||
    c == '\U{205F}' || c == '\U{3000}'
  }

  function TrimSpaceLeft(s: string): string {
    if s != "" && Space(s[0]) then TrimSpaceLeft(s[1..]) else s
  }

  function TrimSpaceRight(s: string): (r: string)
    ensures r <= s
  {
    if s != "" && Space(s[|s| - 1]) then TrimSpaceRight(s[..|s| - 1]) else s
  }

  function TrimSpace(s: string): string { TrimSpaceRight(TrimSpaceLeft(s)) }

  predicate Trimmed(s: string) { s == "" || (!Space(s[0]) && !Space(s[|s| - 1])) }

  // Trimming removes white space at both ends and nothing else; a trimmed text stays as it is.
  lemma {:induction false} TrimSpaceSpec(s: string)
    ensures Trimmed(TrimSpace(s))
    ensures Trimmed(s) <==> TrimSpace(s) == s
    ensures |TrimSpace(s)| <= |s|
  {
    LeftTrims(s);
    RightTrims(TrimSpaceLeft(s));
  }

  lemma {:induction false} LeftTrims(s: string)
    ensures var r := TrimSpaceLeft(s); |r| <= |s| && s[|s| - |r|..] == r && (r == "" || !Space(r[0]))
    ensures s == "" || !Space(s[0]) ==> TrimSpaceLeft(s) == s
  {
    if s != "" && Space(s[0]) {
      LeftTrims(s[1..]);
    }
  }

  lemma {:induction false} RightTrims(s: string)
    ensures var r := TrimSpaceRight(s); r <= s && (r == "" || !Space(r[|r| - 1]))
    ensures s == "" || !Space(s[|s| - 1]) ==> TrimSpaceRight(s) == s
  {
    if s != "" && Space(s[|s| - 1]) {
      RightTrims(s[..|s| - 1]);
    }
  }

  // Lower case as far as ASCII goes: besides A to Z only the Kelvin sign and the dotted capital I have a
  // lower case among a to z.
  function Lower(c: char): char {
    if 'A' <= c <= 'Z' then c - 'A' + 'a'
    else if c == '\U{212A}' then 'k'
    else if c == '\U{0130}' then 'i'
    else c
  }

  function ToLower(s: string): string { seq(|s|, i requires 0 <= i < |s| => Lower(s[i])) }

  // strconv.Atoi, with 0 for what is no 64-bit integer.
  function Atoi(t: string): int {
    var u := if t != "" && t[0] in "+-" then t[1..] else t;
    if u == "" || exists c :: c in u && !('0' <= c <= '9') then 0
    else
      var n := if t[0] == '-' then -DecimalValue(u) else DecimalValue(u);
      if -0x8000_0000_0000_0000 <= n < 0x8000_0000_0000_0000 then n else 0
  }

  function DecimalValue(t: string): (n: int)
    ensures n >= 0
  {
    if t == "" then 0
    else DecimalValue(t[..|t| - 1]) * 10 + if '0' <= t[|t| - 1] <= '9' then t[|t| - 1] as int - '0' as int else 0
  }
}
