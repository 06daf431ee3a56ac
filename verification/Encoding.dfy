/** Base64url as the action token uses it (RFC 4648, section 5), UTF-8, and decimal integers. */
module Encoding {
  import opened Json
  import opened Options
  import opened Text

  type Byte = x: nat | x < 256

  // ----- base64url -----

  function Sextet(n: nat): char
    requires n < 64
  {
    (if n < 26 then 'A' as int + n
     else if n < 52 then 'a' as int + n - 26
     else if n < 62 then '0' as int + n - 52
     else if n == 62 then '-' as int else '_' as int) as char
  }

  function Unsextet(c: char): Option<nat> {
    if 'A' <= c <= 'Z' then Some(c as int - 'A' as int)
    else if 'a' <= c <= 'z' then Some(c as int - 'a' as int + 26)
    else if '0' <= c <= '9' then Some(c as int - '0' as int + 52)
    else if c == '-' then Some(62)
    else if c == '_' then Some(63)
    else None
  }

  lemma SextetReads(n: nat)
    requires n < 64
    ensures Unsextet(Sextet(n)) == Some(n)
  {
  }

  // The four sextets of three bytes.
  function First(x: Byte): nat { x / 4 }

  function Second(x: Byte, y: Byte): nat { x % 4 * 16 + y / 16 }

  function Third(y: Byte, z: Byte): nat { y % 16 * 4 + z / 64 }

  function Fourth(z: Byte): nat { z % 64 }

  function Four(x: Byte, y: Byte, z: Byte): (t: string)
    ensures |t| == 4
  {
    [Sextet(First(x)), Sextet(Second(x, y)), Sextet(Third(y, z)), Sextet(Fourth(z))]
  }

  // URLEncoding.EncodeToString: groups of three bytes, the last one padded.
  function Base64(b: seq<Byte>): (t: string)
    decreases |b|
  {
    if b == [] then ""
    else if |b| == 1 then Four(b[0], 0, 0)[..2] + "=="
    else if |b| == 2 then Four(b[0], b[1], 0)[..3] + "="
    else Four(b[0], b[1], b[2]) + Base64(b[3..])
  }

  // URLEncoding.DecodeString, which skips line ends and takes padding only in the last group.
  function Unbase64(t: string): Option<seq<Byte>> { Groups(SkipLineEnds(t)) }

  function SkipLineEnds(t: string): string {
    if t == "" then "" else (if t[0] == '\r' || t[0] == '\n' then "" else [t[0]]) + SkipLineEnds(t[1..])
  }

  function Sextets(t: string, n: nat): bool
    requires n <= |t|
  {
    forall i :: 0 <= i < n ==> Unsextet(t[i]).Some?
  }

  function Groups(t: string): Option<seq<Byte>>
    decreases |t|
  {
    if t == "" then Some([])
    else if |t| < 4 || !Sextets(t, 2) then None
    else
      var a, b := Unsextet(t[0]).value, Unsextet(t[1]).value;
      if t[2..] == "==" then Some([a * 4 + b / 16])
      else if !Sextets(t, 3) then None
      else
        var c := Unsextet(t[2]).value;
        if t[3..] == "=" then Some([a * 4 + b / 16, b % 16 * 16 + c / 4])
        else if !Sextets(t, 4) then None
        else
          match Groups(t[4..])
          case None => None
          case Some(rest) => Some([a * 4 + b / 16, b % 16 * 16 + c / 4, c % 4 * 64 + Unsextet(t[3]).value] + rest)
  }

  lemma Bits(x: Byte, y: Byte, z: Byte)
    ensures var a, b, c, d := First(x), Second(x, y), Third(y, z), Fourth(z);
            a < 64 && b < 64 && c < 64 && d < 64 && a * 4 + b / 16 == x && b % 16 * 16 + c / 4 == y && c % 4 * 64 + d == z
  {
  }

  lemma FourReads(x: Byte, y: Byte, z: Byte)
    ensures var t := Four(x, y, z);
            && Bare(t) && Unsextet(t[0]).value * 4 + Unsextet(t[1]).value / 16 == x
            && Unsextet(t[1]).value % 16 * 16 + Unsextet(t[2]).value / 4 == y
            && Unsextet(t[2]).value % 4 * 64 + Unsextet(t[3]).value == z
  {
    Bits(x, y, z);
    SextetReads(First(x));
    SextetReads(Second(x, y));
    SextetReads(Third(y, z));
    SextetReads(Fourth(z));
    hide Sextet, Unsextet, First, Second, Third, Fourth;
  }

  // One group of four characters that are no padding.
  lemma OneGroup(u: string, q: string, rest: seq<Byte>)
    requires |q| == 4 && Bare(q) && q <= u && Groups(u[4..]) == Some(rest)
    ensures Groups(u).Some? && |Groups(u).value| == 3 + |rest| && Groups(u).value[3..] == rest
    ensures var g := Groups(u).value;
            && g[0] == Unsextet(q[0]).value * 4 + Unsextet(q[1]).value / 16
            && g[1] == Unsextet(q[1]).value % 16 * 16 + Unsextet(q[2]).value / 4
            && g[2] == Unsextet(q[2]).value % 4 * 64 + Unsextet(q[3]).value
  {
  }

  lemma GroupReads(x: Byte, y: Byte, z: Byte, t: string, rest: seq<Byte>)
    requires Groups(t) == Some(rest)
    ensures Groups(Four(x, y, z) + t) == Some([x, y, z] + rest)
  {
    hide *;
    FourReads(x, y, z);
    var u := Four(x, y, z) + t;
    assert u[4..] == t;
    OneGroup(u, Four(x, y, z), rest);
    var g := Groups(u).value;
    assert g == g[..3] + g[3..];
    assert g[..3] == [x, y, z];
  }

  lemma LastGroupReads(x: Byte, y: Byte)
    ensures Groups(Four(x, 0, 0)[..2] + "==") == Some([x])
    ensures Groups(Four(x, y, 0)[..3] + "=") == Some([x, y])
  {
    FourReads(x, 0, 0);
    FourReads(x, y, 0);
    PadIsNoSextet();
    hide Unsextet, Four;
    var u, v := Four(x, 0, 0)[..2] + "==", Four(x, y, 0)[..3] + "=";
    assert u[2..] == "==";
    assert v[3..] == "=" && v[2..][0] == v[2];
  }

  lemma {:induction false} GroupsRead(b: seq<Byte>)
    ensures Groups(Base64(b)) == Some(b)
    decreases |b|
  {
    assert Groups("") == Some([]);
    hide Groups, Four;
    if b == [] {
    } else if |b| <= 2 {
      LastGroupReads(b[0], if |b| == 2 then b[1] else 0);
      assert b == [b[0]] || b == [b[0], b[1]];
    } else {
      GroupsRead(b[3..]);
      GroupReads(b[0], b[1], b[2], Base64(b[3..]), b[3..]);
      assert b == [b[0], b[1], b[2]] + b[3..];
    }
  }

  lemma PadIsNoSextet()
    ensures Unsextet('=') == None
  {
  }

  // What the token carries: the text without its padding.
  predicate Bare(t: string) { forall i :: 0 <= i < |t| ==> Unsextet(t[i]).Some? }

  function Pad(n: nat): string { if n == 0 then "" else "=" + Pad(n - 1) }

  function Repad(t: string): string { t + Pad((4 - |t| % 4) % 4) }

  lemma LastGroupShape(x: Byte, y: Byte)
    ensures var t, u := Four(x, 0, 0)[..2], Four(x, y, 0)[..3];
            Bare(t) && Bare(u) && Repad(t) == t + "==" && Repad(u) == u + "="
  {
    FourReads(x, 0, 0);
    FourReads(x, y, 0);
    hide Unsextet, Four;
    assert Pad(2) == "==" && Pad(1) == "=";
  }

  lemma {:induction false} Base64Shape(b: seq<Byte>) returns (t: string)
    ensures Bare(t) && Base64(b) == Repad(t) && (b != [] ==> t != "")
    decreases |b|
  {
    assert Bare("") && Repad("") == "";
    hide Bare, Four, Repad;
    t := "";
    if b == [] {
    } else if |b| <= 2 {
      LastGroupShape(b[0], if |b| == 2 then b[1] else 0);
      t := if |b| == 1 then Four(b[0], 0, 0)[..2] else Four(b[0], b[1], 0)[..3];
    } else {
      FourReads(b[0], b[1], b[2]);
      var rest := Base64Shape(b[3..]);
      t := Four(b[0], b[1], b[2]) + rest;
      Prefixed(Four(b[0], b[1], b[2]), rest);
    }
  }

  lemma Prefixed(first: string, rest: string)
    requires |first| == 4 && Bare(first) && Bare(rest)
    ensures Bare(first + rest) && first + Repad(rest) == Repad(first + rest)
  {
  }

  lemma {:induction false} StripPad(t: string, n: nat)
    requires t == "" || t[|t| - 1] != '='
    ensures TrimRight(t + Pad(n), '=') == t
  {
    assert Pad(0) == "" && TrimRight(t, '=') == t;
    hide *;
    if n == 0 {
      assert t + "" == t;
    } else {
      StripPad(t, n - 1);
      PadEnds(n - 1);
      EndsTrimmed(t + Pad(n), t + Pad(n - 1));
    }
  }

  lemma EndsTrimmed(u: string, v: string)
    requires u == v + "="
    ensures TrimRight(u, '=') == TrimRight(v, '=')
  {
  }

  lemma {:induction false} PadEnds(n: nat)
    ensures Pad(n + 1) == Pad(n) + "=" && |Pad(n)| == n
  {
    if n > 0 {
      PadEnds(n - 1);
    }
  }

  function Strip(b: seq<Byte>): string { TrimRight(Base64(b), '=') }

  lemma {:induction false} NoLineEnds(t: string)
    requires '\r' !in t && '\n' !in t
    ensures SkipLineEnds(t) == t
  {
    if t != "" {
      NoLineEnds(t[1..]);
    }
  }

  lemma {:induction false} PadChars(n: nat)
    ensures forall c :: c in Pad(n) ==> c == '='
  {
    if n > 0 {
      PadChars(n - 1);
    }
  }

  // Stripping the padding and putting it back is a round trip at every length.
  lemma StripRoundTrip(b: seq<Byte>)
    ensures Bare(Strip(b)) && (b != [] ==> Strip(b) != "")
    ensures Unbase64(Repad(Strip(b))) == Some(b)
  {
    hide Unsextet, Groups, Base64, TrimRight;
    var t := Base64Shape(b);
    var n := (4 - |t| % 4) % 4;
    assert t == "" || t[|t| - 1] != '=' by {
      PadIsNoSextet();
    }
    StripPad(t, n);
    GroupsRead(b);
    PadChars(n);
    BareHasNoLineEnds(t);
    assert '\r' !in Repad(t) && '\n' !in Repad(t);
    NoLineEnds(Repad(t));
  }

  lemma BareHasNoLineEnds(t: string)
    requires Bare(t)
    ensures '\r' !in t && '\n' !in t && '.' !in t && (t != "" ==> Trimmed(t))
  {
  }

  // ----- UTF-8 -----

  function CharBytes(c: char): (b: seq<Byte>)
    ensures 1 <= |b| <= 4
  {
    var n := c as int;
    if n < 0x80 then [n]
    else if n < 0x800 then [0xC0 + n / 64, 0x80 + n % 64]
    else if n < 0x10000 then [0xE0 + n / 64 / 64, 0x80 + n / 64 % 64, 0x80 + n % 64]
    else [0xF0 + n / 64 / 64 / 64, 0x80 + n / 64 / 64 % 64, 0x80 + n / 64 % 64, 0x80 + n % 64]
  }

  function Utf8(s: string): seq<Byte> {
    if s == "" then [] else CharBytes(s[0]) + Utf8(s[1..])
  }

  // The number that the bytes at the front of b spell, if they are laid out like a character.
  function FrontNumber(b: seq<Byte>): (n: nat)
    requires b != []
  {
    if 0xC0 <= b[0] < 0xE0 && |b| > 1 then Joined(b[0] - 0xC0, b[1])
    else if 0xE0 <= b[0] < 0xF0 && |b| > 2 then Joined(Joined(b[0] - 0xE0, b[1]), b[2])
    else if 0xF0 <= b[0] < 0xF8 && |b| > 3 then Joined(Joined(Joined(b[0] - 0xF0, b[1]), b[2]), b[3])
    else b[0]
  }

  function Joined(high: nat, low: Byte): nat { high * 64 + low % 64 }

  // Bytes that are not the shortest form of a character read as U+FFFD, one at a time.
  function FromUtf8(b: seq<Byte>): string
    decreases |b|
  {
    if b == [] then ""
    else
      var n := FrontNumber(b);
      if (n < 0xD800 || 0xE000 <= n < 0x110000) && CharBytes(n as char) <= b
      then [n as char] + FromUtf8(b[|CharBytes(n as char)|..])
      else ['\U{FFFD}'] + FromUtf8(b[1..])
  }

  lemma FrontOfChar(c: char, rest: seq<Byte>)
    ensures FrontNumber(CharBytes(c) + rest) == c as int
  {
    var n := c as int;
    JoinedReads(n);
    JoinedReads(n / 64);
    JoinedReads(n / 64 / 64);
    hide Joined;
    var b := CharBytes(c);
    assert forall i :: 0 <= i < |b| ==> (b + rest)[i] == b[i];
  }

  lemma JoinedReads(n: nat)
    ensures Joined(n / 64, 0x80 + n % 64) == n
  {
  }

  lemma {:induction false} Utf8Reads(s: string)
    ensures FromUtf8(Utf8(s)) == s
  {
    if s != "" {
      var rest := Utf8(s[1..]);
      var c := s[0];
      FrontOfChar(c, rest);
      hide CharBytes, FrontNumber;
      Utf8Reads(s[1..]);
      var b := CharBytes(c) + rest;
      assert b[|CharBytes(c)|..] == rest;
      assert (c as int) as char == c;
      assert s == [c] + s[1..];
    }
  }

  // ----- decimal integers -----

  function Digits(n: nat): (t: string)
    ensures t != "" && forall i :: 0 <= i < |t| ==> Digit(t[i])
    ensures n > 0 ==> t[0] != '0'
  {
    if n < 10 then [('0' as int + n) as char] else Digits(n / 10) + [('0' as int + n % 10) as char]
  }

  function Itoa(n: int): string { if n < 0 then "-" + Digits(-n) else Digits(n) }

  predicate AllDigits(t: string) { t != "" && forall i :: 0 <= i < |t| ==> Digit(t[i]) }

  // json.Number.Int64, with 0 for whatever is no 64-bit integer.
  function Int64(t: string): int {
    var u := if t != "" && t[0] == '-' then t[1..] else t;
    if !AllDigits(u) then 0 else
    var n := if t[0] == '-' then -DecimalValue(u) else DecimalValue(u);
    if -0x8000_0000_0000_0000 <= n < 0x8000_0000_0000_0000 then n else 0
  }

  // jnInt and jnToInt: an integer member, or 0.
  function IntField(ms: seq<Member>, key: string): int {
    match Get(ms, key) { case Some(Num(t)) => Int64(t) case _ => 0 }
  }

  lemma {:induction false} DigitsRead(n: nat)
    ensures DecimalValue(Digits(n)) == n
  {
    if n < 10 {
      assert Digits(n)[..0] == "";
    } else {
      DigitsRead(n / 10);
      var t := Digits(n);
      assert t[..|t| - 1] == Digits(n / 10);
    }
  }

  lemma {:induction false} AllDigitsDrop(t: string)
    requires forall i :: 0 <= i < |t| ==> Digit(t[i])
    ensures DropDigits(t) == ""
  {
    if t != "" {
      AllDigitsDrop(t[1..]);
    }
  }

  lemma ItoaReads(n: int)
    requires -0x8000_0000_0000_0000 <= n < 0x8000_0000_0000_0000
    ensures Int64(Itoa(n)) == n && Number(Itoa(n))
  {
    var d := Digits(if n < 0 then -n else n);
    DigitsRead(if n < 0 then -n else n);
    AllDigitsDrop(d);
    if n < 0 {
      assert Itoa(n)[1..] == d;
    } else {
      assert d[0] != '-';
    }
    if n == 0 {
      assert d == "0" && d[1..] == "";
    }
    assert Fraction("");
  }
}
