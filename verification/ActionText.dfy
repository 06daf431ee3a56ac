/** The texts of a proposed action (ai_action_execute.go, sanitizeActionValue): trimmed, and cut after 4096
    bytes. The cut may fall inside a character; JSON then shows each of its stray bytes as U+FFFD. */
module ActionText {
  import opened Encoding
  import opened Text

  const MAX_BYTES := 4096

  // The front of a text in bytes, as JSON shows it.
  function Front(s: string, bytes: nat): string {
    var b := Utf8(s);
    FromUtf8(if |b| > bytes then b[..bytes] else b)
  }

  function SanitizeText(s: string): string { Front(TrimSpace(s), MAX_BYTES) }

  // The characters of the front that are whole, and the number of bytes it keeps of the next one.
  function Whole(s: string, bytes: nat): (r: string)
    ensures r <= s
  {
    if s == "" || |CharBytes(s[0])| > bytes then "" else [s[0]] + Whole(s[1..], bytes - |CharBytes(s[0])|)
  }

  function Torn(s: string, bytes: nat): nat {
    if s == "" then 0 else if |CharBytes(s[0])| > bytes then bytes else Torn(s[1..], bytes - |CharBytes(s[0])|)
  }

  function Strays(n: nat): (r: string)
    ensures |r| == n
  {
    seq(n, i => '\U{FFFD}')
  }

  lemma StrayByte(b: seq<Byte>)
    requires b != [] && (0x80 <= b[0] < 0xC0 || (0xC0 <= b[0] < 0xF8 && |b| == 1) || (0xE0 <= b[0] < 0xF8 && |b| == 2) || (0xF0 <= b[0] < 0xF8 && |b| == 3))
    ensures FromUtf8(b) == Strays(1) + FromUtf8(b[1..])
  {
    assert FrontNumber(b) == b[0];
    var c := CharBytes(b[0] as char);
    assert |c| == 2 && (c[0] == 0xC2 || c[0] == 0xC3);
    assert !(c <= b);
  }

  // The first bytes of a character, short of all, are stray.
  lemma {:induction false} TornReads(c: char, n: nat)
    requires n < |CharBytes(c)|
    ensures FromUtf8(CharBytes(c)[..n]) == Strays(n)
  {
    var b := CharBytes(c)[..n];
    if n == 0 {
      assert b == [];
    } else {
      StrayByte(b);
      if n == 2 {
        StrayByte(b[1..]);
        assert b[1..][1..] == [];
      } else if n == 3 {
        StrayByte(b[1..]);
        StrayByte(b[2..]);
        assert b[1..][1..] == b[2..] && b[2..][1..] == [];
      } else {
        assert b[1..] == [];
      }
    }
  }

  lemma CharReads(c: char, rest: seq<Byte>)
    ensures FromUtf8(CharBytes(c) + rest) == [c] + FromUtf8(rest)
  {
    FrontOfChar(c, rest);
    hide CharBytes, FrontNumber;
    assert (CharBytes(c) + rest)[|CharBytes(c)|..] == rest;
    assert (c as int) as char == c;
  }

  lemma {:induction false} WholeExactly(s: string, bytes: nat)
    ensures Whole(s, bytes) == s <==> |Utf8(s)| <= bytes
    ensures |Utf8(s)| <= bytes ==> Torn(s, bytes) == 0
    ensures |Utf8(s)| > bytes ==> |Utf8(Whole(s, bytes))| + Torn(s, bytes) == bytes && Torn(s, bytes) < 4
  {
    if s != "" && |CharBytes(s[0])| <= bytes {
      hide CharBytes;
      WholeExactly(s[1..], bytes - |CharBytes(s[0])|);
      assert s == [s[0]] + s[1..];
    }
  }

  // What the cut leaves: the whole characters, and one U+FFFD for each byte of the next one.
  lemma {:induction false} FrontReads(s: string, bytes: nat)
    ensures Front(s, bytes) == Whole(s, bytes) + Strays(Torn(s, bytes))
  {
    hide CharBytes, FromUtf8;
    if s == "" {
      Utf8Reads("");
    } else if |CharBytes(s[0])| > bytes {
      assert Utf8(s)[..bytes] == CharBytes(s[0])[..bytes];
      TornReads(s[0], bytes);
    } else {
      FrontStep(s, bytes);
      FrontReads(s[1..], bytes - |CharBytes(s[0])|);
    }
  }

  lemma FrontStep(s: string, bytes: nat)
    requires s != "" && |CharBytes(s[0])| <= bytes
    ensures Front(s, bytes) == [s[0]] + Front(s[1..], bytes - |CharBytes(s[0])|)
  {
    hide CharBytes, FromUtf8;
    var c, n, rest := s[0], bytes - |CharBytes(s[0])|, Utf8(s[1..]);
    if |rest| > n {
      assert (CharBytes(c) + rest)[..bytes] == CharBytes(c) + rest[..n];
      CharReads(c, rest[..n]);
    } else {
      CharReads(c, rest);
    }
  }

  // ----- when a text stays as it is -----

  predicate StraysEnd(s: string, n: nat) { n <= |s| && s[|s| - n..] == Strays(n) }

  // A text one or two U+FFFD too long, which the cut tears and JSON shows again.
  predicate Mended(s: string, bytes: nat) {
    || (StraysEnd(s, 1) && |Utf8(s)| == bytes + 2)
    || (StraysEnd(s, 2) && |Utf8(s)| == bytes + 4)
  }

  lemma {:induction false} Utf8Adds(s: string, t: string)
    ensures Utf8(s + t) == Utf8(s) + Utf8(t)
  {
    hide CharBytes;
    if s == "" {
      assert s + t == t;
    } else {
      Utf8Adds(s[1..], t);
      assert (s + t)[1..] == s[1..] + t;
    }
  }

  lemma {:induction false} StraysBytes(n: nat)
    ensures |Utf8(Strays(n))| == 3 * n
  {
    if n > 0 {
      StraysBytes(n - 1);
      assert Strays(n)[1..] == Strays(n - 1);
    }
  }

  // One or two U+FFFD behind a front that leaves less room than they take.
  lemma {:induction false} MendedStays(s: string, n: nat)
    requires 1 <= n <= 2
    ensures Whole(s + Strays(n), |Utf8(s)| + n) == s && Torn(s + Strays(n), |Utf8(s)| + n) == n
  {
    if s == "" {
      assert s + Strays(n) == Strays(n) && Strays(n)[0] == '\U{FFFD}';
    } else {
      MendedStays(s[1..], n);
      assert (s + Strays(n))[1..] == s[1..] + Strays(n);
      assert s == [s[0]] + s[1..];
    }
  }

  lemma FrontFixed(s: string, bytes: nat)
    ensures Front(s, bytes) == s <==> |Utf8(s)| <= bytes || Mended(s, bytes)
  {
    FrontReads(s, bytes);
    WholeExactly(s, bytes);
    hide Front, Whole, Torn, Utf8, Strays;
    var p, n := Whole(s, bytes), Torn(s, bytes);
    if |Utf8(s)| > bytes {
      if Front(s, bytes) == s {
        Utf8Adds(p, Strays(n));
        StraysBytes(n);
        assert s[|s| - n..] == Strays(n);
        if n == 3 {
          ThreeNeverStay(s, bytes);
        }
      }
      if Mended(s, bytes) {
        var k := if |Utf8(s)| == bytes + 2 then 1 else 2;
        var q := s[..|s| - k];
        assert s == q + Strays(k);
        Utf8Adds(q, Strays(k));
        StraysBytes(k);
        MendedStays(q, k);
      }
    }
  }

  // The character after the whole ones is the one that is torn.
  lemma {:induction false} NextIsTorn(s: string, bytes: nat)
    requires |Utf8(s)| > bytes
    ensures |Whole(s, bytes)| < |s| && Torn(s, bytes) < |CharBytes(s[|Whole(s, bytes)|])|
  {
    hide CharBytes;
    if |CharBytes(s[0])| <= bytes {
      NextIsTorn(s[1..], bytes - |CharBytes(s[0])|);
    }
  }

  lemma ThreeNeverStay(s: string, bytes: nat)
    requires |Utf8(s)| > bytes && Torn(s, bytes) == 3
    ensures Front(s, bytes) != s
  {
    FrontReads(s, bytes);
    NextIsTorn(s, bytes);
    hide Front, Whole, Torn, Utf8;
    assert Front(s, bytes)[|Whole(s, bytes)|] == '\U{FFFD}';
  }

  predicate CleanText(s: string) { Trimmed(s) && (|Utf8(s)| <= MAX_BYTES || Mended(s, MAX_BYTES)) }

  // A text that sanitising gives back had no white space to trim.
  lemma KeptIsTrimmed(s: string)
    requires SanitizeText(s) == s
    ensures Trimmed(s)
  {
    var t := TrimSpace(s);
    TrimSpaceSpec(s);
    FrontReads(t, MAX_BYTES);
    WholeExactly(t, MAX_BYTES);
    StraysAreNoSpace();
    hide TrimSpace, Front, Whole, Torn, Space, Utf8;
    var p, n := Whole(t, MAX_BYTES), Torn(t, MAX_BYTES);
    assert s == p + Strays(n);
    if |Utf8(t)| > MAX_BYTES {
      assert p != "" by {
        assert Utf8("") == [];
      }
    }
  }

  lemma StraysAreNoSpace()
    ensures !Space('\U{FFFD}')
  {
  }

  // Sanitising keeps exactly the trimmed texts that fit or are mended.
  lemma TextFixed(s: string)
    ensures SanitizeText(s) == s <==> CleanText(s)
  {
    TrimSpaceSpec(s);
    FrontFixed(s, MAX_BYTES);
    hide Mended, Front, Trimmed, TrimSpace;
    if SanitizeText(s) == s {
      KeptIsTrimmed(s);
    }
  }

  // ----- when a sanitised text stays as it is -----

  // The text fits, or the cut neither tears a four-byte character after its third byte nor ends with a blank.
  predicate Settles(t: string) {
    |Utf8(t)| > MAX_BYTES ==> Torn(t, MAX_BYTES) != 3 && !(Torn(t, MAX_BYTES) == 0 && EndsBlank(Whole(t, MAX_BYTES)))
  }

  predicate EndsBlank(s: string) { s != "" && Space(s[|s| - 1]) }

  lemma SettlesExactly(s: string)
    ensures CleanText(SanitizeText(s)) <==> Settles(TrimSpace(s))
  {
    var t := TrimSpace(s);
    TrimSpaceSpec(s);
    FrontReads(t, MAX_BYTES);
    WholeExactly(t, MAX_BYTES);
    var p, n := Whole(t, MAX_BYTES), Torn(t, MAX_BYTES);
    if |Utf8(t)| <= MAX_BYTES {
      assert SanitizeText(s) == t;
    } else {
      assert p != "" by {
        assert Utf8("") == [];
      }
      hide TrimSpace, Front, Whole, Torn, Utf8, Mended;
      CutTrimmed(t, p, n);
      Utf8Adds(p, Strays(n));
      StraysBytes(n);
      CutMended(p, n);
    }
  }

  lemma CutTrimmed(t: string, p: string, n: nat)
    requires p <= t && p != "" && Trimmed(t)
    ensures Trimmed(p + Strays(n)) <==> n > 0 || !EndsBlank(p)
  {
    StraysAreNoSpace();
    hide Space;
  }

  lemma CutMended(p: string, n: nat)
    requires |Utf8(p)| + n == MAX_BYTES && n < 4 && |Utf8(p + Strays(n))| == |Utf8(p)| + 3 * n
    ensures |Utf8(p + Strays(n))| <= MAX_BYTES || Mended(p + Strays(n), MAX_BYTES) <==> n < 3
  {
    hide Utf8;
    var s := p + Strays(n);
    assert s[|s| - n..] == Strays(n);
  }

  // ----- two texts that do not settle -----

  function As(n: nat): (r: string)
    ensures |r| == n && forall i :: 0 <= i < n ==> r[i] == 'a'
  {
    seq(n, i => 'a')
  }

  lemma ACut(t: string, bytes: nat)
    requires bytes > 0
    ensures Whole("a" + t, bytes) == "a" + Whole(t, bytes - 1) && Torn("a" + t, bytes) == Torn(t, bytes - 1)
    ensures |Utf8("a" + t)| == 1 + |Utf8(t)|
  {
    assert ("a" + t)[1..] == t;
  }

  lemma {:induction false} AsCut(n: nat, rest: string, bytes: nat)
    requires n <= bytes
    ensures Whole(As(n) + rest, bytes) == As(n) + Whole(rest, bytes - n) && Torn(As(n) + rest, bytes) == Torn(rest, bytes - n)
    ensures |Utf8(As(n) + rest)| == n + |Utf8(rest)|
  {
    hide Whole, Torn, Utf8;
    if n == 0 {
      assert As(0) + rest == rest;
      assert As(0) + Whole(rest, bytes) == Whole(rest, bytes);
    } else {
      var t := As(n - 1) + rest;
      AsCut(n - 1, rest, bytes - 1);
      assert "a" + As(n - 1) == As(n);
      assert As(n) + rest == "a" + t;
      ACut(t, bytes);
      assert As(n) + Whole(rest, bytes - n) == "a" + (As(n - 1) + Whole(rest, bytes - n));
    }
  }

  // A four-byte character torn after its third byte, and a blank where the cut falls.
  function TornText(): string { As(MAX_BYTES - 3) + "\U{1F600}" }

  function BlankText(): string { As(MAX_BYTES - 1) + " a" }

  lemma TornTextMoves()
    ensures Trimmed(TornText()) && !Settles(TornText())
  {
    AsCut(MAX_BYTES - 3, "\U{1F600}", MAX_BYTES);
    assert |CharBytes('\U{1F600}')| == 4;
    assert |Utf8("\U{1F600}")| == 4 && Torn("\U{1F600}", 3) == 3;
    assert !Space('\U{1F600}') && !Space('a');
  }

  lemma BlankTextMoves()
    ensures Trimmed(BlankText()) && !Settles(BlankText())
  {
    AsCut(MAX_BYTES - 1, " a", MAX_BYTES);
    assert " a"[1..] == "a";
    assert |Utf8("a")| == 1 && |Utf8(" a")| == 2;
    assert Whole("a", 0) == "" && Whole(" a", 1) == " " && Torn(" a", 1) == 0;
    assert !Space('a') && Space(' ');
  }
}
