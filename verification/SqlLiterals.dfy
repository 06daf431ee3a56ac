/** Masking the quoted literals of a SQL text and restoring them after the text between them was
    rewritten: replaceSQLOutsideSingleQuotes of ai_view.go. */
module SqlLiterals {
  import opened Encoding
  import opened Json

  function Mark(): string { "__SQL_LITERAL_" }

  function Token(i: nat): (t: string)
    ensures |t| >= 16
  {
    Mark() + Digits(i) + "__"
  }

  lemma MarkChars()
    ensures var m := Mark(); |m| == 14 && m[0] == m[1] == m[5] == m[13] == '_'
    ensures forall i :: 2 <= i < 13 && i != 5 ==> Mark()[i] != '_'
    ensures forall i :: 0 <= i < 14 ==> Mark()[i] != '\''
  {
  }

  lemma TokenChars(i: nat)
    ensures var t, d := Token(i), Digits(i);
            && |t| == 16 + |d| && (forall q :: 0 <= q < 14 ==> t[q] == Mark()[q]) && (forall q :: 0 <= q < |d| ==> t[14 + q] == d[q])
            && t[14 + |d|] == '_' && t[15 + |d|] == '_'
    ensures forall q :: 0 <= q < |Token(i)| ==> Token(i)[q] != '\''
  {
  }

  // ----- replacing -----

  predicate At(s: string, p: int, pat: string) {
    0 <= p && p + |pat| <= |s| && forall q :: 0 <= q < |pat| ==> s[p + q] == pat[q]
  }

  // strings.ReplaceAll for a pattern that is not empty.
  function ReplaceAll(s: string, pat: string, word: string): string
    requires pat != ""
    decreases |s|
  {
    if s == "" then ""
    else if At(s, 0, pat) then word + ReplaceAll(s[|pat|..], pat, word)
    else [s[0]] + ReplaceAll(s[1..], pat, word)
  }

  // A character where the pattern does not begin stays.
  lemma SkipOne(s: string, pat: string, word: string)
    requires pat != "" && s != "" && !At(s, 0, pat)
    ensures ReplaceAll(s, pat, word) == [s[0]] + ReplaceAll(s[1..], pat, word)
  {
  }

  lemma NotAtTail(s: string, n: nat, pat: string)
    requires 0 < n <= |s| && forall p :: 0 <= p < n ==> !At(s, p, pat)
    ensures forall p :: 0 <= p < n - 1 ==> !At(s[1..], p, pat)
  {
    forall p | 0 <= p < n - 1 ensures !At(s[1..], p, pat) {
      assert !At(s, p + 1, pat);
      if p + 1 + |pat| <= |s| {
        var q :| 0 <= q < |pat| && s[p + 1 + q] != pat[q];
        assert s[1..][p + q] != pat[q];
      }
    }
  }

  lemma {:induction false} Skip(s: string, n: nat, pat: string, word: string)
    requires pat != "" && n <= |s| && forall p :: 0 <= p < n ==> !At(s, p, pat)
    ensures ReplaceAll(s, pat, word) == s[..n] + ReplaceAll(s[n..], pat, word)
  {
    hide *;
    if n > 0 {
      assert !At(s, 0, pat);
      SkipOne(s, pat, word);
      NotAtTail(s, n, pat);
      Skip(s[1..], n - 1, pat, word);
      assert s[..n] == [s[0]] + s[1..][..n - 1] && s[1..][n - 1..] == s[n..];
    } else {
      assert s[n..] == s;
    }
  }

  lemma ReplaceNothing(pat: string, word: string)
    requires pat != ""
    ensures ReplaceAll("", pat, word) == ""
  {
  }

  lemma SkipFront(a: string, b: string, pat: string, word: string)
    requires pat != "" && forall p :: 0 <= p < |a| ==> !At(a + b, p, pat)
    ensures ReplaceAll(a + b, pat, word) == a + ReplaceAll(b, pat, word)
  {
    Skip(a + b, |a|, pat, word);
    assert (a + b)[..|a|] == a && (a + b)[|a|..] == b;
  }

  // ----- where a token can begin -----

  ghost predicate MarkFree(s: string) { forall p :: 0 <= p < |s| ==> !At(s, p, Mark()) }

  // What follows a text: the end, a literal, or a token.
  predicate Closes(rest: string) {
    rest == "" || rest[0] == '\'' || (|rest| > 14 && At(rest, 0, Mark()) && '0' <= rest[14] <= '9')
  }

  lemma MarkInFront(u: string, rest: string, p: nat, i: nat)
    requires At(u + rest, p, Token(i)) && p + 14 <= |u|
    ensures At(u, p, Mark())
  {
    hide Mark, Digits, Token;
    MarkChars();
    TokenChars(i);
    forall q | 0 <= q < 14 ensures u[p + q] == Mark()[q] {
      assert (u + rest)[p + q] == u[p + q] && Token(i)[q] == Mark()[q];
    }
  }

  lemma NoTokenInText(u: string, rest: string, i: nat)
    requires MarkFree(u) && Closes(rest)
    ensures forall p :: 0 <= p < |u| ==> !At(u + rest, p, Token(i))
  {
    hide Mark, Digits, Token;
    MarkChars();
    TokenChars(i);
    var t, s := Token(i), u + rest;
    assert t[14] == Digits(i)[0];
    forall p | 0 <= p < |u| ensures !At(s, p, t) {
      if p + 14 <= |u| {
        if At(s, p, t) {
          MarkInFront(u, rest, p, i);
        }
      } else if rest != "" {
        var m := |u| - p;
        assert s[p + m] == rest[0] && t[m] != '\'';
        if rest[0] != '\'' {
          assert s[p + (m + 1)] == rest[1];
          assert rest[0 + 0] == '_' && rest[0 + 1] == '_';
          assert t[m] != '_' || t[m + 1] != '_';
        }
      }
    }
  }

  lemma NoTokenInLiteral(lit: string, rest: string, i: nat)
    requires MarkFree(lit) && lit != "" && (lit[|lit| - 1] == '\'' || rest == "")
    ensures forall p :: 0 <= p < |lit| ==> !At(lit + rest, p, Token(i))
  {
    hide Mark, Digits, Token;
    TokenChars(i);
    var t, s := Token(i), lit + rest;
    forall p | 0 <= p < |lit| ensures !At(s, p, t) {
      if p + 14 <= |lit| {
        if At(s, p, t) {
          MarkInFront(lit, rest, p, i);
        }
      } else if rest != "" {
        assert s[p + (|lit| - 1 - p)] == '\'' && t[|lit| - 1 - p] != '\'';
      }
    }
  }

  // The text right behind a token completes another token from the last underscores of the first.
  predicate Clash(rest: string, i: nat) {
    At(rest, 0, Token(i)[2..]) || At(rest, 0, Token(i)[1..])
  }

  predicate NoEnd(s: string, n: nat) { |s| < n + 2 || s[n] != '_' || s[n + 1] != '_' }

  lemma TokenElsewhere(k: nat, i: nat, s: string, p: nat)
    requires |s| > 14 + |Digits(k)| && At(s, 0, Mark()) && At(s, 14, Digits(k)) && p < 14 + |Digits(k)|
    requires !Digit(s[14 + |Digits(k)|]) && (i != k || NoEnd(s, 14 + |Digits(k)|))
    ensures !At(s, p, Token(i))
  {
    hide Mark, Digits, Token;
    MarkChars();
    TokenChars(i);
    TokenChars(k);
    if p == 0 {
      DigitsDiffer(k, i, s);
    } else {
      if p < 14 {
        assert s[0 + p] == Mark()[p];
        if p < 13 {
          assert s[0 + (p + 1)] == Mark()[p + 1];
        } else {
          assert s[14 + 0] == Digits(k)[0];
        }
        assert s[p] != '_' || s[p + 1] != '_';
      } else {
        assert s[14 + (p - 14)] == Digits(k)[p - 14];
      }
    }
  }

  lemma DigitsDiffer(k: nat, i: nat, s: string)
    requires |s| > 14 + |Digits(k)| && At(s, 14, Digits(k))
    requires !Digit(s[14 + |Digits(k)|]) && (i != k || NoEnd(s, 14 + |Digits(k)|))
    ensures !At(s, 0, Token(i))
  {
    hide Mark, Digits, Token;
    TokenChars(i);
    var t, d, e := Token(i), Digits(i), Digits(k);
    if |d| < |e| {
      assert s[14 + |d|] == e[|d|] && s[0 + (14 + |d|)] != t[14 + |d|];
    } else if |e| < |d| {
      assert t[14 + |e|] == d[|e|] && s[0 + (14 + |e|)] != t[14 + |e|];
    } else {
      DigitsRead(i);
      DigitsRead(k);
      if d != e {
        var q :| 0 <= q < |d| && d[q] != e[q];
        assert s[0 + (14 + q)] == e[q] && t[14 + q] == d[q];
      } else if |s| >= 16 + |d| {
        assert s[0 + (14 + |d|)] != '_' || s[0 + (15 + |d|)] != '_';
      }
    }
  }

  // ----- texts and literals in turn -----

  // Texts without the marker, with literals between them: a literal starts with a quote and ends with
  // one, unless it is cut off at the very end.
  ghost predicate Sound(us: seq<string>, lits: seq<string>) {
    && |us| == |lits| + 1
    && (forall k :: 0 <= k < |us| ==> MarkFree(us[k]))
    && (forall k :: 0 <= k < |lits| ==> SoundLiteral(lits[k], k + 1 == |lits| && us[k + 1] == ""))
  }

  ghost predicate SoundLiteral(lit: string, cutOff: bool) {
    MarkFree(lit) && lit != "" && lit[0] == '\'' && (cutOff || lit[|lit| - 1] == '\'')
  }

  // Texts from k to m, the literals before number i restored and the others still tokens, and a tail.
  function Mixed(us: seq<string>, lits: seq<string>, i: nat, k: nat, m: nat, tail: string): string
    requires |us| == |lits| + 1 && k <= m <= |lits|
    decreases m - k
  {
    if k == m then us[m] + tail
    else us[k] + ((if k < i then lits[k] else Token(k)) + Mixed(us, lits, i, k + 1, m, tail))
  }

  function Masked(us: seq<string>, lits: seq<string>): string
    requires |us| == |lits| + 1
  {
    Mixed(us, lits, 0, 0, |lits|, "")
  }

  function Interleaved(us: seq<string>, lits: seq<string>): string
    requires |us| == |lits| + 1
  {
    Mixed(us, lits, |lits|, 0, |lits|, "")
  }

  function RestoreFrom(s: string, lits: seq<string>, i: nat): string
    requires i <= |lits|
    decreases |lits| - i
  {
    if i == |lits| then s
    else RestoreFrom(ReplaceAll(s, Token(i), lits[i]), lits, i + 1)
  }

  // A token that lost its end: what is left of it stays marked for good.
  predicate Dead(t: string, c: nat) {
    var n := 14 + |Digits(c)|;
    && |t| > n && At(t, 0, Mark()) && At(t, 14, Digits(c))
    && (t[n] == '\'' || (t[n] == '_' && |t| > n + 1 && t[n + 1] == '\''))
  }

  lemma DeadStays(t: string, c: nat, i: nat, lit: string)
    requires Dead(t, c)
    ensures Dead(ReplaceAll(t, Token(i), lit), c) && Closes(t)
  {
    hide Mark, Digits, Token, ReplaceAll;
    TokenChars(i);
    MarkChars();
    var d := |Digits(c)|;
    var n := if t[14 + d] == '\'' then 15 + d else 16 + d;
    forall p | 0 <= p < n ensures !At(t, p, Token(i)) {
      if p < 14 + d {
        TokenElsewhere(c, i, t, p);
      } else {
        assert t[p + 0] == '\'' || t[p + 1] == '\'';
      }
    }
    Skip(t, n, Token(i), lit);
    assert t[14 + 0] == Digits(c)[0];
  }

  lemma NextCloses(us: seq<string>, lits: seq<string>, i: nat, k: nat, m: nat, tail: string)
    requires Sound(us, lits) && k < m <= |lits|
    ensures Closes((if k < i then lits[k] else Token(k)) + Mixed(us, lits, i, k + 1, m, tail))
  {
  }

  predicate Clashes(us: seq<string>, lits: seq<string>, i: nat, j: nat, m: nat, tail: string)
    requires |us| == |lits| + 1 && j < m <= |lits|
  {
    i < j && Clash(Mixed(us, lits, i, j + 1, m, tail), i)
  }

  // One replacement, from text k on. Either it only puts the literal in its place, or it breaks the
  // first token that it clashes with.
  lemma {:induction false} Walk(us: seq<string>, lits: seq<string>, i: nat, k: nat, m: nat, tail: string) returns (c: nat, end: string)
    requires Sound(us, lits) && i < |lits| && k <= m <= |lits| && Closes(tail) && (m == |lits| ==> tail == "")
    ensures k <= c <= m
    ensures ReplaceAll(Mixed(us, lits, i, k, m, tail), Token(i), lits[i]) == Mixed(us, lits, i + 1, k, c, end)
    ensures if c == m then end == ReplaceAll(tail, Token(i), lits[i]) else Dead(end, c)
    ensures c < m <==> exists j :: k <= j < m && Clashes(us, lits, i, j, m, tail)
    decreases m - k
  {
    hide Mark, Digits, Token, ReplaceAll, Clash, Dead, Closes;
    TokenChars(i);
    assert MarkFree(us[k]);
    if k == m {
      NoTokenInText(us[k], tail, i);
      SkipFront(us[k], tail, Token(i), lits[i]);
      c, end := k, ReplaceAll(tail, Token(i), lits[i]);
    } else {
      var rest := Mixed(us, lits, i, k + 1, m, tail);
      var x := if k < i then lits[k] else Token(k);
      NextCloses(us, lits, i, k, m, tail);
      NoTokenInText(us[k], x + rest, i);
      SkipFront(us[k], x + rest, Token(i), lits[i]);
      if k > i && Clash(rest, i) {
        c := k;
        end := ReplaceAll(x + rest, Token(i), lits[i]);
        Breaks(k, i, rest, lits[i]);
        assert Clashes(us, lits, i, k, m, tail);
      } else {
        c, end := Walk(us, lits, i, k + 1, m, tail);
        PassesOn(us, lits, i, k, rest);
        assert !Clashes(us, lits, i, k, m, tail);
      }
    }
  }

  // A token found on the last two characters of token k is a clash.
  lemma TailMatches(k: nat, i: nat, rest: string)
    ensures var s, n := Token(k) + rest, |Token(k)|;
            && (At(s, n - 2, Token(i)) <==> At(rest, 0, Token(i)[2..]))
            && (At(s, n - 1, Token(i)) <==> At(rest, 0, Token(i)[1..]))
  {
  }

  lemma TokenIsAt(k: nat, rest: string)
    ensures var s := Token(k) + rest; At(s, 0, Mark()) && At(s, 14, Digits(k))
  {
  }

  lemma NoTokenInOther(k: nat, i: nat, rest: string, n: nat)
    requires i != k && n <= |Token(k)|
    requires n > |Token(k)| - 2 ==> !At(rest, 0, Token(i)[2..])
    requires n > |Token(k)| - 1 ==> !At(rest, 0, Token(i)[1..])
    ensures forall p :: 0 <= p < n ==> !At(Token(k) + rest, p, Token(i))
  {
    hide Mark, Digits, Token;
    TokenChars(k);
    TailMatches(k, i, rest);
    TokenIsAt(k, rest);
    var s := Token(k) + rest;
    forall p | 0 <= p < n ensures !At(s, p, Token(i)) {
      if p < |Token(k)| - 2 {
        TokenElsewhere(k, i, s, p);
      }
    }
  }

  lemma PassesOn(us: seq<string>, lits: seq<string>, i: nat, k: nat, rest: string)
    requires Sound(us, lits) && i < |lits| && k < |lits| && (k + 1 == |lits| && us[k + 1] == "" ==> rest == "")
    requires k <= i || !Clash(rest, i)
    ensures ReplaceAll((if k < i then lits[k] else Token(k)) + rest, Token(i), lits[i]) ==
            (if k < i + 1 then lits[k] else Token(k)) + ReplaceAll(rest, Token(i), lits[i])
  {
    hide Mark, Digits, Token, MarkFree;
    assert SoundLiteral(lits[k], k + 1 == |lits| && us[k + 1] == "");
    if k < i {
      NoTokenInLiteral(lits[k], rest, i);
      SkipFront(lits[k], rest, Token(i), lits[i]);
    } else if k == i {
      assert At(Token(i) + rest, 0, Token(i)) && (Token(i) + rest)[|Token(i)|..] == rest;
    } else {
      NoTokenInOther(k, i, rest, |Token(k)|);
      SkipFront(Token(k), rest, Token(i), lits[i]);
    }
  }

  lemma Breaks(k: nat, i: nat, rest: string, lit: string)
    requires i < k && Clash(rest, i) && lit != "" && lit[0] == '\''
    ensures Dead(ReplaceAll(Token(k) + rest, Token(i), lit), k)
  {
    hide Mark, Digits, Token;
    MarkChars();
    TokenChars(k);
    TokenChars(i);
    TailMatches(k, i, rest);
    var s, t := Token(k) + rest, Token(i);
    var n := |Token(k)| - if At(rest, 0, t[2..]) then 2 else 1;
    NoTokenInOther(k, i, rest, n);
    Skip(s, n, t, lit);
    forall q | 0 <= q < |t| ensures s[n..][0 + q] == t[q] {
      assert s[n..][q] == s[n + q];
    }
    assert ReplaceAll(s[n..], t, lit) == lit + ReplaceAll(s[n..][|t|..], t, lit);
    hide ReplaceAll;
    StaysDead(k, n, s[..n] + (lit + ReplaceAll(s[n..][|t|..], t, lit)));
  }

  lemma StaysDead(k: nat, n: nat, r: string)
    requires |Token(k)| - 2 <= n < |Token(k)| && |r| > n && r[..n] == Token(k)[..n] && r[n] == '\''
    ensures Dead(r, k)
  {
    hide Mark, Digits, Token;
    MarkChars();
    TokenChars(k);
    assert forall q :: 0 <= q < n ==> r[0 + q] == r[..n][q] == Token(k)[q];
    forall q | 0 <= q < |Digits(k)| ensures r[14 + q] == Digits(k)[q] {
      assert r[14 + q] == Token(k)[14 + q];
    }
  }

  // ----- when restoring is exact -----

  // Right behind literal k the text reads like the rest of token i; the underscores of a token that
  // follows may take part.
  predicate Trap(us: seq<string>, lits: seq<string>, k: nat, i: nat)
    requires |us| == |lits| + 1 && k < |lits|
  {
    i < k && Clash(us[k + 1] + if k + 1 < |lits| then "__" else "", i)
  }

  lemma ClashInFront(u: string, j: nat, more: string, i: nat)
    ensures Clash(u + (Token(j) + more), i) <==> Clash(u + "__", i)
  {
    hide Mark, Digits, Token;
    MarkChars();
    TokenChars(i);
    TokenChars(j);
    var s, w := u + (Token(j) + more), u + "__";
    assert Token(j)[0] == '_' && Token(j)[1] == '_' && |s| >= |w|;
    assert forall q :: 0 <= q < |w| ==> s[q] == w[q];
    var t := Token(i);
    assert Digits(i)[0] == t[14] && Digits(i)[|Digits(i)| - 1] == t[13 + |Digits(i)|];
    forall b | b == 1 || b == 2 ensures At(s, 0, t[b..]) <==> At(w, 0, t[b..]) {
      if |t| > |w| + b {
        EndsInFront(u, s, i, b);
        assert s[|u|] == w[|u|] && s[|u| + 1] == w[|u| + 1];
      }
    }
  }

  // The part of a token without its first underscore has two underscores in a row only at its end.
  lemma EndsInFront(u: string, s: string, i: nat, b: nat)
    requires (b == 1 || b == 2) && |Token(i)| > |u| + b + 2 && |s| >= |u| + 2 && s[|u|] == '_' && s[|u| + 1] == '_'
    ensures !At(s, 0, Token(i)[b..])
  {
    hide Mark, Digits, Token;
    MarkChars();
    TokenChars(i);
    var t, m := Token(i), |u| + b;
    if m >= 14 {
      assert t[14 + (m - 14)] == Digits(i)[m - 14];
    } else if m == 13 {
      assert t[14 + 0] == Digits(i)[0];
    }
    assert t[m] != '_' || t[m + 1] != '_';
    assert s[0 + |u|] == '_' && s[0 + (|u| + 1)] == '_';
    assert t[b..][|u|] == t[m] && t[b..][|u| + 1] == t[m + 1];
  }

  ghost predicate Trapped(us: seq<string>, lits: seq<string>)
    requires |us| == |lits| + 1
  {
    exists k: nat, i: nat :: k < |lits| && Trap(us, lits, k, i)
  }

  lemma TrapsAreClashes(us: seq<string>, lits: seq<string>, i: nat, k: nat)
    requires |us| == |lits| + 1 && k < |lits|
    ensures Clashes(us, lits, i, k, |lits|, "") <==> Trap(us, lits, k, i)
  {
    hide Clash, Token;
    if i < k {
      if k + 1 == |lits| {
        assert Mixed(us, lits, i, k + 1, |lits|, "") == us[k + 1] + "" == us[k + 1];
        assert us[k + 1] + "" == us[k + 1];
      } else {
        ClashInFront(us[k + 1], k + 1, Mixed(us, lits, i, k + 2, |lits|, ""), i);
      }
    }
  }

  ghost predicate Broken(s: string, us: seq<string>, lits: seq<string>, i: nat)
    requires |us| == |lits| + 1
  {
    exists m: nat, tail :: m < |lits| && Dead(tail, m) && s == Mixed(us, lits, i, 0, m, tail)
  }

  lemma {:induction false} StaysBroken(s: string, us: seq<string>, lits: seq<string>, i: nat)
    requires Sound(us, lits) && i <= |lits| && Broken(s, us, lits, i)
    ensures Broken(RestoreFrom(s, lits, i), us, lits, |lits|)
    decreases |lits| - i
  {
    assert |us| == |lits| + 1;
    hide Mark, Digits, Token, ReplaceAll, Clash, Dead, Closes, Sound, Mixed;
    if i < |lits| {
      var m: nat, tail :| m < |lits| && Dead(tail, m) && s == Mixed(us, lits, i, 0, m, tail);
      DeadStays(tail, m, i, lits[i]);
      var c, end := Walk(us, lits, i, 0, m, tail);
      assert Broken(ReplaceAll(s, Token(i), lits[i]), us, lits, i + 1);
      StaysBroken(ReplaceAll(s, Token(i), lits[i]), us, lits, i + 1);
    }
  }

  lemma {:induction false} RestoresOrBreaks(us: seq<string>, lits: seq<string>, i: nat)
    requires Sound(us, lits) && i <= |lits|
    ensures var r := RestoreFrom(Mixed(us, lits, i, 0, |lits|, ""), lits, i);
            if exists k: nat, j: nat :: i <= j && k < |lits| && Trap(us, lits, k, j) then Broken(r, us, lits, |lits|) else r == Interleaved(us, lits)
    decreases |lits| - i
  {
    assert |us| == |lits| + 1;
    hide Mark, Digits, Token, ReplaceAll, Clash, Dead, Sound, Mixed;
    var n := |lits|;
    if i < n {
      forall k: nat | k < n ensures Clashes(us, lits, i, k, n, "") <==> Trap(us, lits, k, i) {
        TrapsAreClashes(us, lits, i, k);
      }
      var c, end := Walk(us, lits, i, 0, n, "");
      var next := ReplaceAll(Mixed(us, lits, i, 0, n, ""), Token(i), lits[i]);
      if c < n {
        assert Broken(next, us, lits, i + 1);
        StaysBroken(next, us, lits, i + 1);
      } else {
        ReplaceNothing(Token(i), lits[i]);
        RestoresOrBreaks(us, lits, i + 1);
      }
    }
  }

  lemma {:induction false} BrokenIsMarked(us: seq<string>, lits: seq<string>, i: nat, k: nat, m: nat, tail: string)
    requires |us| == |lits| + 1 && k <= m <= |lits| && At(tail, 0, Mark())
    ensures !MarkFree(Mixed(us, lits, i, k, m, tail))
    decreases m - k
  {
    hide Mark, Digits, Token;
    MarkChars();
    var s := Mixed(us, lits, i, k, m, tail);
    if k == m {
      Inside(us[k], tail, 0);
    } else {
      BrokenIsMarked(us, lits, i, k + 1, m, tail);
      var x, rest := if k < i then lits[k] else Token(k), Mixed(us, lits, i, k + 1, m, tail);
      var p :| 0 <= p < |rest| && At(rest, p, Mark());
      Inside(x, rest, p);
      Inside(us[k], x + rest, |x| + p);
    }
  }

  lemma AtConcat(a: string, b: string, p: nat)
    ensures p + 14 <= |a| ==> (At(a + b, p, Mark()) <==> At(a, p, Mark()))
    ensures p >= |a| ==> (At(a + b, p, Mark()) <==> At(b, p - |a|, Mark()))
  {
  }

  lemma Inside(a: string, b: string, p: nat)
    requires At(b, p, Mark())
    ensures At(a + b, |a| + p, Mark()) && !MarkFree(a + b)
  {
    hide Mark;
    MarkChars();
    AtConcat(a, b, |a| + p);
  }

  lemma NoMarkAcross(a: string, b: string)
    requires MarkFree(a) && MarkFree(b) && (a == "" || b == "" || a[|a| - 1] == '\'' || b[0] == '\'')
    ensures MarkFree(a + b)
  {
    hide Mark;
    MarkChars();
    var s := a + b;
    forall p | 0 <= p < |s| ensures !At(s, p, Mark()) {
      AtConcat(a, b, p);
      if p < |a| < p + 14 && b != "" {
        assert s[p + (|a| - 1 - p)] == a[|a| - 1] && s[p + (|a| - p)] == b[0];
        assert Mark()[|a| - 1 - p] != '\'' && Mark()[|a| - p] != '\'';
      }
    }
  }

  lemma {:induction false} InterleavedIsMarkFree(us: seq<string>, lits: seq<string>, k: nat)
    requires Sound(us, lits) && k <= |lits|
    ensures MarkFree(Mixed(us, lits, |lits|, k, |lits|, ""))
    decreases |lits| - k
  {
    hide MarkFree, Mark;
    if k == |lits| {
      assert us[k] + "" == us[k];
    } else {
      InterleavedIsMarkFree(us, lits, k + 1);
      assert SoundLiteral(lits[k], k + 1 == |lits| && us[k + 1] == "");
      var rest := Mixed(us, lits, |lits|, k + 1, |lits|, "");
      NoMarkAcross(lits[k], rest);
      NoMarkAcross(us[k], lits[k] + rest);
    }
  }

  // Restoring a masked text gives back every literal in its place exactly when no text between literals
  // traps a token.
  lemma RestoresExactly(us: seq<string>, lits: seq<string>)
    requires Sound(us, lits)
    ensures RestoreFrom(Masked(us, lits), lits, 0) == Interleaved(us, lits) <==> !Trapped(us, lits)
  {
    assert |us| == |lits| + 1;
    hide RestoreFrom, Trap, Sound, Mark, Digits, Token, Mixed;
    RestoresOrBreaks(us, lits, 0);
    var r := RestoreFrom(Masked(us, lits), lits, 0);
    if Trapped(us, lits) {
      var m: nat, tail :| m < |lits| && Dead(tail, m) && r == Mixed(us, lits, |lits|, 0, m, tail);
      BrokenIsMarked(us, lits, |lits|, 0, m, tail);
      InterleavedIsMarkFree(us, lits, 0);
    }
  }

  // For the text 'a' 'b'SQL_LITERAL_0__ restoring is not exact, although it holds no marker.
  lemma TrapExample()
    ensures var us, lits := ["", " ", "SQL_LITERAL_0__"], ["\'a\'", "\'b\'"];
            Sound(us, lits) && Parted(us, lits) && Trapped(us, lits)
  {
    var us, lits := ["", " ", "SQL_LITERAL_0__"], ["\'a\'", "\'b\'"];
    TextIsMarkFree();
    ExampleClashes();
    assert us[2] + "" == us[2];
    assert Trap(us, lits, 1, 0);
    ShortIsMarkFree("");
    ShortIsMarkFree(" ");
    ShortIsMarkFree("\'a\'");
    ShortIsMarkFree("\'b\'");
    assert lits[0][1..] == "a\'" && lits[1][1..] == "b\'" && "a\'"[1..] == "b\'"[1..] == "\'";
    hide MarkFree, Clash;
  }

  lemma ShortIsMarkFree(s: string)
    requires |s| < 14
    ensures MarkFree(s)
  {
  }

  lemma TextIsMarkFree()
    ensures MarkFree("SQL_LITERAL_0__")
  {
    hide Mark;
    MarkChars();
    var s := "SQL_LITERAL_0__";
    assert s[0 + 0] == 'S' && s[1 + 0] == 'Q' && |s| == 15;
    assert !At(s, 0, Mark()) && !At(s, 1, Mark());
  }

  lemma ExampleClashes()
    ensures Clash("SQL_LITERAL_0__", 0)
  {
  }

  // ----- masking -----

  // A quoted literal: doubled quotes stand for one, and the text may end before the closing quote.
  datatype Ending = Closed | Open | Neither

  function LiteralEnding(lit: string): Ending {
    if lit == "" || lit[0] != '\'' then Neither else BodyEnding(lit[1..])
  }

  function BodyEnding(t: string): Ending {
    if t == "" then Open
    else if t[0] != '\'' then BodyEnding(t[1..])
    else if |t| == 1 then Closed
    else if t[1] == '\'' then BodyEnding(t[2..])
    else Neither
  }

  // The texts hold no quotes, the literals are whole, and only the last may be open.
  ghost predicate Parted(us: seq<string>, lits: seq<string>) {
    && |us| == |lits| + 1
    && (forall k :: 0 <= k < |us| ==> '\'' !in us[k])
    && (forall k :: 0 <= k < |lits| ==> LiteralEnding(lits[k]) == Closed || (k + 1 == |lits| && us[k + 1] == "" && LiteralEnding(lits[k]) == Open))
    && (forall k :: 0 < k < |lits| ==> us[k] != "")
  }

  lemma {:induction false} BodyGrows(t: string, c: char)
    requires BodyEnding(t) == Open
    ensures c != '\'' ==> BodyEnding(t + [c]) == Open
    ensures BodyEnding(t + "\'") == Closed && BodyEnding(t + "\'\'") == Open
    decreases |t|
  {
    if t == "" {
      assert BodyEnding("\'\'"[2..]) == Open && BodyEnding([c][1..]) == Open;
      assert t + "\'" == "\'" && t + "\'\'" == "\'\'" && t + [c] == [c];
    } else {
      var n := if t[0] != '\'' then 1 else 2;
      BodyGrows(t[n..], c);
      assert (t + [c])[n..] == t[n..] + [c] && (t + "\'")[n..] == t[n..] + "\'" && (t + "\'\'")[n..] == t[n..] + "\'\'";
    }
  }

  lemma {:induction false} EndingShape(t: string)
    requires BodyEnding(t) == Closed
    ensures t != "" && t[|t| - 1] == '\''
    decreases |t|
  {
    if t[0] != '\'' {
      EndingShape(t[1..]);
    } else if |t| > 1 {
      EndingShape(t[2..]);
    }
  }

  // Where a literal ends is settled by the text: it cannot end there and go on.
  lemma {:induction false} EndingUnique(a: string, b: string, r: string, q: string)
    requires a + r == b + q && BodyEnding(a) != Neither && BodyEnding(b) != Neither
    requires r == "" || (BodyEnding(a) == Closed && r[0] != '\'')
    requires q == "" || (BodyEnding(b) == Closed && q[0] != '\'')
    ensures a == b
    decreases |a|
  {
    var s := a + r;
    if a != "" && b != "" {
      assert a[0] == s[0] == b[0];
      assert |a| > 1 ==> a[1] == s[1];
      assert |b| > 1 ==> b[1] == s[1];
      assert |a| == 1 && r != "" ==> r[0] == s[1];
      assert |b| == 1 && q != "" ==> q[0] == s[1];
      if |a| > 1 && |b| > 1 {
        var n := if a[0] == '\'' then 2 else 1;
        assert a[n..] + r == s[n..] == b[n..] + q;
        EndingUnique(a[n..], b[n..], r, q);
        assert a == a[..n] + a[n..] && b == b[..n] + b[n..];
      }
    }
  }

  // The last text grows.
  lemma {:induction false} AppendText(us: seq<string>, lits: seq<string>, i: nat, k: nat, c: string)
    requires |us| == |lits| + 1 && k <= |lits|
    ensures var n := |lits|; Mixed(us[n := us[n] + c], lits, i, k, n, "") == Mixed(us, lits, i, k, n, "") + c
    decreases |lits| - k
  {
    hide Token;
    var n := |lits|;
    if k < n {
      AppendText(us, lits, i, k + 1, c);
      var x, rest := if k < i then lits[k] else Token(k), Mixed(us, lits, i, k + 1, n, "");
      assert us[k] + (x + (rest + c)) == us[k] + (x + rest) + c;
    } else {
      assert us[n] + c + "" == us[n] + "" + c;
    }
  }

  // A literal and an empty text come after the last text.
  lemma {:induction false} AppendLiteral(us: seq<string>, lits: seq<string>, i: nat, j: nat, k: nat, lit: string)
    requires |us| == |lits| + 1 && k <= |lits| && ((i == 0 && j == 0) || (i == |lits| && j == |lits| + 1))
    ensures Mixed(us + [""], lits + [lit], j, k, |lits| + 1, "") ==
            Mixed(us, lits, i, k, |lits|, "") + if j == 0 then Token(|lits|) else lit
    decreases |lits| - k
  {
    hide Token;
    var n := |lits|;
    var x := if j == 0 then Token(n) else lit;
    if k < n {
      AppendLiteral(us, lits, i, j, k + 1, lit);
      var y, rest := if k < i then lits[k] else Token(k), Mixed(us, lits, i, k + 1, n, "");
      assert us[k] + (y + (rest + x)) == us[k] + (y + rest) + x;
    } else {
      assert Mixed(us + [""], lits + [lit], j, n + 1, n + 1, "") == "";
      assert us[n] + (x + "") == us[n] + "" + x;
    }
  }

  lemma TextUnique(a: string, b: string, x: string, y: string)
    requires a + x == b + y && '\'' !in a && '\'' !in b
    requires (x == "" || x[0] == '\'') && (y == "" || y[0] == '\'')
    ensures a == b && x == y
  {
    var s := a + x;
    var n := if |a| < |b| then |a| else |b|;
    assert n < |s| ==> (a + x)[n] == (b + y)[n];
    assert a == s[..|a|] && b == s[..|b|] && x == s[|a|..] && y == s[|b|..];
  }

  // The text from literal k on, and what follows the literal.
  lemma Behind(us: seq<string>, lits: seq<string>, k: nat)
    requires Parted(us, lits) && k < |lits|
    ensures var rest := Mixed(us, lits, |lits|, k + 1, |lits|, "");
            && lits[k] != "" && lits[k][0] == '\'' && BodyEnding(lits[k][1..]) != Neither
            && (rest == "" || (BodyEnding(lits[k][1..]) == Closed && rest[0] != '\''))
            && Mixed(us, lits, |lits|, k, |lits|, "") == us[k] + (lits[k] + rest)
  {
    hide Token, BodyEnding;
    assert LiteralEnding(lits[k]) == Closed || LiteralEnding(lits[k]) == Open;
    assert '\'' !in us[k + 1] && us[k + 1] + "" == us[k + 1];
    assert k + 1 < |lits| ==> us[k + 1] != "";
  }

  lemma LastText(us: seq<string>, lits: seq<string>)
    requires |us| == |lits| + 1
    ensures Mixed(us, lits, |lits|, |lits|, |lits|, "") == us[|lits|]
  {
  }

  // A text is parted in one way only.
  lemma {:induction false} PartedUnique(us: seq<string>, lits: seq<string>, vs: seq<string>, ms: seq<string>, k: nat)
    requires Parted(us, lits) && Parted(vs, ms) && k <= |lits| && k <= |ms|
    requires Mixed(us, lits, |lits|, k, |lits|, "") == Mixed(vs, ms, |ms|, k, |ms|, "")
    ensures us[k..] == vs[k..] && lits[k..] == ms[k..]
    decreases |lits| - k
  {
    hide Mixed, Token, BodyEnding, LiteralEnding;
    var x, y := "", "";
    LastText(us, lits);
    LastText(vs, ms);
    if k < |lits| {
      Behind(us, lits, k);
      x := lits[k] + Mixed(us, lits, |lits|, k + 1, |lits|, "");
    }
    if k < |ms| {
      Behind(vs, ms, k);
      y := ms[k] + Mixed(vs, ms, |ms|, k + 1, |ms|, "");
    }
    assert us[k] + "" == us[k] && vs[k] + "" == vs[k];
    TextUnique(us[k], vs[k], x, y);
    if k < |lits| {
      assert y != "" && k < |ms|;
      var a, b := lits[k], ms[k];
      var r, q := Mixed(us, lits, |lits|, k + 1, |lits|, ""), Mixed(vs, ms, |ms|, k + 1, |ms|, "");
      assert a[1..] + r == (a + r)[1..] == (b + q)[1..] == b[1..] + q;
      EndingUnique(a[1..], b[1..], r, q);
      assert a == ['\''] + a[1..] && b == ['\''] + b[1..];
      assert r == (a + r)[|a|..] == (b + q)[|b|..] == q;
      PartedUnique(us, lits, vs, ms, k + 1);
      assert us[k..] == [us[k]] + us[k + 1..] && vs[k..] == [vs[k]] + vs[k + 1..];
      assert lits[k..] == [lits[k]] + lits[k + 1..] && ms[k..] == [ms[k]] + ms[k + 1..];
    } else {
      assert us[k..] == [us[k]] && lits[k..] == [];
      assert k == |ms| && vs[k..] == [vs[k]] && ms[k..] == [];
    }
  }

  // The texts and the literals that a text consists of.
  ghost predicate Pieces(sql: string, us: seq<string>, lits: seq<string>) {
    Parted(us, lits) && sql == Interleaved(us, lits)
  }

  lemma PiecesUnique(sql: string, us: seq<string>, lits: seq<string>, vs: seq<string>, ms: seq<string>)
    requires Pieces(sql, us, lits) && Pieces(sql, vs, ms)
    ensures us == vs && lits == ms
  {
    PartedUnique(us, lits, vs, ms, 0);
  }

  // From the opening quote to behind the closing one, or to the end.
  method ScanLiteral(sql: string, start: nat) returns (i: nat)
    requires start < |sql| && sql[start] == '\''
    ensures start < i <= |sql|
    ensures var e := LiteralEnding(sql[start..i]); (e == Open && i == |sql|) || (e == Closed && (i < |sql| ==> sql[i] != '\''))
  {
    i := start + 1;
    assert BodyEnding(sql[start + 1..i]) == Open;
    while i < |sql|
      invariant start < i <= |sql|
      invariant BodyEnding(sql[start + 1..i]) == Open
    {
      BodyGrows(sql[start + 1..i], sql[i]);
      assert sql[start + 1..i + 1] == sql[start + 1..i] + [sql[i]];
      if sql[i] == '\'' {
        if i + 1 < |sql| && sql[i + 1] == '\'' {
          assert sql[start + 1..i + 2] == sql[start + 1..i] + "\'\'";
          i := i + 2;
          continue;
        }
        i := i + 1;
        assert sql[start..i][1..] == sql[start + 1..i];
        return;
      }
      i := i + 1;
    }
    assert sql[start..i][1..] == sql[start + 1..i];
  }

  lemma PartedText(us: seq<string>, lits: seq<string>, c: char)
    requires Parted(us, lits) && c != '\'' && !OpenEnd(us, lits)
    ensures Parted(us[|lits| := us[|lits|] + [c]], lits)
  {
  }

  predicate OpenEnd(us: seq<string>, lits: seq<string>) { lits != [] && LiteralEnding(lits[|lits| - 1]) != Closed }

  lemma PartedLiteral(us: seq<string>, lits: seq<string>, lit: string)
    requires Parted(us, lits) && LiteralEnding(lit) != Neither && !OpenEnd(us, lits) && (lits == [] || us[|lits|] != "")
    ensures Parted(us + [""], lits + [lit])
  {
  }

  lemma NothingMasked()
    ensures Masked([""], []) == Interleaved([""], []) == ""
  {
  }

  lemma AddText(us: seq<string>, lits: seq<string>, c: char)
    requires Parted(us, lits) && c != '\'' && !OpenEnd(us, lits)
    ensures var vs := us[|lits| := us[|lits|] + [c]];
            Parted(vs, lits) && Masked(vs, lits) == Masked(us, lits) + [c] && Interleaved(vs, lits) == Interleaved(us, lits) + [c]
  {
    hide Mixed;
    PartedText(us, lits, c);
    AppendText(us, lits, |lits|, 0, [c]);
    AppendText(us, lits, 0, 0, [c]);
  }

  lemma AddLiteral(us: seq<string>, lits: seq<string>, lit: string)
    requires Parted(us, lits) && LiteralEnding(lit) != Neither && !OpenEnd(us, lits) && (lits == [] || us[|lits|] != "")
    ensures var vs, ms := us + [""], lits + [lit];
            Parted(vs, ms) && Masked(vs, ms) == Masked(us, lits) + Token(|lits|) && Interleaved(vs, ms) == Interleaved(us, lits) + lit
  {
    hide Mixed, Token;
    PartedLiteral(us, lits, lit);
    AppendLiteral(us, lits, |lits|, |lits| + 1, 0, lit);
    AppendLiteral(us, lits, 0, 0, 0, lit);
  }

  method MaskLiterals(sql: string) returns (masked: string, placeholders: seq<string>)
    ensures exists us :: Pieces(sql, us, placeholders) && masked == Masked(us, placeholders)
  {
    hide Mixed, Token, LiteralEnding, Masked, Interleaved;
    masked, placeholders := "", [];
    ghost var us := [""];
    NothingMasked();
    var i := 0;
    while i < |sql|
      invariant 0 <= i <= |sql|
      invariant Parted(us, placeholders)
      invariant sql[..i] == Interleaved(us, placeholders) && masked == Masked(us, placeholders)
      invariant i < |sql| ==> !OpenEnd(us, placeholders)
      invariant i < |sql| && placeholders != [] && us[|us| - 1] == "" ==> sql[i] != '\''
    {
      if sql[i] != '\'' {
        var ch := sql[i];
        AddText(us, placeholders, ch);
        masked := masked + [ch];
        us := us[|placeholders| := us[|placeholders|] + [ch]];
        assert sql[..i + 1] == sql[..i] + [ch];
        i := i + 1;
      } else {
        var start := i;
        i := ScanLiteral(sql, start);
        var literal := sql[start..i];
        AddLiteral(us, placeholders, literal);
        assert sql[..i] == sql[..start] + literal;
        masked := masked + Token(|placeholders|);
        placeholders := placeholders + [literal];
        us := us + [""];
      }
    }
    assert sql[..i] == sql;
    assert Pieces(sql, us, placeholders);
  }

  lemma {:induction false} PartsMarkFree(us: seq<string>, lits: seq<string>, k: nat)
    requires |us| == |lits| + 1 && k <= |lits| && MarkFree(Mixed(us, lits, |lits|, k, |lits|, ""))
    ensures (forall j :: k <= j < |us| ==> MarkFree(us[j])) && forall j :: k <= j < |lits| ==> MarkFree(lits[j])
    decreases |lits| - k
  {
    hide MarkFree, Token;
    if k == |lits| {
      assert us[k] + "" == us[k];
    } else {
      var rest := Mixed(us, lits, |lits|, k + 1, |lits|, "");
      FrontMarkFree(us[k], lits[k] + rest);
      FrontMarkFree(lits[k], rest);
      PartsMarkFree(us, lits, k + 1);
    }
  }

  lemma FrontMarkFree(a: string, b: string)
    requires MarkFree(a + b)
    ensures MarkFree(a) && MarkFree(b)
  {
    hide Mark;
    MarkChars();
    forall p | 0 <= p < |a| ensures !At(a, p, Mark()) {
      AtConcat(a, b, p);
    }
    forall p | 0 <= p < |b| ensures !At(b, p, Mark()) {
      AtConcat(a, b, |a| + p);
    }
  }

  lemma PartsAreSound(us: seq<string>, lits: seq<string>)
    requires Parted(us, lits) && MarkFree(Interleaved(us, lits))
    ensures Sound(us, lits)
  {
    hide Mark, MarkFree, Mixed;
    PartsMarkFree(us, lits, 0);
    forall k | 0 <= k < |lits| ensures SoundLiteral(lits[k], k + 1 == |lits| && us[k + 1] == "") {
      if LiteralEnding(lits[k]) == Closed {
        EndingShape(lits[k][1..]);
      }
    }
  }

  // The rewrites change texts only, and bring in no marker.
  ghost predicate RewritesTexts(rewrites: seq<string -> string>, us: seq<string>, vs: seq<string>, lits: seq<string>)
    requires |us| == |lits| + 1
  {
    |vs| == |lits| + 1 && Sound(vs, lits) && Rewritten(Masked(us, lits), rewrites) == Masked(vs, lits)
  }

  // The rewritten texts with every literal back in its place, unless one of these texts traps a token.
  ghost predicate Restores(out: string, rewrites: seq<string -> string>, us: seq<string>, lits: seq<string>)
    requires |us| == |lits| + 1
  {
    && out == RestoreFrom(Rewritten(Masked(us, lits), rewrites), lits, 0)
    && forall vs :: RewritesTexts(rewrites, us, vs, lits) ==> (out == Interleaved(vs, lits) <==> !Trapped(vs, lits))
  }

  method ReplaceOutsideQuotes(sql: string, rewrites: seq<string -> string>) returns (out: string)
    ensures exists us, lits ::
              && Pieces(sql, us, lits) && Restores(out, rewrites, us, lits)
              && (MarkFree(sql) && rewrites == [] ==> (out == sql <==> !Trapped(us, lits)))
  {
    var masked, placeholders := MaskLiterals(sql);
    ghost var us :| Pieces(sql, us, placeholders) && masked == Masked(us, placeholders);
    hide *;
    out := masked;
    RewrittenBy(masked, rewrites);
    for i := 0 to |rewrites|
      invariant out == Rewritten(masked, rewrites[..i])
    {
      RewrittenNext(masked, rewrites, i);
      out := rewrites[i](out);
    }
    assert rewrites[..|rewrites|] == rewrites;
    ghost var rewritten := out;
    for i := 0 to |placeholders|
      invariant RestoreFrom(out, placeholders, i) == RestoreFrom(rewritten, placeholders, 0)
    {
      RestoreNext(out, placeholders, i);
      out := ReplaceAll(out, Token(i), placeholders[i]);
    }
    RestoreEnds(out, placeholders);
    RestoresAll(out, sql, rewrites, us, placeholders);
  }

  lemma RestoreNext(s: string, lits: seq<string>, i: nat)
    requires i < |lits|
    ensures Token(i) != "" && RestoreFrom(s, lits, i) == RestoreFrom(ReplaceAll(s, Token(i), lits[i]), lits, i + 1)
  {
  }

  lemma RestoreEnds(s: string, lits: seq<string>)
    ensures RestoreFrom(s, lits, |lits|) == s
  {
  }

  lemma RewrittenBy(s: string, rewrites: seq<string -> string>)
    ensures Rewritten(s, rewrites[..0]) == Rewritten(s, []) == s
  {
  }

  lemma RewrittenNext(s: string, rewrites: seq<string -> string>, i: nat)
    requires i < |rewrites|
    ensures Rewritten(s, rewrites[..i + 1]) == rewrites[i](Rewritten(s, rewrites[..i]))
  {
    assert rewrites[..i + 1][..i] == rewrites[..i];
  }

  lemma RestoresAll(out: string, sql: string, rewrites: seq<string -> string>, us: seq<string>, lits: seq<string>)
    requires Pieces(sql, us, lits) && out == RestoreFrom(Rewritten(Masked(us, lits), rewrites), lits, 0)
    ensures |us| == |lits| + 1
    ensures Restores(out, rewrites, us, lits)
    ensures MarkFree(sql) && rewrites == [] ==> (out == sql <==> !Trapped(us, lits))
  {
    hide Masked, Interleaved, RestoreFrom, Trapped, Sound, MarkFree;
    forall vs | RewritesTexts(rewrites, us, vs, lits) ensures out == Interleaved(vs, lits) <==> !Trapped(vs, lits) {
      RestoresExactly(vs, lits);
    }
    if MarkFree(sql) {
      PartsAreSound(us, lits);
    }
  }

  function Rewritten(s: string, rewrites: seq<string -> string>): string {
    if rewrites == [] then s else rewrites[|rewrites| - 1](Rewritten(s, rewrites[..|rewrites| - 1]))
  }
}
