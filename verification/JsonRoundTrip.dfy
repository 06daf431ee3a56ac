/** Parsing reads back what either printer wrote; printing is canonical. */
module JsonRoundTrip {
  import opened Options
  import opened Ordering
  import opened Json

  lemma HexDigit(n: nat)
    requires n < 16
    ensures HexValue(Hex(n)) == Some(n)
  {
  }

  lemma HexParts(n: nat)
    requires n < 0x10000
    ensures ((n / 4096 * 16 + n / 256 % 16) * 16 + n / 16 % 16) * 16 + n % 16 == n && n / 4096 < 16
  {
  }

  lemma ReadsHex(n: nat, rest: string)
    requires n < 0x10000
    ensures ReadHex([Hex(n / 4096), Hex(n / 256 % 16), Hex(n / 16 % 16), Hex(n % 16)] + rest) == Some(n)
  {
    HexParts(n);
    HexDigit(n / 4096);
    HexDigit(n / 256 % 16);
    HexDigit(n / 16 % 16);
    HexDigit(n % 16);
    hide Hex, HexValue;
  }

  lemma HexEscapeReads(c: char, rest: string)
    requires c as int < 0x10000
    ensures ParseString(HexEscape(c) + rest) == Prepend(c, ParseString(rest))
  {
    var n := c as int;
    ReadsHex(n, rest);
    hide ReadHex, Hex, LowHalf;
    var t := HexEscape(c) + rest;
    assert t[2..] == [Hex(n / 4096), Hex(n / 256 % 16), Hex(n / 16 % 16), Hex(n % 16)] + rest;
    assert t[6..] == rest && t[0] == '\\' && t[1] == 'u';
  }

  lemma PlainReads(c: char, rest: string)
    requires c != '"' && c != '\\' && c >= ' '
    ensures ParseString([c] + rest) == Prepend(c, ParseString(rest))
  {
    assert ([c] + rest)[1..] == rest;
  }

  lemma ShortReads(d: char, rest: string)
    requires Unescape(d).Some?
    ensures ParseString(['\\', d] + rest) == Prepend(Unescape(d).value, ParseString(rest))
  {
    assert (['\\', d] + rest)[2..] == rest;
  }

  lemma EscapeReads(c: char, style: Style, rest: string)
    ensures ParseString(Escape(c, style) + rest) == Prepend(c, ParseString(rest))
  {
    hide ParseString, HexEscape;
    if c in "\"\\\n\r\t\U{8}\U{C}" {
      assert Unescape(Escape(c, style)[1]) == Some(c);
      ShortReads(Escape(c, style)[1], rest);
    } else if c < ' ' || Escape(c, style) != [c] {
      HexEscapeReads(c, rest);
    } else {
      PlainReads(c, rest);
    }
  }

  lemma Regroup(a: string, b: string, c: string)
    ensures (a + b) + c == a + (b + c)
  {
  }

  lemma {:induction false} StringReads(s: string, style: Style, rest: string)
    ensures ParseString(EscapeAll(s, style) + ("\"" + rest)) == Some((s, rest))
  {
    hide Escape;
    if s == "" {
      assert ("\"" + rest)[1..] == rest;
      assert "" + ("\"" + rest) == "\"" + rest;
    } else {
      hide ParseString;
      var tail := EscapeAll(s[1..], style) + ("\"" + rest);
      StringReads(s[1..], style, rest);
      EscapeReads(s[0], style, tail);
      Regroup(Escape(s[0], style), EscapeAll(s[1..], style), "\"" + rest);
      assert [s[0]] + s[1..] == s;
    }
  }

  lemma QuoteReads(s: string, style: Style, rest: string)
    ensures var t := Quote(s, style) + rest;
            t != "" && t[0] == '"' && ParseString(t[1..]) == Some((s, rest))
  {
    var t := Quote(s, style) + rest;
    assert t[1..] == EscapeAll(s, style) + ("\"" + rest);
    StringReads(s, style, rest);
  }

  // ----- numbers -----

  predicate AllNumberChars(t: string) { forall c :: c in t ==> NumberChar(c) }

  lemma {:induction false} DigitsFirst(t: string)
    requires AllNumberChars(DropDigits(t))
    ensures AllNumberChars(t)
  {
    if t != "" && Digit(t[0]) {
      DigitsFirst(t[1..]);
      assert t == [t[0]] + t[1..];
    }
  }

  lemma ExponentChars(t: string)
    requires Exponent(t)
    ensures AllNumberChars(t)
  {
    if t != "" {
      if |t| > 1 && (t[1] == '+' || t[1] == '-') {
        DigitsFirst(t[2..]);
        assert t == [t[0], t[1]] + t[2..];
      } else {
        DigitsFirst(t[1..]);
        assert t == [t[0]] + t[1..];
      }
    }
  }

  lemma FractionChars(t: string)
    requires Fraction(t)
    ensures AllNumberChars(t)
  {
    if t != "" && t[0] == '.' {
      ExponentChars(DropDigits(t[1..]));
      DigitsFirst(t[1..]);
      assert t == [t[0]] + t[1..];
    } else {
      ExponentChars(t);
    }
  }

  lemma NumberChars(t: string)
    requires Number(t)
    ensures AllNumberChars(t) && t != "" && (t[0] == '-' || Digit(t[0]))
  {
    var u := if t != "" && t[0] == '-' then t[1..] else t;
    if u[0] == '0' {
      FractionChars(u[1..]);
      assert u == [u[0]] + u[1..];
    } else {
      FractionChars(DropDigits(u));
      DigitsFirst(u);
    }
    if t[0] == '-' {
      assert t == [t[0]] + u;
    }
  }

  lemma {:induction false} SpanOfNumber(t: string, rest: string)
    requires AllNumberChars(t) && (rest == "" || !NumberChar(rest[0]))
    ensures NumberSpan(t + rest) == |t|
  {
    if t == "" {
      assert t + rest == rest;
    } else {
      assert (t + rest)[1..] == t[1..] + rest;
      assert t[0] in t;
      SpanOfNumber(t[1..], rest);
    }
  }

  // ----- values -----

  predicate Ends(v: Value, rest: string) { v.Num? ==> rest == "" || !NumberChar(rest[0]) }

  lemma FirstChar(v: Value, style: Style)
    requires WellFormed(v)
    ensures var p := Print(v, style); p != "" && !White(p[0]) && p[0] != ']' && p[0] != '}'
  {
  }

  lemma NumReads(n: string, style: Style, rest: string)
    requires Number(n) && (rest == "" || !NumberChar(rest[0]))
    ensures ParseValue(n + rest) == Some((Num(n), rest))
  {
    NumberChars(n);
    SpanOfNumber(n, rest);
    assert (n + rest)[..|n|] == n && (n + rest)[|n|..] == rest;
  }

  lemma WordReads(v: Value, style: Style, rest: string)
    requires v.Null? || v.Bool?
    ensures ParseValue(Print(v, style) + rest) == Some((v, rest))
  {
  }

  lemma StrReads(s: string, style: Style, rest: string)
    ensures ParseValue(Quote(s, style) + rest) == Some((Str(s), rest))
  {
    hide Quote, ParseString;
    QuoteReads(s, style, rest);
  }

  // Arrays and objects, given that their contents read back.
  lemma ArrReads(items: seq<Value>, inner: string, rest: string)
    requires if items == [] then inner == "" else
      inner != "" && !White(inner[0]) && inner[0] != ']' && inner[0] != '}' && ParseItems(inner + ("]" + rest)) == Some((items, rest))
    ensures ParseValue("[" + inner + "]" + rest) == Some((Arr(items), rest))
  {
    hide ParseItems;
    var t := "[" + inner + "]" + rest;
    assert t[1..] == inner + ("]" + rest);
    if items == [] {
      assert t[1..] == "]" + rest && t[1..][1..] == rest;
    }
  }

  lemma ObjReads(ms: seq<Member>, inner: string, rest: string)
    requires DistinctKeys(ms)
    requires if ms == [] then inner == "" else
      inner != "" && inner[0] == '"' && ParseMembers(inner + ("}" + rest)) == Some((ms, rest))
    ensures ParseValue("{" + inner + "}" + rest) == Some((Obj(ms), rest))
  {
    hide ParseMembers;
    var t := "{" + inner + "}" + rest;
    assert t[1..] == inner + ("}" + rest);
    DistinctSetAll(ms);
    if ms == [] {
      assert t[1..] == "}" + rest && t[1..][1..] == rest;
    }
  }

  lemma {:induction false} ValueReads(v: Value, style: Style, rest: string)
    requires WellFormed(v) && Ends(v, rest)
    ensures ParseValue(Print(v, style) + rest) == Some((v, rest))
    decreases v, 1
  {
    hide ParseValue, ParseItems, ParseMembers, Number, Quote;
    match v
    case Null => WordReads(v, style, rest);
    case Bool(b) => WordReads(v, style, rest);
    case Num(n) => NumReads(n, style, rest);
    case Str(s) => StrReads(s, style, rest);
    case Arr(items) =>
      if items != [] {
        ItemsRead(items, style, rest);
      }
      ArrReads(items, PrintItems(items, style), rest);
    case Obj(ms) =>
      if ms != [] {
        MembersRead(ms, style, "}" + rest);
        assert ("}" + rest)[1..] == rest;
      }
      ObjReads(ms, PrintMembers(ms, style), rest);
  }

  lemma LastItemReads(t: string, v: Value, rest: string)
    requires ParseValue(t) == Some((v, "]" + rest))
    ensures ParseItems(t) == Some(([v], rest))
  {
  }

  lemma NextItemReads(t: string, v: Value, tail: string, vs: seq<Value>, rest: string)
    requires ParseValue(t) == Some((v, "," + tail)) && ParseItems(tail) == Some((vs, rest))
    ensures ParseItems(t) == Some(([v] + vs, rest))
  {
  }

  lemma {:induction false} ItemsRead(items: seq<Value>, style: Style, rest: string)
    requires items != [] && forall v :: v in items ==> WellFormed(v)
    ensures var inner := PrintItems(items, style);
            inner != "" && !White(inner[0]) && inner[0] != ']' && inner[0] != '}' && ParseItems(inner + ("]" + rest)) == Some((items, rest))
    decreases items, 0
  {
    hide ParseValue, ParseItems, Print, WellFormed;
    FirstChar(items[0], style);
    if |items| == 1 {
      assert items == [items[0]];
      ValueReads(items[0], style, "]" + rest);
      LastItemReads(PrintItems(items, style) + ("]" + rest), items[0], rest);
    } else {
      var inner := PrintItems(items[1..], style);
      var tail := inner + ("]" + rest);
      ValueReads(items[0], style, "," + tail);
      ItemsRead(items[1..], style, rest);
      assert PrintItems(items, style) + ("]" + rest) == Print(items[0], style) + ("," + tail);
      assert [items[0]] + items[1..] == items;
      NextItemReads(Print(items[0], style) + ("," + tail), items[0], tail, items[1..], rest);
    }
  }

  lemma NoWhite(t: string)
    requires t != "" && !White(t[0])
    ensures SkipWhite(t) == t
  {
  }

  lemma MemberReads(m: Member, style: Style, after: string)
    requires ParseValue(Print(m.value, style) + after) == Some((m.value, after))
    requires after == "" || after[0] == '}' || after[0] == ','
    ensures var t := PrintMember(m, style) + after;
            t != "" && t[0] == '"' &&
            ParseMembers(t) == if after == "" || after[0] == '}' then Some(([m], Behind(after))) else
              match ParseMembers(after[1..]) { case Some((ms, end)) => Some(([m] + ms, end)) case None => None }
  {
    hide ParseValue, Print, ParseString, Quote, SkipWhite;
    var v := Print(m.value, style) + after;
    var c := ":" + v;
    var t := PrintMember(m, style) + after;
    assert t == Quote(m.key, style) + c by {
      Regroup(Quote(m.key, style), ":" + Print(m.value, style), after);
      Regroup(":", Print(m.value, style), after);
      Regroup(Quote(m.key, style), ":", Print(m.value, style));
    }
    QuoteReads(m.key, style, c);
    NoWhite(t);
    NoWhite(c);
    if after == "" {
      NothingWhite();
    } else {
      NoWhite(after);
    }
    assert c[1..] == v;
    assert Member(m.key, m.value) == m;
  }

  // What follows a closing bracket, if it is there.
  function Behind(after: string): string { if after == "" then "" else after[1..] }

  lemma NothingWhite()
    ensures SkipWhite("") == ""
  {
  }

  lemma {:induction false} MembersRead(ms: seq<Member>, style: Style, after: string)
    requires ms != [] && (forall m :: m in ms ==> WellFormed(m.value)) && (after == "" || after[0] == '}')
    ensures var inner := PrintMembers(ms, style);
            inner != "" && inner[0] == '"' && ParseMembers(inner + after) == Some((ms, Behind(after)))
    decreases ms, 0
  {
    hide ParseValue, ParseMembers, Print, WellFormed, Quote;
    MemberStarts(ms[0], style);
    if |ms| == 1 {
      assert ms == [ms[0]];
      ValueReads(ms[0].value, style, after);
      MemberReads(ms[0], style, after);
    } else {
      var tail := PrintMembers(ms[1..], style) + after;
      var more := "," + tail;
      ValueReads(ms[0].value, style, more);
      MemberReads(ms[0], style, more);
      MembersRead(ms[1..], style, after);
      assert more[1..] == tail;
      assert [ms[0]] + ms[1..] == ms;
      assert PrintMembers(ms, style) + after == PrintMember(ms[0], style) + more;
    }
  }

  // A text that breaks off before the last closing bracket of an object is read as the whole object.
  lemma CutOffReads(ms: seq<Member>, style: Style)
    requires WellFormed(Obj(ms)) && ms != []
    ensures Parse("{" + PrintMembers(ms, style)) == Some(Obj(ms))
  {
    hide ParseMembers, PrintMembers, Number;
    var inner := PrintMembers(ms, style);
    MembersRead(ms, style, "");
    assert inner + "" == inner && ("{" + inner)[1..] == inner;
    DistinctSetAll(ms);
  }

  lemma MemberStarts(m: Member, style: Style)
    ensures PrintMember(m, style) != "" && PrintMember(m, style)[0] == '"'
  {
  }

  lemma {:induction false} SetNew(ms: seq<Member>, m: Member)
    requires forall i :: 0 <= i < |ms| ==> ms[i].key != m.key
    ensures Set(ms, m) == ms + [m]
  {
    if ms != [] {
      SetNew(ms[1..], m);
    }
  }

  lemma {:induction false} DistinctSetAll(ms: seq<Member>)
    requires DistinctKeys(ms)
    ensures SetAll(ms) == ms
  {
    if ms != [] {
      DistinctSetAll(ms[..|ms| - 1]);
      SetNew(ms[..|ms| - 1], ms[|ms| - 1]);
    }
  }

  // ----- canonical form -----

  // The same JSON value, whatever the order of object members.
  predicate Same(v: Value, w: Value)
    decreases v
  {
    match v
    case Arr(items) =>
      w.Arr? && |w.items| == |items| && forall i :: 0 <= i < |items| ==> Same(items[i], w.items[i])
    case Obj(ms) =>
      && w.Obj?
      && (forall m :: m in ms ==> exists n :: n in w.members && n.key == m.key && Same(m.value, n.value))
      && KeysWithin(w.members, ms)
    case _ => v == w
  }

  predicate KeysWithin(ns: seq<Member>, ms: seq<Member>) {
    forall n :: n in ns ==> exists m :: m in ms && m.key == n.key
  }

  function SortValues(ms: seq<Member>): (r: seq<Member>)
    ensures |r| == |ms| && forall i :: 0 <= i < |ms| ==> r[i] == Member(ms[i].key, Sort(ms[i].value))
  {
    seq(|ms|, i requires 0 <= i < |ms| => Member(ms[i].key, Sort(ms[i].value)))
  }

  lemma SortObj(ms: seq<Member>)
    ensures Sort(Obj(ms)) == Obj(InsertionSort(SortValues(ms), BY_KEY))
  {
  }

  lemma KeyOrder()
    ensures StrictOrder(BY_KEY)
    ensures forall m: Member, n: Member :: !BY_KEY(m, n) && !BY_KEY(n, m) ==> m.key == n.key
  {
    StringOrder();
  }

  lemma {:induction false} SortWellFormed(v: Value)
    requires WellFormed(v)
    ensures WellFormed(Sort(v)) && (Sort(v).Num? <==> v.Num?)
  {
    match v
    case Arr(items) =>
      forall v | v in items ensures WellFormed(Sort(v)) { SortWellFormed(v); }
    case Obj(ms) =>
      SortObj(ms);
      var s := SortValues(ms);
      SortedMembers(s);
      forall m | m in s ensures WellFormed(m.value) {
        var i :| 0 <= i < |ms| && s[i] == m;
        SortWellFormed(ms[i].value);
      }
    case _ =>
  }

  // Sorting keeps the members and, as their keys differ, keeps them distinct.
  lemma SortedMembers(s: seq<Member>)
    requires DistinctKeys(s)
    ensures var r := InsertionSort(s, BY_KEY);
            DistinctKeys(r) && Sorted(r, BY_KEY) && multiset(r) == multiset(s) && forall m :: m in r <==> m in s
  {
    KeyOrder();
    SortSorts(s, BY_KEY);
    SortPermutes(s, BY_KEY);
    SortKeepsElements(s, BY_KEY);
    DistinctPermuted(s, InsertionSort(s, BY_KEY));
  }

  lemma DistinctPermuted(s: seq<Member>, r: seq<Member>)
    requires DistinctKeys(s) && multiset(s) == multiset(r)
    ensures DistinctKeys(r)
  {
    PermutedDistinct(s, r);
    forall i, j | 0 <= i < j < |r| ensures r[i].key != r[j].key {
      assert r[i] in multiset(s) && r[j] in multiset(s);
    }
  }

  // Whatever either printer writes for a well-formed value is read back as that value, members sorted.
  lemma EncodeReads(v: Value, style: Style)
    requires WellFormed(v)
    ensures Parse(Encode(v, style)) == Some(Sort(v))
  {
    SortWellFormed(v);
    ValueReads(Sort(v), style, "");
    assert Encode(v, style) + "" == Encode(v, style);
  }
}
