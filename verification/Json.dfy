/** JSON values, the two compact key-sorting printers of the repository, and the parser that reads
    their output back. */
module Json {
  import opened Options
  import opened Ordering

  // A number is kept as its literal text. The members of an object are in iteration order.
  datatype Value =
    | Null
    | Bool(b: bool)
    | Num(text: string)
    | Str(s: string)
    | Arr(items: seq<Value>)
    | Obj(members: seq<Member>)

  datatype Member = Member(key: string, value: Value)

  const BY_KEY: (Member, Member) -> bool := (m: Member, n: Member) => Less(m.key, n.key)

  predicate DistinctKeys(ms: seq<Member>) {
    forall i, j :: 0 <= i < j < |ms| ==> ms[i].key != ms[j].key
  }

  predicate Digit(c: char) { '0' <= c <= '9' }

  predicate NumberChar(c: char) { Digit(c) || c in "+-.eE" }

  // -?(0|[1-9][0-9]*)(\.[0-9]+)?([eE][+-]?[0-9]+)?
  predicate Number(t: string) {
    var u := if t != "" && t[0] == '-' then t[1..] else t;
    u != "" && Digit(u[0]) && Fraction(if u[0] == '0' then u[1..] else DropDigits(u))
  }

  function DropDigits(t: string): (r: string)
    ensures |r| <= |t|
  {
    if t != "" && Digit(t[0]) then DropDigits(t[1..]) else t
  }

  predicate Fraction(t: string) {
    if t != "" && t[0] == '.' then |t| > 1 && Digit(t[1]) && Exponent(DropDigits(t[1..])) else Exponent(t)
  }

  predicate Exponent(t: string) {
    t == "" ||
    ((t[0] == 'e' || t[0] == 'E') &&
     var u := if |t| > 1 && (t[1] == '+' || t[1] == '-') then t[2..] else t[1..];
     u != "" && DropDigits(u) == "")
  }

  predicate WellFormed(v: Value) {
    match v
    case Num(t) => Number(t)
    case Arr(items) => forall v :: v in items ==> WellFormed(v)
    case Obj(ms) => DistinctKeys(ms) && forall m :: m in ms ==> WellFormed(m.value)
    case _ => true
  }

  // The value with the members of every object in key order.
  function Sort(v: Value): Value {
    match v
    case Arr(items) => Arr(seq(|items|, i requires 0 <= i < |items| => Sort(items[i])))
    case Obj(ms) => Obj(InsertionSort(seq(|ms|, i requires 0 <= i < |ms| => Member(ms[i].key, Sort(ms[i].value))), BY_KEY))
    case _ => v
  }

  // ----- printing -----

  // encoding/json escapes HTML characters and the two line separators; jsonenc does not.
  datatype Style = Plain | Html

  function Hex(n: nat): char
    requires n < 16
  {
    "0123456789abcdef"[n]
  }

  function HexEscape(c: char): string
    requires c as int < 0x10000
  {
    var n := c as int;
    "\\u" + [Hex(n / 4096), Hex(n / 256 % 16), Hex(n / 16 % 16), Hex(n % 16)]
  }

  function Escape(c: char, style: Style): string {
    if c == '"' then "\\\""
    else if c == '\\' then "\\\\"
    else if c == '\n' then "\\n"
    else if c == '\r' then "\\r"
    else if c == '\t' then "\\t"
    else if c == '\U{8}' then "\\b"
    else if c == '\U{C}' then "\\f"
    else if c < ' ' then HexEscape(c)
    else if style == Html && (c in "<>&" || c == '\U{2028}' || c == '\U{2029}') then HexEscape(c)
    else [c]
  }

  function EscapeAll(s: string, style: Style): string {
    if s == "" then "" else Escape(s[0], style) + EscapeAll(s[1..], style)
  }

  function Quote(s: string, style: Style): string { "\"" + EscapeAll(s, style) + "\"" }

  function Print(v: Value, style: Style): string
    decreases v, 1
  {
    match v
    case Null => "null"
    case Bool(b) => if b then "true" else "false"
    case Num(t) => t
    case Str(s) => Quote(s, style)
    case Arr(items) => "[" + PrintItems(items, style) + "]"
    case Obj(ms) => "{" + PrintMembers(ms, style) + "}"
  }

  function PrintItems(items: seq<Value>, style: Style): string
    decreases items, 0
  {
    if items == [] then ""
    else if |items| == 1 then Print(items[0], style)
    else Print(items[0], style) + "," + PrintItems(items[1..], style)
  }

  function PrintMember(m: Member, style: Style): string
    decreases m, 1
  {
    Quote(m.key, style) + ":" + Print(m.value, style)
  }

  function PrintMembers(ms: seq<Member>, style: Style): string
    decreases ms, 0
  {
    if ms == [] then ""
    else if |ms| == 1 then PrintMember(ms[0], style)
    else PrintMember(ms[0], style) + "," + PrintMembers(ms[1..], style)
  }

  // jsonenc.Encode with SortKeys and compact separators, and goldenreplay's canonicalJSON.
  function Encode(v: Value, style: Style): string { Print(Sort(v), style) }

  // ----- parsing -----

  predicate White(c: char) { c == ' ' || c == '\t' || c == '\n' || c == '\r' }

  function SkipWhite(t: string): (r: string)
    ensures |r| <= |t|
  {
    if t != "" && White(t[0]) then SkipWhite(t[1..]) else t
  }

  function HexValue(c: char): Option<nat> {
    if '0' <= c <= '9' then Some(c as int - '0' as int)
    else if 'a' <= c <= 'f' then Some(c as int - 'a' as int + 10)
    else if 'A' <= c <= 'F' then Some(c as int - 'A' as int + 10)
    else None
  }

  // The second half of a surrogate pair, when one is escaped here.
  function LowHalf(t: string): (n: Option<nat>)
    ensures n.Some? ==> 0xDC00 <= n.value < 0xE000 && |t| >= 6
  {
    if |t| < 6 || t[0] != '\\' || t[1] != 'u' || ReadHex(t[2..]).None? then None
    else if 0xDC00 <= ReadHex(t[2..]).value < 0xE000 then Some(ReadHex(t[2..]).value)
    else None
  }

  // The character of a surrogate pair.
  function PairOf(high: nat, low: nat): char
    requires 0xD800 <= high < 0xDC00 && 0xDC00 <= low < 0xE000
  {
    (0x10000 + (high - 0xD800) * 0x400 + (low - 0xDC00)) as char
  }

  // A surrogate half is no character; a lone one reads as U+FFFD.
  function CharOf(n: nat): char
    requires n < 0x10000
  {
    if 0xD800 <= n < 0xE000 then '\U{FFFD}' else n as char
  }

  function ReadHex(t: string): Option<nat>
    requires |t| >= 4
    ensures ReadHex(t).Some? ==> ReadHex(t).value < 0x10000
  {
    var a, b, c, d := HexValue(t[0]), HexValue(t[1]), HexValue(t[2]), HexValue(t[3]);
    if a.Some? && b.Some? && c.Some? && d.Some? then Some(((a.value * 16 + b.value) * 16 + c.value) * 16 + d.value) else None
  }

  function Unescape(c: char): Option<char> {
    if c == '"' || c == '\\' || c == '/' then Some(c)
    else if c == 'b' then Some('\U{8}')
    else if c == 'f' then Some('\U{C}')
    else if c == 'n' then Some('\n')
    else if c == 'r' then Some('\r')
    else if c == 't' then Some('\t')
    else None
  }

  // The rest of a string literal after its opening quote.
  function ParseString(t: string): (r: Option<(string, string)>)
    ensures r.Some? ==> |r.value.1| < |t|
  {
    if t == "" || t[0] < ' ' then None
    else if t[0] == '"' then Some(("", t[1..]))
    else if t[0] != '\\' then Prepend(t[0], ParseString(t[1..]))
    else if |t| >= 6 && t[1] == 'u' then
      if ReadHex(t[2..]).None? then None
      else
        var n, low := ReadHex(t[2..]).value, LowHalf(t[6..]);
        if 0xD800 <= n < 0xDC00 && low.Some? then Prepend(PairOf(n, low.value), ParseString(t[12..]))
        else Prepend(CharOf(n), ParseString(t[6..]))
    else if |t| < 2 || Unescape(t[1]).None? then None
    else Prepend(Unescape(t[1]).value, ParseString(t[2..]))
  }

  function Prepend(c: char, r: Option<(string, string)>): Option<(string, string)> {
    if r.None? then None else Some(([c] + r.value.0, r.value.1))
  }

  function NumberSpan(t: string): (n: nat)
    ensures n <= |t|
  {
    if t != "" && NumberChar(t[0]) then 1 + NumberSpan(t[1..]) else 0
  }

  function Literal(t: string, word: string, v: Value): Option<(Value, string)> {
    if word <= t then Some((v, t[|word|..])) else None
  }

  // parseJSONValue asks whether a list or an object goes on, and drops the error when its end is missing or
  // is the wrong bracket: what was read so far counts, and so it does for all that surrounds it. The rest of
  // the text is then dropped here.
  function ParseValue(t: string): (r: Option<(Value, string)>)
    ensures r.Some? ==> |r.value.1| < |t|
    decreases |t|, 2
  {
    var t := SkipWhite(t);
    if t == "" then None
    else if t[0] == 'n' then Literal(t, "null", Null)
    else if t[0] == 't' then Literal(t, "true", Bool(true))
    else if t[0] == 'f' then Literal(t, "false", Bool(false))
    else if t[0] == '"' then
      match ParseString(t[1..]) { case Some((s, rest)) => Some((Str(s), rest)) case None => None }
    else if t[0] == '[' then
      var u := SkipWhite(t[1..]);
      if u == "" || u[0] == '}' then Some((Arr([]), ""))
      else if u[0] == ']' then Some((Arr([]), u[1..]))
      else match ParseItems(u) { case Some((items, rest)) => Some((Arr(items), rest)) case None => None }
    else if t[0] == '{' then
      var u := SkipWhite(t[1..]);
      if u == "" || u[0] == ']' then Some((Obj([]), ""))
      else if u[0] == '}' then Some((Obj([]), u[1..]))
      else match ParseMembers(u) { case Some((ms, rest)) => Some((Obj(SetAll(ms)), rest)) case None => None }
    else
      var n := NumberSpan(t);
      if Number(t[..n]) then Some((Num(t[..n]), t[n..])) else None
  }

  // At least one item, up to and including the closing bracket.
  function ParseItems(t: string): (r: Option<(seq<Value>, string)>)
    ensures r.Some? ==> |r.value.1| < |t|
    decreases |t|, 3
  {
    match ParseValue(t)
    case None => None
    case Some((v, rest)) =>
      var u := SkipWhite(rest);
      if u == "" || u[0] == '}' then Some(([v], ""))
      else if u[0] == ']' then Some(([v], u[1..]))
      else if u[0] != ',' then None
      else match ParseItems(u[1..]) { case Some((vs, end)) => Some(([v] + vs, end)) case None => None }
  }

  function ParseMembers(t: string): (r: Option<(seq<Member>, string)>)
    ensures r.Some? ==> |r.value.1| < |t|
    decreases |t|, 3
  {
    var t := SkipWhite(t);
    if t == "" || t[0] != '"' then None
    else match ParseString(t[1..])
      case None => None
      case Some((k, afterKey)) =>
        var c := SkipWhite(afterKey);
        if c == "" || c[0] != ':' then None
        else match ParseValue(c[1..])
          case None => None
          case Some((v, rest)) =>
            var u := SkipWhite(rest);
            if u == "" || u[0] == ']' then Some(([Member(k, v)], ""))
            else if u[0] == '}' then Some(([Member(k, v)], u[1..]))
            else if u[0] != ',' then None
            else match ParseMembers(u[1..]) { case Some((ms, end)) => Some(([Member(k, v)] + ms, end)) case None => None }
  }

  function Get(ms: seq<Member>, key: string): Option<Value> {
    if ms == [] then None else if ms[0].key == key then Some(ms[0].value) else Get(ms[1..], key)
  }

  // Object.Set: a repeated key keeps its first place and takes its last value.
  function Set(ms: seq<Member>, m: Member): seq<Member> {
    if ms == [] then [m]
    else if ms[0].key == m.key then [m] + ms[1..]
    else [ms[0]] + Set(ms[1..], m)
  }

  function SetAll(ms: seq<Member>): seq<Member> {
    if ms == [] then [] else Set(SetAll(ms[..|ms| - 1]), ms[|ms| - 1])
  }

  // parseJSONValue reads one value and ignores what follows it.
  function Parse(t: string): Option<Value> {
    match ParseValue(t) { case Some((v, _)) => Some(v) case None => None }
  }
}
