/** Comparing a response with its recorded one: normalize and equalResponses of goldenreplay/normalize.go. */
module GoldenCompare {
  import opened Ordering
  import opened Text

  datatype Header = Header(name: string, value: string)

  datatype Response = Response(status: int, headers: seq<Header>, body: seq<char>)

  // Library code: the entity-tag pattern, and the canonical form of a session cookie.
  datatype Library = Library(fsEtag: string -> bool, sessionCookie: string -> string)

  predicate Bodyless(status: int) { status == 204 || status == 304 || 100 <= status < 200 }

  predicate Contains(s: string, word: string)
    decreases |s|
  {
    word <= s || (s != "" && Contains(s[1..], word))
  }

  // ----- the Allow header -----

  function Keep(parts: seq<string>): seq<string> {
    if parts == [] then []
    else (if TrimSpace(parts[0]) == "" then [] else [TrimSpace(parts[0])]) + Keep(parts[1..])
  }

  // The methods that the header lists.
  function Methods(value: string): seq<string> { Keep(Split(value, ',')) }

  // strings.Join(ms, ", ")
  function Listed(ms: seq<string>): string {
    if ms == [] then "" else if |ms| == 1 then ms[0] else ms[0] + "," + (" " + Listed(ms[1..]))
  }

  function AllowValue(value: string): string { Listed(InsertionSort(Methods(value), Less)) }

  predicate Plain(m: string) { m != "" && ',' !in m && Trimmed(m) }

  lemma {:induction false} SplitLacks(s: string, sep: char)
    ensures forall p :: p in Split(s, sep) ==> sep !in p
  {
    if s != "" {
      SplitLacks(s[1..], sep);
      assert forall p :: p in Split(s[1..], sep)[1..] ==> p in Split(s[1..], sep);
      assert Split(s[1..], sep)[0] in Split(s[1..], sep);
    }
  }

  lemma TrimLacks(s: string, c: char)
    requires c !in s
    ensures c !in TrimSpace(s)
  {
    LeftTrims(s);
    RightTrims(TrimSpaceLeft(s));
    var left := TrimSpaceLeft(s);
    assert left == s[|s| - |left|..];
  }

  lemma {:induction false} KeepIsPlain(parts: seq<string>)
    requires forall p :: p in parts ==> ',' !in p
    ensures forall m :: m in Keep(parts) ==> Plain(m)
  {
    hide TrimSpace, Trimmed;
    if parts != [] {
      KeepIsPlain(parts[1..]);
      TrimSpaceSpec(parts[0]);
      TrimLacks(parts[0], ',');
    }
  }

  lemma MethodsPlain(value: string)
    ensures forall m :: m in Methods(value) ==> Plain(m)
  {
    SplitLacks(value, ',');
    KeepIsPlain(Split(value, ','));
  }

  lemma SpaceIgnored(s: string)
    ensures Methods(" " + s) == Methods(s)
  {
  }

  lemma MethodsCons(m: string, rest: string)
    requires Plain(m)
    ensures Methods(m) == [m] && Methods(m + "," + rest) == [m] + Methods(rest)
  {
    TrimSpaceSpec(m);
    SplitConcat(m, rest, ',');
    hide TrimSpace, Trimmed, Split;
    assert Keep([m][1..]) == [] && ([m] + Split(rest, ','))[1..] == Split(rest, ',');
  }

  // A list of methods is read back from its text.
  lemma {:induction false} ListedReads(ms: seq<string>)
    requires forall m :: m in ms ==> Plain(m)
    ensures Methods(Listed(ms)) == ms
  {
    if ms == [] {
      assert Split("", ',') == [""] && TrimSpace("") == "" && Keep([""][1..]) == [];
    } else {
      hide Methods, Plain;
      assert ms[0] in ms;
      MethodsCons(ms[0], " " + Listed(ms[1..]));
      if |ms| == 1 {
        assert ms == [ms[0]];
      } else {
        ListedReads(ms[1..]);
        SpaceIgnored(Listed(ms[1..]));
        assert ms == [ms[0]] + ms[1..];
      }
    }
  }

  // Two Allow headers are taken for the same exactly when they list the same methods equally often.
  lemma AllowExactly(v: string, w: string)
    ensures AllowValue(v) == AllowValue(w) <==> multiset(Methods(v)) == multiset(Methods(w))
    ensures AllowValue(AllowValue(v)) == AllowValue(v)
  {
    hide Methods, Listed, InsertionSort, Plain;
    MethodsPlain(v);
    MethodsPlain(w);
    var a, b := InsertionSort(Methods(v), Less), InsertionSort(Methods(w), Less);
    SortKeepsElements(Methods(v), Less);
    SortKeepsElements(Methods(w), Less);
    ListedReads(a);
    ListedReads(b);
    SameMultisetExactly(Methods(v), Methods(w));
    SortPermutes(Methods(v), Less);
    SameMultisetExactly(a, Methods(v));
  }

  // ----- normalization -----

  const DROPPED := {"date", "server", "connection", "transfer-encoding", "keep-alive", "last-modified", "expires"}

  predicate Drops(h: Header, status: int, lib: Library) {
    var name := ToLower(h.name);
    || name in DROPPED
    || (name == "content-length" && Bodyless(status))
    || (name == "etag" && lib.fsEtag(TrimSpace(h.value)))
  }

  function NormalHeader(h: Header, lib: Library): Header {
    var name := ToLower(h.name);
    if name == "set-cookie" && Contains(h.value, "sobs_session=") then Header(h.name, lib.sessionCookie(h.value))
    else if name == "allow" then Header(h.name, AllowValue(h.value))
    else h
  }

  function NormalHeaders(hs: seq<Header>, status: int, lib: Library): seq<Header> {
    if hs == [] then []
    else NormalHeaders(hs[..|hs| - 1], status, lib) + if Drops(hs[|hs| - 1], status, lib) then [] else [NormalHeader(hs[|hs| - 1], lib)]
  }

  function Normal(r: Response, lib: Library): Response { Response(r.status, NormalHeaders(r.headers, r.status, lib), r.body) }

  method KeepMethods(value: string) returns (methods: seq<string>)
    ensures methods == Methods(value)
  {
    hide Split, TrimSpace;
    var parts := Split(value, ',');
    methods := [];
    for i := 0 to |parts|
      invariant methods + Keep(parts[i..]) == Keep(parts)
    {
      assert parts[i..][1..] == parts[i + 1..];
      var p := TrimSpace(parts[i]);
      if p != "" {
        methods := methods + [p];
      }
    }
  }

  lemma DropsIs(h: Header, status: int, lib: Library)
    ensures var name := ToLower(h.name);
            Drops(h, status, lib) <==>
              name in DROPPED || (name == "content-length" && Bodyless(status)) || (name == "etag" && lib.fsEtag(TrimSpace(h.value)))
  {
  }

  lemma NormalHeaderIs(h: Header, lib: Library)
    ensures var name := ToLower(h.name);
            NormalHeader(h, lib) ==
            if name == "set-cookie" && Contains(h.value, "sobs_session=") then Header(h.name, lib.sessionCookie(h.value))
            else if name == "allow" then Header(h.name, Listed(InsertionSort(Methods(h.value), Less)))
            else h
  {
  }

  lemma NextHeader(hs: seq<Header>, i: nat, status: int, lib: Library)
    requires i < |hs|
    ensures NormalHeaders(hs[..i + 1], status, lib) ==
            NormalHeaders(hs[..i], status, lib) + if Drops(hs[i], status, lib) then [] else [NormalHeader(hs[i], lib)]
  {
    hide Drops, NormalHeader;
    assert hs[..i + 1][..i] == hs[..i];
  }

  method Normalize(r: Response, lib: Library) returns (out: Response)
    ensures out == Normal(r, lib)
  {
    hide ToLower, Contains, AllowValue, Drops, NormalHeader;
    var bodyless := Bodyless(r.status);
    var headers: seq<Header> := [];
    for i := 0 to |r.headers|
      invariant headers == NormalHeaders(r.headers[..i], r.status, lib)
    {
      var h := r.headers[i];
      NextHeader(r.headers, i, r.status, lib);
      var name := ToLower(h.name);
      DropsIs(h, r.status, lib);
      if name in DROPPED || (name == "content-length" && bodyless) || (name == "etag" && lib.fsEtag(TrimSpace(h.value))) {
        continue;
      }
      NormalHeaderIs(h, lib);
      if name == "set-cookie" && Contains(h.value, "sobs_session=") {
        headers := headers + [Header(h.name, lib.sessionCookie(h.value))];
        continue;
      }
      if name == "allow" {
        var methods := KeepMethods(h.value);
        headers := headers + [Header(h.name, Listed(InsertionSort(methods, Less)))];
        continue;
      }
      headers := headers + [h];
    }
    assert r.headers[..|r.headers|] == r.headers;
    out := Response(r.status, headers, r.body);
  }

  // ----- comparison -----

  const NUL: char := '\0'

  function Line(h: Header): string { ToLower(h.name) + [NUL] + h.value }

  function Lines(hs: seq<Header>): (lines: seq<string>)
    ensures |lines| == |hs| && forall i :: 0 <= i < |hs| ==> lines[i] == Line(hs[i])
  {
    seq(|hs|, i requires 0 <= i < |hs| => Line(hs[i]))
  }

  method HeaderMultiset(hs: seq<Header>) returns (out: seq<string>)
    ensures out == InsertionSort(Lines(hs), Less)
  {
    var a := new string[|hs|](i => "");
    for i := 0 to |hs|
      invariant forall j :: 0 <= j < i ==> a[j] == Line(hs[j])
    {
      a[i] := Line(hs[i]);
    }
    assert a[..] == Lines(hs);
    SortStrings(a);
    out := a[..];
  }

  method EqualMultiset(a: seq<string>, b: seq<string>) returns (equal: bool)
    ensures equal <==> a == b
  {
    if |a| != |b| {
      return false;
    }
    for i := 0 to |a|
      invariant a[..i] == b[..i]
    {
      if a[i] != b[i] {
        return false;
      }
    }
    return true;
  }

  // Status, body and the multiset of header lines agree.
  predicate Accepted(a: Response, b: Response, lib: Library) {
    a.status == b.status && a.body == b.body && multiset(Lines(Normal(a, lib).headers)) == multiset(Lines(Normal(b, lib).headers))
  }

  method EqualResponses(a: Response, b: Response, lib: Library) returns (equal: bool)
    ensures equal <==> Accepted(a, b, lib)
  {
    var na := Normalize(a, lib);
    var nb := Normalize(b, lib);
    if na.status != nb.status {
      return false;
    }
    var x := HeaderMultiset(na.headers);
    var y := HeaderMultiset(nb.headers);
    SameMultisetExactly(Lines(na.headers), Lines(nb.headers));
    equal := EqualMultiset(x, y);
    equal := equal && na.body == nb.body;
  }

  // A header as the comparison sees it.
  function Lowered(h: Header): Header { Header(ToLower(h.name), h.value) }

  function LineOf(h: Header): string { h.name + [NUL] + h.value }

  // The name of h is that of g, the separator and what the value of g begins with: one line for two headers.
  predicate Confused(g: Header, h: Header) {
    var n, l := ToLower(g.name), ToLower(h.name);
    n + [NUL] <= l && g.value == l[|n| + 1..] + [NUL] + h.value
  }

  lemma OneLineExactly(n: string, l: string, v: string, w: string)
    requires |n| < |l|
    ensures n + [NUL] + v == l + [NUL] + w <==> n + [NUL] <= l && v == l[|n| + 1..] + [NUL] + w
  {
    var a, b := n + [NUL] + v, l + [NUL] + w;
    if a == b {
      assert a[..|n| + 1] == n + [NUL] && b[..|n| + 1] == l[..|n| + 1];
      assert a[|n| + 1..] == v && b[|n| + 1..] == l[|n| + 1..] + [NUL] + w;
    }
    if n + [NUL] <= l && v == l[|n| + 1..] + [NUL] + w {
      assert l == n + [NUL] + l[|n| + 1..];
    }
  }

  lemma SamePlace(n: string, l: string, v: string, w: string)
    requires |n| == |l| && n + [NUL] + v == l + [NUL] + w
    ensures n == l && v == w
  {
    var a, b := n + [NUL] + v, l + [NUL] + w;
    assert a[..|n|] == n && b[..|n|] == l && a[|n| + 1..] == v && b[|n| + 1..] == w;
  }

  // Different headers have one line exactly when they are confused.
  lemma LinePairExactly(g: Header, h: Header)
    ensures Line(g) == Line(h) && Lowered(g) != Lowered(h) <==> Confused(g, h) || Confused(h, g)
    ensures LineOf(Lowered(g)) == Line(g)
  {
    hide ToLower;
    var n, l := ToLower(g.name), ToLower(h.name);
    if |n| < |l| {
      OneLineExactly(n, l, g.value, h.value);
    } else if |l| < |n| {
      OneLineExactly(l, n, h.value, g.value);
    } else if Line(g) == Line(h) {
      SamePlace(n, l, g.value, h.value);
    }
  }

  // No two of these headers are confused.
  ghost predicate Clear(hs: set<Header>) { forall g, h :: g in hs && h in hs ==> !Confused(g, h) }

  function Elements(hs: seq<Header>): set<Header> { set h | h in hs }

  // The header that has this line, as the comparison sees it.
  ghost function HeaderOf(hs: set<Header>, line: string): Header {
    if exists h :: h in hs && Line(h) == line then
      var h :| h in hs && Line(h) == line;
      Lowered(h)
    else Header("", "")
  }

  lemma HeaderRead(hs: set<Header>, h: Header)
    requires Clear(hs) && h in hs
    ensures HeaderOf(hs, Line(h)) == Lowered(h)
  {
    hide Line, Lowered, Confused;
    forall g | g in hs && Line(g) == Line(h) ensures Lowered(g) == Lowered(h) {
      LinePairExactly(g, h);
    }
  }

  // Unless two of the headers are confused, comparing the sorted lines is comparing the multisets of headers,
  // names without case.
  lemma LinesExactly(gs: seq<Header>, hs: seq<Header>)
    requires Clear(Elements(gs + hs))
    ensures multiset(Lines(gs)) == multiset(Lines(hs)) <==> multiset(MapSeq(Lowered, gs)) == multiset(MapSeq(Lowered, hs))
  {
    var all := Elements(gs + hs);
    var back := (line: string) => HeaderOf(all, line);
    forall h | h in gs || h in hs ensures back(Line(h)) == Lowered(h) && LineOf(Lowered(h)) == Line(h) {
      HeaderRead(all, h);
      LinePairExactly(h, h);
    }
    hide Line, Lowered, LineOf, Clear;
    assert MapSeq(back, Lines(gs)) == MapSeq(Lowered, gs) && MapSeq(back, Lines(hs)) == MapSeq(Lowered, hs);
    assert MapSeq(LineOf, MapSeq(Lowered, gs)) == Lines(gs) && MapSeq(LineOf, MapSeq(Lowered, hs)) == Lines(hs);
    if multiset(Lines(gs)) == multiset(Lines(hs)) {
      MapPermutes(back, Lines(gs), Lines(hs));
    }
    if multiset(MapSeq(Lowered, gs)) == multiset(MapSeq(Lowered, hs)) {
      MapPermutes(LineOf, MapSeq(Lowered, gs), MapSeq(Lowered, hs));
    }
  }

  // So responses are accepted exactly when they agree.
  lemma AcceptedExactly(a: Response, b: Response, lib: Library)
    requires Clear(Elements(Normal(a, lib).headers + Normal(b, lib).headers))
    ensures Accepted(a, b, lib) <==>
              && a.status == b.status && a.body == b.body
              && multiset(MapSeq(Lowered, Normal(a, lib).headers)) == multiset(MapSeq(Lowered, Normal(b, lib).headers))
  {
    hide Lines, Lowered, NormalHeaders, Clear;
    LinesExactly(Normal(a, lib).headers, Normal(b, lib).headers);
  }

  // Names without the separator are never confused.
  lemma NulFreeIsClear(hs: set<Header>)
    requires forall h :: h in hs ==> NUL !in ToLower(h.name)
    ensures Clear(hs)
  {
    hide ToLower;
    forall g, h | g in hs && Confused(g, h) ensures NUL in ToLower(h.name) {
      assert ToLower(h.name)[|ToLower(g.name)|] == NUL;
    }
  }

  // Two lists of these headers with the same lines that do not hold the same headers.
  ghost predicate Mistaken(gs: seq<Header>, hs: seq<Header>) {
    multiset(Lines(gs)) == multiset(Lines(hs)) && multiset(MapSeq(Lowered, gs)) != multiset(MapSeq(Lowered, hs))
  }

  ghost predicate CanMistake(all: set<Header>) {
    exists gs, hs :: Elements(gs) <= all && Elements(hs) <= all && Mistaken(gs, hs)
  }

  // Lists of these headers can be taken for each other exactly when two of the headers are confused.
  lemma MistakenExactly(all: set<Header>)
    ensures CanMistake(all) <==> exists g, h :: g in all && h in all && Confused(g, h)
  {
    hide Line, Lowered, Confused;
    if CanMistake(all) {
      var gs, hs :| Elements(gs) <= all && Elements(hs) <= all && Mistaken(gs, hs);
      if Clear(all) {
        assert Elements(gs + hs) <= all;
        LinesExactly(gs, hs);
      }
    }
    if exists g, h :: g in all && h in all && Confused(g, h) {
      var g, h :| g in all && h in all && Confused(g, h);
      LinePairExactly(g, h);
      SingleMistake(g, h);
    }
  }

  lemma SingleMistake(g: Header, h: Header)
    requires Line(g) == Line(h) && Lowered(g) != Lowered(h)
    ensures Mistaken([g], [h])
  {
    hide Line, Lowered;
    assert Lines([g]) == [Line(g)] && Lines([h]) == [Line(h)];
    assert MapSeq(Lowered, [g]) == [Lowered(g)] && MapSeq(Lowered, [h]) == [Lowered(h)];
    assert multiset([Lowered(g)])[Lowered(g)] == 1 && multiset([Lowered(h)])[Lowered(g)] == 0;
  }

  // With the separator in a name, the comparison accepts two responses whose one header differs.
  lemma NulConfuses(x: string, y: string, z: string, lib: Library)
    requires |x| + |y| < 3 && ToLower(y) == y
    ensures var g, h := Header(x, y + [NUL] + z), Header(x + [NUL] + y, z);
            var a, b := Response(200, [g], ""), Response(200, [h], "");
            Accepted(a, b, lib) && Normal(a, lib) == a && Normal(b, lib) == b && Lowered(g) != Lowered(h)
  {
    var g, h := Header(x, y + [NUL] + z), Header(x + [NUL] + y, z);
    ShortNameStays(g, lib);
    ShortNameStays(h, lib);
    LowerAcross(x, y);
    hide ToLower, NormalHeaders;
    assert Line(g) == Line(h);
    assert Lines([g]) == Lines([h]);
  }

  lemma LowerAcross(x: string, y: string)
    ensures ToLower(x + [NUL] + y) == ToLower(x) + [NUL] + ToLower(y) && |ToLower(x)| == |x|
  {
  }

  // Names that normalization looks for have at least four characters.
  lemma ShortNameStays(h: Header, lib: Library)
    requires |h.name| < 4
    ensures NormalHeaders([h], 200, lib) == [h]
  {
    assert |ToLower(h.name)| < 4;
    hide ToLower;
    assert [h][..0] == [];
  }

  // ----- the order of the headers -----

  lemma {:induction false} NormalConcat(a: seq<Header>, b: seq<Header>, status: int, lib: Library)
    ensures NormalHeaders(a + b, status, lib) == NormalHeaders(a, status, lib) + NormalHeaders(b, status, lib)
    decreases |b|
  {
    hide Drops, NormalHeader;
    if b == [] {
      assert a + b == a;
    } else {
      assert (a + b)[..|a + b| - 1] == a + b[..|b| - 1];
      NormalConcat(a, b[..|b| - 1], status, lib);
    }
  }

  lemma NormalWithout(hs: seq<Header>, j: nat, status: int, lib: Library)
    requires j < |hs|
    ensures multiset(NormalHeaders(hs, status, lib)) ==
            multiset(NormalHeaders(hs[..j] + hs[j + 1..], status, lib)) + multiset(NormalHeaders([hs[j]], status, lib))
  {
    hide NormalHeaders;
    assert hs == hs[..j] + [hs[j]] + hs[j + 1..];
    NormalConcat(hs[..j] + [hs[j]], hs[j + 1..], status, lib);
    NormalConcat(hs[..j], [hs[j]], status, lib);
    NormalConcat(hs[..j], hs[j + 1..], status, lib);
  }

  lemma {:induction false} NormalPermutes(a: seq<Header>, b: seq<Header>, status: int, lib: Library)
    requires multiset(a) == multiset(b)
    ensures multiset(NormalHeaders(a, status, lib)) == multiset(NormalHeaders(b, status, lib))
    decreases |a|
  {
    hide NormalHeaders;
    assert |multiset(a)| == |a| && |multiset(b)| == |b|;
    if a != [] {
      var j := Matching(a, b);
      var c, d := a[..0] + a[1..], b[..j] + b[j + 1..];
      NormalPermutes(c, d, status, lib);
      NormalWithout(a, 0, status, lib);
      NormalWithout(b, j, status, lib);
    } else {
      assert a == b;
    }
  }

  // Responses that differ only in the order of their headers pass the comparison.
  lemma HeaderOrderIrrelevant(a: Response, b: Response, lib: Library)
    requires a.status == b.status && multiset(a.headers) == multiset(b.headers)
    ensures multiset(Lines(Normal(a, lib).headers)) == multiset(Lines(Normal(b, lib).headers))
  {
    NormalPermutes(a.headers, b.headers, a.status, lib);
    hide Line, NormalHeaders;
    var na, nb := Normal(a, lib).headers, Normal(b, lib).headers;
    MapPermutes(Line, na, nb);
    assert Lines(na) == MapSeq(Line, na) && Lines(nb) == MapSeq(Line, nb);
  }
}
