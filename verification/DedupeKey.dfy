/** The text normalization and the dedupe key of agent_dedupe.go. */
module DedupeKey {
  import opened Text

  // The maximal runs of characters that are no separators (strings.Fields for white space).
  function Fields(s: string, isSep: char -> bool): (fs: seq<string>)
    ensures s != "" && !isSep(s[0]) ==> fs != []
    ensures forall i :: 0 <= i < |fs| ==> fs[i] != "" && forall c :: c in fs[i] ==> c in s && !isSep(c)
  {
    if s == "" then []
    else
      var rest := Fields(s[1..], isSep);
      if isSep(s[0]) then rest
      else if |s| > 1 && !isSep(s[1]) then [[s[0]] + rest[0]] + rest[1..]
      else [[s[0]]] + rest
  }

  // ----- normalizeIssueMatchText -----

  predicate Alnum(c: char) { 'a' <= c <= 'z' || '0' <= c <= '9' }

  // Every maximal run of other characters becomes one space.
  function Collapse(s: string): string {
    if s == "" then ""
    else if Alnum(s[0]) then [s[0]] + Collapse(s[1..])
    else if |s| > 1 && !Alnum(s[1]) then Collapse(s[1..])
    else " " + Collapse(s[1..])
  }

  const SPACE: char -> bool := c => c == ' '
  const PUNCTUATION: char -> bool := c => !Alnum(c)

  function Normalize(s: string): string {
    Join(Fields(Collapse(ToLower(s)), SPACE), ' ')
  }

  // The words of a text, as the normalization is meant to compare them.
  function WordsOf(s: string): seq<string> { Fields(ToLower(s), PUNCTUATION) }

  lemma {:induction false} CollapseKeepsFields(s: string)
    ensures Fields(Collapse(s), SPACE) == Fields(s, PUNCTUATION)
    ensures Collapse(s) != "" <==> s != ""
    ensures s != "" ==> (Collapse(s)[0] == ' ' <==> !Alnum(s[0]))
  {
    if s != "" {
      CollapseKeepsFields(s[1..]);
      if Alnum(s[0]) {
        assert Collapse(s)[1..] == Collapse(s[1..]);
      } else if !(|s| > 1 && !Alnum(s[1])) {
        assert Collapse(s)[1..] == Collapse(s[1..]);
      }
    }
  }

  lemma {:induction false} FieldsOfWord(a: string, isSep: char -> bool)
    requires a != "" && forall c :: c in a ==> !isSep(c)
    ensures Fields(a, isSep) == [a]
  {
    assert [a[0]] + a[1..] == a;
    if |a| > 1 {
      assert a[1] in a && a[0] in a;
      FieldsOfWord(a[1..], isSep);
    } else {
      assert a[0] in a && a[1..] == "" && a == [a[0]];
    }
  }

  lemma {:induction false} FieldsConcat(a: string, b: string, isSep: char -> bool, sep: char)
    requires isSep(sep) && a != "" && forall c :: c in a ==> !isSep(c)
    ensures Fields(a + [sep] + b, isSep) == [a] + Fields(b, isSep)
  {
    var s := a + [sep] + b;
    assert a[0] in a && s[0] == a[0];
    if |a| == 1 {
      assert s[1..] == [sep] + b && ([sep] + b)[1..] == b && a == [a[0]];
      assert Fields([sep] + b, isSep) == Fields(b, isSep);
    } else {
      assert s[1..] == a[1..] + [sep] + b && s[1] == a[1] && a[1] in a;
      FieldsConcat(a[1..], b, isSep, sep);
      assert [a[0]] + a[1..] == a;
    }
  }

  lemma {:induction false} FieldsOfJoin(fs: seq<string>, isSep: char -> bool, sep: char)
    requires isSep(sep)
    requires forall i :: 0 <= i < |fs| ==> fs[i] != "" && forall c :: c in fs[i] ==> !isSep(c)
    ensures Fields(Join(fs, sep), isSep) == fs
  {
    if |fs| == 1 {
      FieldsOfWord(fs[0], isSep);
    } else if fs != [] {
      FieldsOfJoin(fs[1..], isSep, sep);
      FieldsConcat(fs[0], Join(fs[1..], sep), isSep, sep);
    }
  }

  lemma NormalizeJoinsWords(s: string)
    ensures Normalize(s) == Join(WordsOf(s), ' ')
    ensures Fields(Normalize(s), SPACE) == WordsOf(s)
  {
    CollapseKeepsFields(ToLower(s));
    FieldsOfJoin(WordsOf(s), SPACE, ' ');
  }

  // Two texts normalize to the same text exactly when they have the same words.
  lemma SameNormalExactly(s: string, t: string)
    ensures Normalize(s) == Normalize(t) <==> WordsOf(s) == WordsOf(t)
  {
    NormalizeJoinsWords(s);
    NormalizeJoinsWords(t);
  }

  lemma {:induction false} JoinCharacters(fs: seq<string>, sep: char, c: char)
    requires c in Join(fs, sep)
    ensures c == sep || exists i :: 0 <= i < |fs| && c in fs[i]
  {
    if |fs| > 1 && c in Join(fs[1..], sep) {
      JoinCharacters(fs[1..], sep, c);
    }
  }

  lemma NormalCharacters(s: string)
    ensures forall c :: c in Normalize(s) ==> Alnum(c) || c == ' '
  {
    NormalizeJoinsWords(s);
    forall c | c in Normalize(s) ensures Alnum(c) || c == ' ' {
      JoinCharacters(WordsOf(s), ' ', c);
    }
  }

  lemma NormalizeIdempotent(s: string)
    ensures Normalize(Normalize(s)) == Normalize(s)
  {
    NormalizeJoinsWords(s);
    NormalCharacters(s);
    var n := Normalize(s);
    forall i | 0 <= i < |n| ensures Lower(n[i]) == n[i] {
      assert n[i] in n;
    }
    assert ToLower(n) == n;
    FieldsOfJoin(WordsOf(s), PUNCTUATION, ' ');
    NormalizeJoinsWords(Normalize(s));
  }

  // ----- buildGithubWorkItemDedupKey -----

  function KeyOfParts(parts: seq<string>): string {
    TrimRight(TrimLeft(Join(parts, '|'), '|'), '|')
  }

  datatype Trigger = Trigger(service: string, source: string, signal: string, state: string)

  function Parts(repo: string, tf: Trigger): (ps: seq<string>)
    ensures |ps| == 5
  {
    [Normalize(repo), Normalize(tf.service), Normalize(tf.source), Normalize(tf.signal), Normalize(tf.state)]
  }

  function Key(repo: string, tf: Trigger): string { KeyOfParts(Parts(repo, tf)) }

  lemma PartsHaveNoBar(repo: string, tf: Trigger)
    ensures Without(Parts(repo, tf), '|')
  {
    NormalCharacters(repo);
    NormalCharacters(tf.service);
    NormalCharacters(tf.source);
    NormalCharacters(tf.signal);
    NormalCharacters(tf.state);
  }

  // The parts without the blank ones in front and behind.
  function DropBlankFront(parts: seq<string>): seq<string> {
    if parts != [] && parts[0] == "" then DropBlankFront(parts[1..]) else parts
  }

  function DropBlankBack(parts: seq<string>): seq<string> {
    if parts != [] && parts[|parts| - 1] == "" then DropBlankBack(parts[..|parts| - 1]) else parts
  }

  function Core(parts: seq<string>): seq<string> { DropBlankBack(DropBlankFront(parts)) }

  lemma {:induction false} TrimLeftOfJoin(parts: seq<string>)
    requires Without(parts, '|')
    ensures TrimLeft(Join(parts, '|'), '|') == Join(DropBlankFront(parts), '|')
  {
    if parts != [] && parts[0] == "" {
      TrimLeftOfJoin(parts[1..]);
      if |parts| > 1 {
        assert Join(parts, '|')[1..] == Join(parts[1..], '|');
      }
    }
  }

  lemma {:induction false} TrimRightOfJoin(parts: seq<string>)
    requires Without(parts, '|') && (parts != [] ==> parts[0] != "")
    ensures TrimRight(Join(parts, '|'), '|') == Join(DropBlankBack(parts), '|')
    decreases |parts|
  {
    if parts != [] {
      var front, last := parts[..|parts| - 1], parts[|parts| - 1];
      assert parts == front + [last];
      if front == [] {
        assert parts == [last];
      } else {
        JoinSnoc(front, last, '|');
        if last == "" {
          assert Join(parts, '|')[..|Join(parts, '|')| - 1] == Join(front, '|');
          TrimRightOfJoin(front);
        } else {
          assert Join(parts, '|')[|Join(parts, '|')| - 1] == last[|last| - 1];
        }
      }
    }
  }

  lemma {:induction false} DropBlankBackShape(parts: seq<string>)
    ensures DropBlankBack(parts) <= parts
    ensures forall i :: |DropBlankBack(parts)| <= i < |parts| ==> parts[i] == ""
    ensures DropBlankBack(parts) == [""] ==> false
  {
    if parts != [] && parts[|parts| - 1] == "" {
      DropBlankBackShape(parts[..|parts| - 1]);
    }
  }

  lemma {:induction false} DropBlankFrontShape(parts: seq<string>)
    ensures var k := |parts| - |DropBlankFront(parts)|;
            0 <= k && DropBlankFront(parts) == parts[k..] && forall i :: 0 <= i < k ==> parts[i] == ""
    ensures DropBlankFront(parts) != [] ==> DropBlankFront(parts)[0] != ""
  {
    if parts != [] && parts[0] == "" {
      DropBlankFrontShape(parts[1..]);
    }
  }

  // Two keys are equal exactly when the parts agree once blank parts in front and behind are dropped.
  lemma SameKeyExactly(p: seq<string>, q: seq<string>)
    requires Without(p, '|') && Without(q, '|')
    ensures KeyOfParts(p) == KeyOfParts(q) <==> Core(p) == Core(q)
  {
    KeyIsCore(p);
    KeyIsCore(q);
    if KeyOfParts(p) == KeyOfParts(q) {
      var a, b := Core(p), Core(q);
      if a != [] && b != [] {
        SplitOfJoin(a, '|');
        SplitOfJoin(b, '|');
      }
    }
  }

  lemma KeyIsCore(p: seq<string>)
    requires Without(p, '|')
    ensures KeyOfParts(p) == Join(Core(p), '|') && Without(Core(p), '|')
    ensures Core(p) != [] ==> Join(Core(p), '|') != ""
  {
    DropBlankFrontShape(p);
    DropBlankBackShape(DropBlankFront(p));
    TrimLeftOfJoin(p);
    TrimRightOfJoin(DropBlankFront(p));
  }

  // For a repository whose normal form is not blank the key determines all five normalized parts.
  lemma KeyInjective(repo: string, tf: Trigger, repo': string, tf': Trigger)
    requires Normalize(repo) != "" && Normalize(repo') != ""
    ensures Key(repo, tf) == Key(repo', tf') <==> Parts(repo, tf) == Parts(repo', tf')
  {
    var p, q := Parts(repo, tf), Parts(repo', tf');
    PartsHaveNoBar(repo, tf);
    PartsHaveNoBar(repo', tf');
    SameKeyExactly(p, q);
    DropBlankBackShape(p);
    DropBlankBackShape(q);
    if Core(p) == Core(q) {
      forall i | 0 <= i < 5 ensures p[i] == q[i] {
      }
    }
  }

  lemma {:induction false} BlanksBehind(n: string, blanks: seq<string>)
    requires n != "" && forall i :: 0 <= i < |blanks| ==> blanks[i] == ""
    ensures DropBlankBack([n] + blanks) == [n]
    decreases |blanks|
  {
    var ps := [n] + blanks;
    if blanks != [] {
      assert ps[..|ps| - 1] == [n] + blanks[..|blanks| - 1];
      BlanksBehind(n, blanks[..|blanks| - 1]);
    }
  }

  // Without that condition the service of one incident can stand for the repository of another.
  lemma BlankRepoCollides(service: string)
    requires Normalize(service) != ""
    ensures var tf, tf' := Trigger(service, "", "", ""), Trigger("", "", "", "");
            Key("/", tf) == Key(service, tf') && Parts("/", tf) != Parts(service, tf')
  {
    var n := Normalize(service);
    assert Normalize("") == "" && Normalize("/") == "" by {
      assert ToLower("") == "" && ToLower("/") == "/";
      NormalizeJoinsWords("/");
    }
    var p, q := Parts("/", Trigger(service, "", "", "")), Parts(service, Trigger("", "", "", ""));
    assert p == ["", n, "", "", ""] && q == [n, "", "", "", ""];
    PartsHaveNoBar("/", Trigger(service, "", "", ""));
    PartsHaveNoBar(service, Trigger("", "", "", ""));
    assert DropBlankFront(p) == p[1..] == [n] + ["", "", ""] && DropBlankFront(q) == q == [n] + ["", "", "", ""];
    BlanksBehind(n, ["", "", ""]);
    BlanksBehind(n, ["", "", "", ""]);
    SameKeyExactly(p, q);
  }
}
