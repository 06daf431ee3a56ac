/** goldenreplay/normalize.go: canonical JSON text and order-independent response comparison. */
module CanonicalJson {
  import opened Ordering
  import opened Json
  import opened JsonRoundTrip

  lemma {:induction false} SameSetSameMultiset(s: seq<Member>, t: seq<Member>)
    requires DistinctKeys(s) && DistinctKeys(t) && forall m :: m in s <==> m in t
    ensures multiset(s) == multiset(t)
  {
    forall m ensures multiset(s)[m] == multiset(t)[m] {
      if m in s {
        var i :| 0 <= i < |s| && s[i] == m;
        var j :| 0 <= j < |t| && t[j] == m;
        DistinctOnce(s, i);
        DistinctOnce(t, j);
      } else {
        assert m !in multiset(s) && m !in multiset(t);
      }
    }
  }

  lemma SortedMember(ms: seq<Member>, m: Member)
    requires m in ms
    ensures Member(m.key, Sort(m.value)) in SortValues(ms)
  {
  }

  lemma MemberSorted(ms: seq<Member>, s: Member) returns (m: Member)
    requires s in SortValues(ms)
    ensures m in ms && s == Member(m.key, Sort(m.value))
  {
    var i :| 0 <= i < |ms| && SortValues(ms)[i] == s;
    m := ms[i];
  }

  lemma {:induction false} SortedMeansSame(v: Value, w: Value)
    requires WellFormed(v) && WellFormed(w) && Sort(v) == Sort(w)
    ensures Same(v, w)
    decreases v
  {
    match v
    case Arr(items) =>
      forall i | 0 <= i < |items| ensures Same(items[i], w.items[i]) {
        assert Sort(items[i]) == Sort(v).items[i] == Sort(w).items[i] == Sort(w.items[i]);
        SortedMeansSame(items[i], w.items[i]);
      }
    case Obj(ms) =>
      SortObj(ms);
      SortObj(w.members);
      SortKeepsElements(SortValues(ms), BY_KEY);
      SortKeepsElements(SortValues(w.members), BY_KEY);
      forall m | m in ms
        ensures exists n :: n in w.members && n.key == m.key && Same(m.value, n.value)
      {
        SortedMember(ms, m);
        var n := MemberSorted(w.members, Member(m.key, Sort(m.value)));
        SortedMeansSame(m.value, n.value);
      }
      forall n | n in w.members
        ensures exists m :: m in ms && m.key == n.key
      {
        SortedMember(w.members, n);
        var m := MemberSorted(ms, Member(n.key, Sort(n.value)));
      }
    case _ =>
  }

  lemma SameItemsSort(items: seq<Value>, others: seq<Value>)
    requires |items| == |others| && forall i :: 0 <= i < |items| ==> Sort(items[i]) == Sort(others[i])
    ensures Sort(Arr(items)) == Sort(Arr(others))
  {
  }

  lemma {:induction false} SameMeansSorted(v: Value, w: Value)
    requires WellFormed(v) && WellFormed(w) && Same(v, w)
    ensures Sort(v) == Sort(w)
    decreases v
  {
    hide Sort, Number, DistinctKeys, Same, KeysWithin;
    match v
    case Arr(items) =>
      SameShape(v, w);
      forall i | 0 <= i < |items| ensures Sort(items[i]) == Sort(w.items[i]) {
        SameItem(items, w, i);
        SameMeansSorted(items[i], w.items[i]);
      }
      SameItemsSort(items, w.items);
    case Obj(ms) =>
      SameShape(v, w);
      forall m | m in ms
        ensures exists n :: n in w.members && n.key == m.key && Sort(m.value) == Sort(n.value)
      {
        var n := SameMember(ms, w, m);
        SameMeansSorted(m.value, n.value);
      }
      SameKeys(ms, w);
      SameMembersSort(ms, w.members);
    case _ => SameShape(v, w);
  }

  lemma SameShape(v: Value, w: Value)
    requires Same(v, w)
    ensures match v { case Arr(items) => w == Arr(w.items) && |w.items| == |items| case Obj(ms) => w == Obj(w.members) case _ => v == w }
  {
  }

  lemma SameItem(items: seq<Value>, w: Value, i: nat)
    requires Same(Arr(items), w) && i < |items|
    ensures items[i] in items && w.items[i] in w.items && Same(items[i], w.items[i])
  {
  }

  lemma SameMember(ms: seq<Member>, w: Value, m: Member) returns (n: Member)
    requires Same(Obj(ms), w) && m in ms
    ensures n in w.members && n.key == m.key && Same(m.value, n.value)
  {
    n :| n in w.members && n.key == m.key && Same(m.value, n.value);
  }

  lemma SameKeys(ms: seq<Member>, w: Value)
    requires Same(Obj(ms), w)
    ensures w.Obj? && KeysWithin(w.members, ms)
  {
  }

  lemma SameMembersSort(ms: seq<Member>, ns: seq<Member>)
    requires DistinctKeys(ms) && DistinctKeys(ns)
    requires forall m :: m in ms ==> exists n :: n in ns && n.key == m.key && Sort(m.value) == Sort(n.value)
    requires KeysWithin(ns, ms)
    ensures Sort(Obj(ms)) == Sort(Obj(ns))
  {
    var s, t := SortValues(ms), SortValues(ns);
    forall x | x in s ensures x in t {
      var m := MemberSorted(ms, x);
      var n :| n in ns && n.key == m.key && Sort(m.value) == Sort(n.value);
      SortedMember(ns, n);
    }
    forall x | x in t ensures x in s {
      var n := MemberSorted(ns, x);
      var m :| m in ms && m.key == n.key;
      var k :| k in ns && k.key == m.key && Sort(m.value) == Sort(k.value);
      assert k == n;
      SortedMember(ms, m);
    }
    SameSetSameMultiset(s, t);
    SortedMembers(s);
    SortedMembers(t);
    SortObj(ms);
    SortObj(ns);
    SortedUniqueByKey(InsertionSort(s, BY_KEY), InsertionSort(t, BY_KEY));
  }

  lemma SortedUniqueByKey(s: seq<Member>, t: seq<Member>)
    requires DistinctKeys(s) && Sorted(s, BY_KEY) && Sorted(t, BY_KEY) && multiset(s) == multiset(t)
    ensures s == t
  {
    KeyOrder();
    forall x, y | x in s && y in s && !BY_KEY(x, y) && !BY_KEY(y, x) ensures x == y {
      var i :| 0 <= i < |s| && s[i] == x;
      var j :| 0 <= j < |s| && s[j] == y;
    }
    SortedUnique(s, t, BY_KEY);
  }

  // The canonical text does not depend on member order, and equal texts mean the same value.
  lemma CanonicalExactly(v: Value, w: Value, style: Style)
    requires WellFormed(v) && WellFormed(w)
    ensures Encode(v, style) == Encode(w, style) <==> Same(v, w)
  {
    EncodeReads(v, style);
    EncodeReads(w, style);
    if Encode(v, style) == Encode(w, style) {
      SortedMeansSame(v, w);
    }
    if Same(v, w) {
      SameMeansSorted(v, w);
    }
  }

  // ----- canonicalJSON as it is written: keys collected, sorted and looked up again -----

  function KeysOf(ms: seq<Member>): (ks: seq<string>)
    ensures |ks| == |ms|
  {
    seq(|ms|, i requires 0 <= i < |ms| => ms[i].key)
  }

  function Lookup(ms: seq<Member>, k: string): (v: Value)
    requires exists m :: m in ms && m.key == k
    ensures Member(k, v) in ms
  {
    if ms[0].key == k then ms[0].value else Lookup(ms[1..], k)
  }

  lemma {:induction false} InsertKeys(s: seq<Member>, x: Member)
    ensures KeysOf(Insert(s, x, BY_KEY)) == Insert(KeysOf(s), x.key, Less)
    decreases s
  {
    if s != [] && BY_KEY(x, s[|s| - 1]) {
      InsertKeys(s[..|s| - 1], x);
      assert KeysOf(s)[..|s| - 1] == KeysOf(s[..|s| - 1]);
    }
  }

  lemma {:induction false} SortKeys(s: seq<Member>)
    ensures KeysOf(InsertionSort(s, BY_KEY)) == InsertionSort(KeysOf(s), Less)
    decreases s
  {
    if s != [] {
      SortKeys(s[..|s| - 1]);
      InsertKeys(InsertionSort(s[..|s| - 1], BY_KEY), s[|s| - 1]);
      assert KeysOf(s)[..|s| - 1] == KeysOf(s[..|s| - 1]);
    }
  }

  // The i-th sorted member is the i-th sorted key with the sorted value found under it.
  lemma SortedMemberAt(ms: seq<Member>, i: nat)
    requires DistinctKeys(ms) && i < |ms|
    ensures var ks := InsertionSort(KeysOf(ms), Less);
            var r := InsertionSort(SortValues(ms), BY_KEY);
            && |ks| == |r| == |ms|
            && (exists m :: m in ms && m.key == ks[i])
            && r[i] == Member(ks[i], Sort(Lookup(ms, ks[i])))
  {
    hide Sort, InsertionSort, Less;
    var r := InsertionSort(SortValues(ms), BY_KEY);
    SortKeys(SortValues(ms));
    assert KeysOf(SortValues(ms)) == KeysOf(ms);
    SortKeepsElements(SortValues(ms), BY_KEY);
    assert KeysOf(r)[i] == r[i].key && r[i] in r;
    var m := MemberSorted(ms, r[i]);
    assert Member(m.key, Lookup(ms, m.key)) == m;
  }

  lemma {:induction false} PrintMembersSnoc(ms: seq<Member>, m: Member, style: Style)
    ensures PrintMembers(ms + [m], style) ==
      if ms == [] then PrintMember(m, style) else PrintMembers(ms, style) + "," + PrintMember(m, style)
  {
    hide PrintMember;
    if |ms| == 1 {
      assert (ms + [m])[1..] == [m];
    } else if ms != [] {
      PrintMembersSnoc(ms[1..], m, style);
      assert (ms + [m])[1..] == ms[1..] + [m];
    }
  }

  lemma {:induction false} PrintItemsSnoc(vs: seq<Value>, v: Value, style: Style)
    ensures PrintItems(vs + [v], style) ==
      if vs == [] then Print(v, style) else PrintItems(vs, style) + "," + Print(v, style)
  {
    hide Print;
    if |vs| == 1 {
      assert (vs + [v])[1..] == [v];
    } else if vs != [] {
      PrintItemsSnoc(vs[1..], v, style);
      assert (vs + [v])[1..] == vs[1..] + [v];
    }
  }

  method CanonicalText(v: Value) returns (text: string)
    requires WellFormed(v)
    ensures text == Encode(v, Html)
    decreases v, 1
  {
    match v
    case Arr(items) => text := ArrayText(items);
    case Obj(ms) => text := ObjectText(ms);
    case _ => text := Print(v, Html);
  }

  method ArrayText(items: seq<Value>) returns (text: string)
    requires forall v :: v in items ==> WellFormed(v)
    ensures text == Encode(Arr(items), Html)
    decreases items, 0
  {
    ghost var sorted := Sort(Arr(items)).items;
    assert forall v :: v in items ==> WellFormed(v);
    assert PrintItems([], Html) == "" && |sorted| == |items|;
    hide *;
    text := "[";
    for i := 0 to |items|
      invariant text == "[" + PrintItems(sorted[..i], Html)
    {
      var comma := if i > 0 then "," else "";
      var part := CanonicalText(items[i]);
      NextItem(items, i);
      ThreeParts("[", PrintItems(sorted[..i], Html), comma, part);
      text := text + comma;
      text := text + part;
    }
    assert sorted[..|items|] == sorted;
    text := text + "]";
    ArrPrints(items, sorted);
  }

  lemma NextItem(items: seq<Value>, i: nat)
    requires i < |items|
    ensures var sorted := Sort(Arr(items)).items;
            |sorted| == |items| && PrintItems(sorted[..i + 1], Html) ==
            PrintItems(sorted[..i], Html) + (if i > 0 then "," else "") + Encode(items[i], Html)
  {
    hide Print;
    var sorted := Sort(Arr(items)).items;
    assert sorted[..i + 1] == sorted[..i] + [sorted[i]];
    PrintItemsSnoc(sorted[..i], sorted[i], Html);
    assert i == 0 ==> sorted[..i] == [];
  }

  lemma ArrPrints(items: seq<Value>, sorted: seq<Value>)
    requires Sort(Arr(items)) == Arr(sorted)
    ensures Encode(Arr(items), Html) == "[" + PrintItems(sorted, Html) + "]"
  {
  }

  lemma ObjPrints(ms: seq<Member>, sorted: seq<Member>)
    requires Sort(Obj(ms)) == Obj(sorted)
    ensures Encode(Obj(ms), Html) == "{" + PrintMembers(sorted, Html) + "}"
  {
  }

  lemma MemberText(k: string, v: Value)
    ensures PrintMember(Member(k, Sort(v)), Html) == Quote(k, Html) + ":" + Encode(v, Html)
  {
  }

  lemma NoMembersPrint()
    ensures PrintMembers([], Html) == ""
  {
  }

  lemma NextMember(ms: seq<Member>, i: nat, part: string)
    requires DistinctKeys(ms) && i < |ms|
    ensures var keys, sorted := InsertionSort(KeysOf(ms), Less), InsertionSort(SortValues(ms), BY_KEY);
            && |keys| == |sorted| == |ms| && (exists m :: m in ms && m.key == keys[i]) && Member(keys[i], Lookup(ms, keys[i])) in ms
            && (part == Encode(Lookup(ms, keys[i]), Html) ==>
              PrintMembers(sorted[..i + 1], Html) ==
              PrintMembers(sorted[..i], Html) + (if i > 0 then "," else "") + (Quote(keys[i], Html) + ":" + part))
  {
    hide *;
    SortedMemberAt(ms, i);
    var keys, sorted := InsertionSort(KeysOf(ms), Less), InsertionSort(SortValues(ms), BY_KEY);
    var m := sorted[i];
    MemberText(keys[i], Lookup(ms, keys[i]));
    PrefixPrints(sorted, i, Html);
  }

  lemma PrefixPrints(ms: seq<Member>, i: nat, style: Style)
    requires i < |ms|
    ensures PrintMembers(ms[..i + 1], style) == PrintMembers(ms[..i], style) + (if i > 0 then "," else "") + PrintMember(ms[i], style)
  {
    hide PrintMember;
    PrintMembersSnoc(ms[..i], ms[i], style);
    hide PrintMembers;
    assert ms[..i + 1] == ms[..i] + [ms[i]];
    if i == 0 {
      NoMembersPrint();
      assert ms[..0] == [];
    }
  }

  method ObjectText(ms: seq<Member>) returns (text: string)
    requires DistinctKeys(ms) && forall m :: m in ms ==> WellFormed(m.value)
    ensures text == Encode(Obj(ms), Html)
    decreases ms, 0
  {
    NoMembersPrint();
    assert |KeysOf(ms)| == |ms|;
    hide *;
    var keys := InsertionSort(KeysOf(ms), Less);
    ghost var sorted := InsertionSort(SortValues(ms), BY_KEY);
    text := "{";
    for i := 0 to |keys|
      invariant |keys| == |sorted| && text == "{" + PrintMembers(sorted[..i], Html)
    {
      NextMember(ms, i, "");
      var comma := if i > 0 then "," else "";
      var value := Lookup(ms, keys[i]);
      assert Member(keys[i], value) in ms;
      var part := CanonicalText(value);
      NextMember(ms, i, part);
      var entry := Quote(keys[i], Html) + ":" + part;
      ThreeParts("{", PrintMembers(sorted[..i], Html), comma, entry);
      text := text + comma;
      text := text + entry;
    }
    assert sorted[..|keys|] == sorted;
    text := text + "}";
    SortObj(ms);
    ObjPrints(ms, sorted);
  }

  lemma ThreeParts(a: string, b: string, c: string, d: string)
    ensures a + (b + c + d) == a + b + c + d
  {
  }
}
