/** Sanitising a proposed browser action, before it is sealed in a token and again when it is executed
    (ai_action_execute.go, buildClientAction and sanitizeActionValue). */
module ClientAction {
  import opened ActionText
  import opened CanonicalJson
  import opened Encoding
  import opened Json
  import opened JsonRoundTrip
  import opened Options
  import opened Text

  const MAX_DEPTH := 3
  const MAX_MEMBERS := 50
  const MAX_ITEMS := 100

  function Sanitize(v: Value, depth: nat): Value
    decreases v, 1
  {
    if depth > MAX_DEPTH then Null
    else match v
      case Str(s) => Str(SanitizeText(s))
      case Arr(items) => Arr(SanitizeItems(items, depth))
      case Obj(ms) => Obj(SanitizeMembers(ms, depth))
      case _ => v
  }

  function SanitizeItems(items: seq<Value>, depth: nat): (r: seq<Value>)
    ensures |r| <= MAX_ITEMS && |r| <= |items|
    decreases items, 0
  {
    if items == [] then []
    else
      var out := SanitizeItems(items[..|items| - 1], depth);
      if |out| >= MAX_ITEMS then out else out + [Sanitize(items[|items| - 1], depth + 1)]
  }

  function SanitizeMembers(ms: seq<Member>, depth: nat): (r: seq<Member>)
    ensures |r| <= MAX_MEMBERS && |r| <= |ms|
    decreases ms, 0
  {
    if ms == [] then []
    else
      var out := SanitizeMembers(ms[..|ms| - 1], depth);
      var m := ms[|ms| - 1];
      var k := TrimSpace(m.key);
      SetGrows(out, Member(k, Sanitize(m.value, depth + 1)));
      if |out| >= MAX_MEMBERS || k == "" then out else Set(out, Member(k, Sanitize(m.value, depth + 1)))
  }

  lemma {:induction false} SetGrows(ms: seq<Member>, m: Member)
    ensures |ms| <= |Set(ms, m)| <= |ms| + 1
  {
    if ms != [] && ms[0].key != m.key {
      SetGrows(ms[1..], m);
    }
  }

  method SanitizeValue(v: Value, depth: nat) returns (r: Value)
    ensures r == Sanitize(v, depth)
    decreases v, 1
  {
    hide SanitizeMembers, SanitizeItems, FromUtf8, Utf8, TrimSpace;
    if depth > MAX_DEPTH {
      return Null;
    }
    match v {
      case Str(s) =>
        var b := Utf8(TrimSpace(s));
        if |b| > MAX_BYTES {
          b := b[..MAX_BYTES];
        }
        r := Str(FromUtf8(b));
      case Obj(ms) =>
        var out := SanitizeObject(ms, depth);
        r := Obj(out);
      case Arr(items) =>
        var out := SanitizeList(items, depth);
        r := Arr(out);
      case _ =>
        r := v;
    }
  }

  method SanitizeObject(ms: seq<Member>, depth: nat) returns (out: seq<Member>)
    ensures out == SanitizeMembers(ms, depth)
    decreases ms, 0
  {
    hide Sanitize, Set, TrimSpace;
    out := [];
    var i := 0;
    while i < |ms| && |out| < MAX_MEMBERS
      invariant 0 <= i <= |ms|
      invariant out == SanitizeMembers(ms[..i], depth)
    {
      assert ms[..i + 1][..i] == ms[..i];
      var m := ms[i];
      var key := TrimSpace(m.key);
      if key != "" {
        var value := SanitizeValue(m.value, depth + 1);
        out := Set(out, Member(key, value));
      }
      i := i + 1;
    }
    MembersStop(ms, i, depth);
  }

  method SanitizeList(items: seq<Value>, depth: nat) returns (out: seq<Value>)
    ensures out == SanitizeItems(items, depth)
    decreases items, 0
  {
    hide Sanitize;
    out := [];
    var i := 0;
    while i < |items| && |out| < MAX_ITEMS
      invariant 0 <= i <= |items|
      invariant out == SanitizeItems(items[..i], depth)
    {
      assert items[..i + 1][..i] == items[..i];
      var it := items[i];
      var item := SanitizeValue(it, depth + 1);
      out := out + [item];
      i := i + 1;
    }
    ItemsStop(items, i, depth);
  }

  lemma {:induction false} MembersStop(ms: seq<Member>, i: nat, depth: nat)
    requires i <= |ms| && (i == |ms| || |SanitizeMembers(ms[..i], depth)| >= MAX_MEMBERS)
    ensures SanitizeMembers(ms, depth) == SanitizeMembers(ms[..i], depth)
    decreases |ms|
  {
    if i < |ms| {
      assert ms[..|ms| - 1][..i] == ms[..i];
      MembersStop(ms[..|ms| - 1], i, depth);
    } else {
      assert ms[..i] == ms;
    }
  }

  lemma {:induction false} ItemsStop(items: seq<Value>, i: nat, depth: nat)
    requires i <= |items| && (i == |items| || |SanitizeItems(items[..i], depth)| >= MAX_ITEMS)
    ensures SanitizeItems(items, depth) == SanitizeItems(items[..i], depth)
    decreases |items|
  {
    if i < |items| {
      assert items[..|items| - 1][..i] == items[..i];
      ItemsStop(items[..|items| - 1], i, depth);
    } else {
      assert items[..i] == items;
    }
  }

  // ----- what sanitising establishes, and when it changes nothing -----

  predicate GoodKeys(ms: seq<Member>) {
    DistinctKeys(ms) && forall m :: m in ms ==> m.key != "" && Trimmed(m.key)
  }

  // The limits on depth, sizes and keys.
  predicate Shaped(v: Value, depth: nat) {
    if depth > MAX_DEPTH then v == Null
    else match v
      case Arr(items) => |items| <= MAX_ITEMS && forall v :: v in items ==> Shaped(v, depth + 1)
      case Obj(ms) => |ms| <= MAX_MEMBERS && GoodKeys(ms) && forall m :: m in ms ==> Shaped(m.value, depth + 1)
      case _ => true
  }

  // Sanitising keeps every text in the value.
  predicate Clean(v: Value) {
    match v
    case Str(s) => CleanText(s)
    case Arr(items) => forall v :: v in items ==> Clean(v)
    case Obj(ms) => forall m :: m in ms ==> Clean(m.value)
    case _ => true
  }

  lemma {:induction false} SetMembers(ms: seq<Member>, m: Member)
    requires GoodKeys(ms) && m.key != "" && Trimmed(m.key)
    ensures GoodKeys(Set(ms, m))
    ensures forall n :: n in Set(ms, m) ==> n == m || n in ms
  {
    if ms != [] && ms[0].key != m.key {
      SetMembers(ms[1..], m);
      var r := Set(ms, m);
      assert r == [ms[0]] + Set(ms[1..], m);
      forall j | 0 < j < |r| ensures r[j].key != ms[0].key {
        assert r[j] in Set(ms[1..], m);
        if r[j] != m {
          assert r[j] in ms[1..];
        }
      }
    } else if ms != [] {
      assert Set(ms, m) == [m] + ms[1..];
    }
  }

  // Sanitising always brings a value within the limits.
  lemma {:induction false} SanitizeShapes(v: Value, depth: nat)
    ensures Shaped(Sanitize(v, depth), depth)
    decreases v, 1
  {
    match v
    case Arr(items) => ItemsShaped(items, depth);
    case Obj(ms) => MembersShaped(ms, depth);
    case _ =>
  }

  lemma {:induction false} ItemsShaped(items: seq<Value>, depth: nat)
    ensures forall v :: v in SanitizeItems(items, depth) ==> Shaped(v, depth + 1)
    decreases items, 0
  {
    if items != [] {
      ItemsShaped(items[..|items| - 1], depth);
      SanitizeShapes(items[|items| - 1], depth + 1);
    }
  }

  lemma {:induction false} MembersShaped(ms: seq<Member>, depth: nat)
    ensures GoodKeys(SanitizeMembers(ms, depth))
    ensures forall m :: m in SanitizeMembers(ms, depth) ==> Shaped(m.value, depth + 1)
    decreases ms, 0
  {
    if ms != [] {
      var out := SanitizeMembers(ms[..|ms| - 1], depth);
      var m := ms[|ms| - 1];
      MembersShaped(ms[..|ms| - 1], depth);
      SanitizeShapes(m.value, depth + 1);
      TrimSpaceSpec(m.key);
      if TrimSpace(m.key) != "" {
        SetMembers(out, Member(TrimSpace(m.key), Sanitize(m.value, depth + 1)));
      }
    }
  }

  // A value within the limits keeps its items, its members and their order; only texts may change.
  lemma {:induction false} ShapedItems(items: seq<Value>, depth: nat)
    requires |items| <= MAX_ITEMS
    ensures |SanitizeItems(items, depth)| == |items|
    ensures forall i :: 0 <= i < |items| ==> SanitizeItems(items, depth)[i] == Sanitize(items[i], depth + 1)
    decreases |items|
  {
    if items != [] {
      ShapedItems(items[..|items| - 1], depth);
    }
  }

  lemma MemberKept(front: seq<Member>, m: Member, depth: nat)
    requires var out := SanitizeMembers(front, depth);
             |out| < MAX_MEMBERS && forall i :: 0 <= i < |out| ==> out[i].key != m.key
    requires m.key != "" && Trimmed(m.key)
    ensures SanitizeMembers(front + [m], depth) == SanitizeMembers(front, depth) + [Member(m.key, Sanitize(m.value, depth + 1))]
  {
    TrimSpaceSpec(m.key);
    assert (front + [m])[..|front|] == front;
    hide Sanitize, Trimmed, TrimSpace, Set;
    SetNew(SanitizeMembers(front, depth), Member(m.key, Sanitize(m.value, depth + 1)));
  }

  lemma GoodFront(ms: seq<Member>, n: nat)
    requires n < |ms| && GoodKeys(ms)
    ensures GoodKeys(ms[..n]) && ms[n].key != "" && Trimmed(ms[n].key) && forall i :: 0 <= i < n ==> ms[i].key != ms[n].key
  {
    hide Trimmed;
    assert ms[n] in ms;
  }

  lemma {:induction false} ShapedMembers(ms: seq<Member>, depth: nat)
    requires |ms| <= MAX_MEMBERS && GoodKeys(ms)
    ensures |SanitizeMembers(ms, depth)| == |ms|
    ensures forall i :: 0 <= i < |ms| ==> SanitizeMembers(ms, depth)[i] == Member(ms[i].key, Sanitize(ms[i].value, depth + 1))
    decreases |ms|
  {
    if ms == [] {
    } else {
      hide *;
      var n := |ms| - 1;
      GoodFront(ms, n);
      ShapedMembers(ms[..n], depth);
      assert ms == ms[..n] + [ms[n]];
      MemberKept(ms[..n], ms[n], depth);
    }
  }

  // Within the limits, sanitising gives back the same value exactly when every text is clean.
  lemma ItemsFixed(items: seq<Value>, depth: nat)
    requires |items| <= MAX_ITEMS && forall w :: w in items ==> Sanitize(w, depth + 1) == w
    ensures SanitizeItems(items, depth) == items
  {
    hide Sanitize;
    ShapedItems(items, depth);
    assert forall i :: 0 <= i < |items| ==> items[i] in items;
  }

  lemma MembersFixed(ms: seq<Member>, depth: nat)
    requires |ms| <= MAX_MEMBERS && GoodKeys(ms) && forall m :: m in ms ==> Sanitize(m.value, depth + 1) == m.value
    ensures SanitizeMembers(ms, depth) == ms
  {
    hide Sanitize, GoodKeys;
    ShapedMembers(ms, depth);
    assert forall i :: 0 <= i < |ms| ==> ms[i] in ms;
  }

  lemma {:induction false} SanitizeFixes(v: Value, depth: nat)
    requires Shaped(v, depth) && Clean(v)
    ensures Sanitize(v, depth) == v
    decreases v
  {
    if depth <= MAX_DEPTH {
      match v
      case Str(s) => TextFixed(s);
      case Arr(items) =>
        forall w | w in items ensures Sanitize(w, depth + 1) == w { SanitizeFixes(w, depth + 1); }
        ItemsFixed(items, depth);
      case Obj(ms) =>
        forall m | m in ms ensures Sanitize(m.value, depth + 1) == m.value { SanitizeFixes(m.value, depth + 1); }
        MembersFixed(ms, depth);
      case _ =>
    }
  }

  lemma {:induction false} FixedIsClean(v: Value, depth: nat)
    requires WellFormed(v) && Shaped(v, depth) && Same(Sanitize(v, depth), v)
    ensures Clean(v)
    decreases v
  {
    match v
    case Str(s) => TextFixed(s);
    case Arr(items) =>
      if depth <= MAX_DEPTH {
        ItemsSame(items, depth);
        forall w | w in items ensures Clean(w) { FixedIsClean(w, depth + 1); }
      }
    case Obj(ms) =>
      if depth <= MAX_DEPTH {
        MembersSame(ms, depth);
        forall m | m in ms ensures Clean(m.value) { FixedIsClean(m.value, depth + 1); }
      }
    case _ =>
  }

  lemma ItemsSame(items: seq<Value>, depth: nat)
    requires |items| <= MAX_ITEMS && Same(Arr(SanitizeItems(items, depth)), Arr(items))
    ensures forall w :: w in items ==> Same(Sanitize(w, depth + 1), w)
  {
    ShapedItems(items, depth);
    var out := SanitizeItems(items, depth);
    assert forall i :: 0 <= i < |items| ==> Same(out[i], items[i]);
  }

  lemma MembersSame(ms: seq<Member>, depth: nat)
    requires |ms| <= MAX_MEMBERS && GoodKeys(ms) && Same(Obj(SanitizeMembers(ms, depth)), Obj(ms))
    ensures forall m :: m in ms ==> Same(Sanitize(m.value, depth + 1), m.value)
  {
    ShapedMembers(ms, depth);
    assert DistinctKeys(ms);
    hide *;
    var out := SanitizeMembers(ms, depth);
    forall m | m in ms ensures Same(Sanitize(m.value, depth + 1), m.value) {
      var i :| 0 <= i < |ms| && ms[i] == m;
      assert out[i] in out;
      var n := SameMember(out, Obj(ms), out[i]);
      KeyTells(ms, n, m);
    }
  }

  lemma KeyTells(ms: seq<Member>, n: Member, m: Member)
    requires DistinctKeys(ms) && n in ms && m in ms && n.key == m.key
    ensures n == m
  {
  }

  // ----- building an action -----

  function Collect(start: seq<Member>, ms: seq<Member>): seq<Member> {
    if ms == [] then start
    else
      var out := Collect(start, ms[..|ms| - 1]);
      var m := ms[|ms| - 1];
      var k := TrimSpace(m.key);
      if k == "" then out else Set(out, Member(k, Sanitize(m.value, 0)))
  }

  // The type comes first; a payload member named type takes its place.
  function Build(actionType: string, payload: Option<seq<Member>>): Option<seq<Member>> {
    if actionType == "" || payload.None? then None
    else Some(Collect([Member("type", Str(actionType))], payload.value))
  }

  method BuildClientAction(actionType: string, payload: Option<seq<Member>>) returns (action: Option<seq<Member>>)
    ensures action == Build(actionType, payload)
  {
    hide Sanitize, Set, TrimSpace;
    if actionType == "" || payload.None? {
      return None;
    }
    var ms, out := payload.value, [Member("type", Str(actionType))];
    for i := 0 to |ms|
      invariant out == Collect([Member("type", Str(actionType))], ms[..i])
    {
      assert ms[..i + 1][..i] == ms[..i];
      var key := TrimSpace(ms[i].key);
      if key != "" {
        var value := SanitizeValue(ms[i].value, 0);
        out := Set(out, Member(key, value));
      }
    }
    assert ms[..|ms|] == ms;
    action := Some(out);
  }

  // ----- which texts of a value must settle -----

  // The members that the member loop keeps, their values as they were: fifty at most, trimmed keys, a later
  // duplicate in the place of the first.
  function Survivors(ms: seq<Member>): (r: seq<Member>)
    ensures |r| <= MAX_MEMBERS
    ensures forall m :: m in r ==> exists n :: n in ms && n.value == m.value
  {
    if ms == [] then []
    else
      var out := Survivors(ms[..|ms| - 1]);
      var m := ms[|ms| - 1];
      var k := TrimSpace(m.key);
      SetGrows(out, Member(k, m.value));
      SetElements(out, Member(k, m.value));
      if |out| >= MAX_MEMBERS || k == "" then out else Set(out, Member(k, m.value))
  }

  // Every text that sanitising keeps is one that it brings to rest.
  predicate Settled(v: Value, depth: nat)
    decreases v
  {
    depth > MAX_DEPTH ||
    match v
    case Str(s) => Settles(TrimSpace(s))
    case Arr(items) => forall i :: 0 <= i < |items| && i < MAX_ITEMS ==> Settled(items[i], depth + 1)
    case Obj(ms) => forall m :: m in Survivors(ms) ==> (SurvivorSmaller(ms, m); Settled(m.value, depth + 1))
    case _ => true
  }

  lemma SurvivorSmaller(ms: seq<Member>, m: Member)
    requires m in Survivors(ms)
    ensures m.value < Obj(ms)
  {
    var n :| n in ms && n.value == m.value;
  }

  lemma {:induction false} KeptItems(items: seq<Value>, depth: nat)
    ensures var out := SanitizeItems(items, depth);
            && |out| == (if |items| < MAX_ITEMS then |items| else MAX_ITEMS)
            && forall i :: 0 <= i < |out| ==> out[i] == Sanitize(items[i], depth + 1)
    decreases |items|
  {
    hide Sanitize;
    if items != [] {
      KeptItems(items[..|items| - 1], depth);
    }
  }

  ghost predicate Aligned(out: seq<Member>, ms: seq<Member>, depth: nat) {
    |out| == |ms| && forall i :: 0 <= i < |ms| ==> out[i] == Member(ms[i].key, Sanitize(ms[i].value, depth))
  }

  lemma {:induction false} SetAligned(out: seq<Member>, ms: seq<Member>, m: Member, depth: nat)
    requires Aligned(out, ms, depth)
    ensures Aligned(Set(out, Member(m.key, Sanitize(m.value, depth))), Set(ms, m), depth)
    decreases |ms|
  {
    hide Sanitize;
    if ms != [] && ms[0].key != m.key {
      SetAligned(out[1..], ms[1..], m, depth);
    }
  }

  lemma {:induction false} KeptMembers(ms: seq<Member>, depth: nat)
    ensures Aligned(SanitizeMembers(ms, depth), Survivors(ms), depth + 1)
    decreases |ms|
  {
    hide Sanitize, Set, TrimSpace;
    if ms != [] {
      var front, last := ms[..|ms| - 1], ms[|ms| - 1];
      KeptMembers(front, depth);
      SetAligned(SanitizeMembers(front, depth), Survivors(front), Member(TrimSpace(last.key), last.value), depth + 1);
    }
  }

  // A sanitised value has clean texts exactly when those texts settle.
  lemma {:induction false} SettledExactly(v: Value, depth: nat)
    ensures Clean(Sanitize(v, depth)) <==> Settled(v, depth)
    decreases v
  {
    if depth <= MAX_DEPTH {
      match v
      case Str(s) => SettlesExactly(s);
      case Arr(items) =>
        KeptItems(items, depth);
        forall i | 0 <= i < |items| ensures Clean(Sanitize(items[i], depth + 1)) <==> Settled(items[i], depth + 1) {
          SettledExactly(items[i], depth + 1);
        }
        ItemsCleanExactly(SanitizeItems(items, depth));
      case Obj(ms) =>
        KeptMembers(ms, depth);
        forall m | m in Survivors(ms) ensures Clean(Sanitize(m.value, depth + 1)) <==> Settled(m.value, depth + 1) {
          SurvivorSmaller(ms, m);
          SettledExactly(m.value, depth + 1);
        }
        AlignedCleanExactly(SanitizeMembers(ms, depth), Survivors(ms), depth + 1);
      case _ =>
    }
  }

  lemma ItemsCleanExactly(items: seq<Value>)
    ensures Clean(Arr(items)) <==> forall i :: 0 <= i < |items| ==> Clean(items[i])
  {
    assert forall i :: 0 <= i < |items| ==> items[i] in items;
  }

  lemma AlignedCleanExactly(out: seq<Member>, ms: seq<Member>, depth: nat)
    requires Aligned(out, ms, depth)
    ensures Clean(Obj(out)) <==> forall m :: m in ms ==> Clean(Sanitize(m.value, depth))
  {
    hide Sanitize;
    assert forall i :: 0 <= i < |out| ==> out[i] in out && ms[i] in ms;
  }

  lemma {:induction false} SetElements(ms: seq<Member>, m: Member)
    ensures forall n :: n in Set(ms, m) ==> n == m || n in ms
  {
    if ms != [] && ms[0].key != m.key {
      SetElements(ms[1..], m);
    }
  }

  // ----- sanitising keeps values well-formed -----

  lemma {:induction false} SanitizeWellFormed(v: Value, depth: nat)
    requires WellFormed(v)
    ensures WellFormed(Sanitize(v, depth))
    decreases v, 1
  {
    match v
    case Arr(items) => ItemsWellFormed(items, depth);
    case Obj(ms) =>
      MembersShaped(ms, depth);
      MembersWellFormed(ms, depth);
    case _ =>
  }

  lemma {:induction false} ItemsWellFormed(items: seq<Value>, depth: nat)
    requires forall v :: v in items ==> WellFormed(v)
    ensures forall v :: v in SanitizeItems(items, depth) ==> WellFormed(v)
    decreases items, 0
  {
    if items != [] {
      var last := items[|items| - 1];
      ItemsWellFormed(items[..|items| - 1], depth);
      SanitizeWellFormed(last, depth + 1);
    }
  }

  lemma {:induction false} MembersWellFormed(ms: seq<Member>, depth: nat)
    requires forall m :: m in ms ==> WellFormed(m.value)
    ensures forall m :: m in SanitizeMembers(ms, depth) ==> WellFormed(m.value)
    decreases ms, 0
  {
    if ms != [] {
      var last := ms[|ms| - 1];
      MembersWellFormed(ms[..|ms| - 1], depth);
      SanitizeWellFormed(last.value, depth + 1);
      SetElements(SanitizeMembers(ms[..|ms| - 1], depth), Member(TrimSpace(last.key), Sanitize(last.value, depth + 1)));
    }
  }

  // ----- sorting keeps limits and texts -----

  lemma SortMembers(ms: seq<Member>)
    requires DistinctKeys(ms)
    ensures Sort(Obj(ms)).Obj? && DistinctKeys(Sort(Obj(ms)).members) && |Sort(Obj(ms)).members| == |ms|
    ensures forall m :: m in ms ==> Member(m.key, Sort(m.value)) in Sort(Obj(ms)).members
    ensures forall n :: n in Sort(Obj(ms)).members ==> exists m :: m in ms && n == Member(m.key, Sort(m.value))
  {
    SortObj(ms);
    SortedMembers(SortValues(ms));
    forall m | m in ms ensures Member(m.key, Sort(m.value)) in SortValues(ms) { SortedMember(ms, m); }
    forall n | n in SortValues(ms) ensures exists m :: m in ms && n == Member(m.key, Sort(m.value)) {
      var m := MemberSorted(ms, n);
    }
  }

  lemma {:induction false} SortShaped(v: Value, depth: nat)
    requires Shaped(v, depth)
    ensures Shaped(Sort(v), depth)
    decreases v
  {
    if depth <= MAX_DEPTH {
      match v
      case Arr(items) =>
        forall w | w in items ensures Shaped(Sort(w), depth + 1) { SortShaped(w, depth + 1); }
        SortedItems(items);
      case Obj(ms) =>
        SortMembers(ms);
        forall m | m in ms ensures Shaped(Sort(m.value), depth + 1) { SortShaped(m.value, depth + 1); }
        hide Trimmed, Sort;
      case _ =>
    }
  }

  lemma SortedItems(items: seq<Value>)
    ensures Sort(Arr(items)).Arr? && |Sort(Arr(items)).items| == |items|
    ensures forall w :: w in Sort(Arr(items)).items ==> exists x :: x in items && w == Sort(x)
  {
    var sorted := Sort(Arr(items)).items;
    forall w | w in sorted ensures exists x :: x in items && w == Sort(x) {
      var i :| 0 <= i < |sorted| && sorted[i] == w;
      assert items[i] in items;
    }
  }

  lemma {:induction false} SortClean(v: Value)
    requires WellFormed(v)
    ensures Clean(Sort(v)) <==> Clean(v)
    decreases v
  {
    match v
    case Arr(items) =>
      forall w | w in items ensures Clean(Sort(w)) <==> Clean(w) { SortClean(w); }
      forall i | 0 <= i < |items| ensures items[i] in items && Sort(items[i]) in Sort(v).items {
        assert Sort(v).items[i] == Sort(items[i]);
      }
    case Obj(ms) =>
      SortMembers(ms);
      forall m | m in ms ensures Clean(Sort(m.value)) <==> Clean(m.value) { SortClean(m.value); }
    case _ =>
  }

  // ----- main result: building again changes nothing -----

  lemma {:induction false} CollectShapes(start: seq<Member>, ms: seq<Member>)
    requires GoodKeys(start) && (forall m :: m in ms ==> WellFormed(m.value)) && forall m :: m in start ==> WellFormed(m.value)
    ensures GoodKeys(Collect(start, ms)) && forall m :: m in Collect(start, ms) ==> WellFormed(m.value)
    ensures forall m :: m in Collect(start, ms) ==> m in start || Shaped(m.value, 0)
    decreases |ms|
  {
    hide Sanitize, WellFormed, Shaped, GoodKeys, Trimmed, TrimSpace;
    if ms != [] {
      var last := ms[|ms| - 1];
      CollectShapes(start, ms[..|ms| - 1]);
      SanitizeWellFormed(last.value, 0);
      SanitizeShapes(last.value, 0);
      TrimSpaceSpec(last.key);
      if TrimSpace(last.key) != "" {
        SetMembers(Collect(start, ms[..|ms| - 1]), Member(TrimSpace(last.key), Sanitize(last.value, 0)));
      }
    }
  }

  lemma {:induction false} SetHas(ms: seq<Member>, m: Member)
    ensures m in Set(ms, m)
    ensures forall n :: n in ms && n.key != m.key ==> n in Set(ms, m)
  {
    if ms == [] {
    } else if ms[0].key == m.key {
      assert Set(ms, m)[0] == m;
    } else {
      SetHas(ms[1..], m);
      var r := Set(ms, m);
      assert r == [ms[0]] + Set(ms[1..], m) && r[0] == ms[0];
      assert ms == [ms[0]] + ms[1..];
    }
  }

  function Sanitized(m: Member): Member { Member(m.key, Sanitize(m.value, 0)) }

  ghost predicate SanitizedOf(n: Member, ms: seq<Member>) { exists m :: m in ms && n == Sanitized(m) }

  // With good distinct keys, collecting is sanitising member by member.
  lemma {:induction false} CollectKeyed(start: Member, ms: seq<Member>)
    requires GoodKeys(ms)
    ensures var out := Collect([start], ms);
            (forall m :: m in ms ==> Sanitized(m) in out) && forall n :: n in out ==> n == start || SanitizedOf(n, ms)
    decreases |ms|
  {
    hide Sanitize, Trimmed, TrimSpace, Set;
    if ms != [] {
      var front, last := ms[..|ms| - 1], ms[|ms| - 1];
      CollectKeyed(start, front);
      TrimSpaceSpec(last.key);
      var before := Collect([start], front);
      SetHas(before, Sanitized(last));
      SetElements(before, Sanitized(last));
      LastKeyDiffers(ms);
      assert last in ms && Collect([start], ms) == Set(before, Sanitized(last));
      assert ms == front + [last];
      var out := Collect([start], ms);
      hide GoodKeys, Collect;
      forall m | m in ms ensures Sanitized(m) in out {
        assert m == last || m in front;
      }
      forall n | n in out && n != start ensures SanitizedOf(n, ms) {
        if n != Sanitized(last) {
          var m :| m in front && n == Sanitized(m);
          assert m in ms;
        }
      }
    }
  }

  lemma LastKeyDiffers(ms: seq<Member>)
    requires ms != [] && DistinctKeys(ms)
    ensures forall m :: m in ms[..|ms| - 1] ==> m.key != ms[|ms| - 1].key
  {
    var front := ms[..|ms| - 1];
    forall m | m in front ensures m.key != ms[|ms| - 1].key {
      var i :| 0 <= i < |front| && front[i] == m;
      assert ms[i].key != ms[|ms| - 1].key;
    }
  }

  lemma SameReflexive(v: Value)
    requires WellFormed(v)
    ensures Same(v, v)
  {
    CanonicalExactly(v, v, Plain);
  }

  lemma SameChain(u: Value, v: Value, w: Value)
    requires WellFormed(u) && WellFormed(v) && WellFormed(w) && Same(v, w)
    ensures Same(u, v) <==> Same(u, w)
  {
    CanonicalExactly(u, v, Plain);
    CanonicalExactly(v, w, Plain);
    CanonicalExactly(u, w, Plain);
  }

  ghost predicate AllClean(ms: seq<Member>) { forall m :: m in ms ==> Clean(m.value) }

  // The members of an action: good keys, a type, values within the limits.
  ghost predicate Action(ms: seq<Member>) {
    && GoodKeys(ms) && WellFormed(Obj(ms)) && (exists m :: m in ms && m.key == "type")
    && forall m :: m in ms ==> Shaped(m.value, 0)
  }

  lemma RebuiltHas(t: string, ms: seq<Member>)
    requires t != "" && Action(ms)
    ensures var again := Build(t, Some(ms)).value;
            && DistinctKeys(again) && WellFormed(Obj(again)) && (forall m :: m in ms ==> Sanitized(m) in again)
            && forall n :: n in again ==> n == Member("type", Str(t)) || SanitizedOf(n, ms)
  {
    var start := Member("type", Str(t));
    assert "type"[0] == 't' && "type"[3] == 'e';
    assert forall m :: m in ms ==> WellFormed(m.value);
    CollectShapes([start], ms);
    CollectKeyed(start, ms);
    hide Sanitize, Collect, Shaped, Trimmed;
  }

  lemma RebuiltExactly(t: string, ms: seq<Member>)
    requires t != "" && Action(ms)
    ensures var again := Build(t, Some(ms)).value; WellFormed(Obj(again)) && (Same(Obj(again), Obj(ms)) <==> AllClean(ms))
  {
    RebuiltHas(t, ms);
    var start, again := Member("type", Str(t)), Build(t, Some(ms)).value;
    hide Build, Sanitize, Action, Same, AllClean, WellFormed, GoodKeys;
    if AllClean(ms) {
      CleanRebuilt(start, again, ms);
    }
    if Same(Obj(again), Obj(ms)) {
      SameIsClean(again, ms);
    }
  }

  lemma SameIsClean(again: seq<Member>, ms: seq<Member>)
    requires Action(ms) && Same(Obj(again), Obj(ms)) && forall m :: m in ms ==> Sanitized(m) in again
    ensures AllClean(ms)
  {
    hide Sanitize, Shaped, Same, Clean, Trimmed;
    forall m | m in ms ensures Clean(m.value) {
      var n := SameMember(again, Obj(ms), Sanitized(m));
      assert n == m;
      FixedIsClean(m.value, 0);
    }
  }

  lemma CleanRebuilt(start: Member, again: seq<Member>, ms: seq<Member>)
    requires DistinctKeys(again) && Action(ms) && AllClean(ms) && start.key == "type"
    requires (forall m :: m in ms ==> Sanitized(m) in again) && forall n :: n in again ==> n == start || SanitizedOf(n, ms)
    ensures Same(Obj(again), Obj(ms))
  {
    hide Sanitize, Clean, Shaped, Trimmed;
    forall m | m in ms ensures Sanitized(m) == m && Same(m.value, m.value) {
      SanitizeFixes(m.value, 0);
      SameReflexive(m.value);
    }
    var mt :| mt in ms && mt.key == "type";
    assert Sanitized(mt) == mt;
    forall n | n in again ensures n in ms {
      if n == start {
        assert n == mt;
      } else {
        var m :| m in ms && n == Sanitized(m);
      }
    }
    hide Sanitized;
    assert KeysWithin(ms, again);
  }
}
