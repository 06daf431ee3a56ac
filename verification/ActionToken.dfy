/** The signed token that carries a proposed action to its execution: issueAiActionToken,
    encodeAiActionToken and decodeAiActionToken. */
module ActionToken {
  import opened ActionText
  import opened ClientAction
  import opened Encoding
  import opened Json
  import opened JsonRoundTrip
  import opened Options
  import opened Text

  const TTL_SECONDS := 300

  predicate HexText(s: string) { s != "" && forall i :: 0 <= i < |s| ==> '0' <= s[i] <= '9' || 'a' <= s[i] <= 'f' }

  type Digest = s: string | HexText(s) witness "0"

  // The secret, and SHA-256 in hexadecimal, which stays uninterpreted.
  datatype Vault = Vault(secret: string, sha256: string -> Digest)

  function Signature(body: string, vault: Vault): Digest { vault.sha256(vault.secret + "." + body) }

  function Encode(payload: Value, vault: Vault): string {
    var body := Strip(Utf8(Json.Encode(payload, Plain)));
    body + "." + Signature(body, vault)
  }

  // What a token is issued for.
  datatype Request = Request(actionID: string, targetPage: string, action: Value, confirm: bool, chatID: string, turnID: string)

  const PAYLOAD_KEYS := ["v", "iat", "exp", "action_id", "target_page", "action", "requires_confirmation", "chat_id", "turn_id"]

  function PayloadValue(i: nat, now: int, r: Request): Value {
    match i
    case 0 => Num(Itoa(1))
    case 1 => Num(Itoa(now))
    case 2 => Num(Itoa(now + TTL_SECONDS))
    case 3 => Str(r.actionID)
    case 4 => Str(r.targetPage)
    case 5 => r.action
    case 6 => Bool(r.confirm)
    case 7 => Str(r.chatID)
    case _ => Str(r.turnID)
  }

  function Payload(now: int, r: Request): (ms: seq<Member>)
    ensures |ms| == 9 && forall i :: 0 <= i < 9 ==> ms[i] == Member(PAYLOAD_KEYS[i], PayloadValue(i, now, r))
  {
    seq(9, i requires 0 <= i < 9 => Member(PAYLOAD_KEYS[i], PayloadValue(i, now, r)))
  }

  function Issue(now: int, r: Request, vault: Vault): string { Encode(Obj(Payload(now, r)), vault) }

  // strings.LastIndex(t, ".")
  function LastDot(t: string): (i: Option<nat>)
    ensures i.Some? ==> i.value < |t|
  {
    if t == "" then None else if t[|t| - 1] == '.' then Some(|t| - 1) else LastDot(t[..|t| - 1])
  }

  function Expiry(ms: seq<Member>): int { IntField(ms, "exp") }

  function Decode(token: string, now: int, vault: Vault): Option<seq<Member>> {
    var t := TrimSpace(token);
    match LastDot(t)
    case None => None
    case Some(i) =>
      var body, signature := t[..i], t[i + 1..];
      if signature != Signature(body, vault) then None
      else match Unbase64(Repad(body))
        case None => None
        case Some(raw) =>
          match Parse(FromUtf8(raw))
          case Some(Obj(ms)) => if Expiry(ms) <= now then None else Some(ms)
          case _ => None
  }

  lemma {:induction false} LastDotOf(body: string, rest: string)
    requires '.' !in rest
    ensures LastDot(body + "." + rest) == Some(|body|)
    decreases |rest|
  {
    var t := body + "." + rest;
    if rest != "" {
      assert t[..|t| - 1] == body + "." + rest[..|rest| - 1];
      LastDotOf(body, rest[..|rest| - 1]);
    }
  }

  lemma HexIsPlain(s: Digest)
    ensures '.' !in s && !Space(s[|s| - 1])
  {
  }

  // A well-signed token opens to what its body spells.
  lemma SignedOpens(b: seq<Byte>, now: int, vault: Vault)
    requires b != []
    ensures var body := Strip(b);
            Decode(body + "." + Signature(body, vault), now, vault) ==
            match Parse(FromUtf8(b)) { case Some(Obj(ms)) => if Expiry(ms) <= now then None else Some(ms) case _ => None }
  {
    var body := Strip(b);
    var signature := Signature(body, vault);
    var t := body + "." + signature;
    StripRoundTrip(b);
    BareHasNoLineEnds(body);
    HexIsPlain(signature);
    hide Strip, Unbase64, Repad, Parse, FromUtf8, Expiry, Space, Signature, LastDot;
    LastDotOf(body, signature);
    assert t[0] == body[0] && t[|t| - 1] == signature[|signature| - 1];
    TrimSpaceSpec(t);
    assert t[..|body|] == body && t[|body| + 1..] == signature;
  }

  lemma {:induction false} GetFinds(ms: seq<Member>, m: Member)
    requires DistinctKeys(ms) && m in ms
    ensures Get(ms, m.key) == Some(m.value)
  {
    if ms[0] != m {
      var i :| 0 < i < |ms| && ms[i] == m;
      assert ms[1..][i - 1] == m;
      GetFinds(ms[1..], m);
    }
  }

  lemma KeysDiffer()
    ensures |PAYLOAD_KEYS| == 9 && forall i, j :: 0 <= i < j < 9 ==> PAYLOAD_KEYS[i] != PAYLOAD_KEYS[j]
  {
  }

  // A clock that a 64-bit integer holds, and the action a value.
  predicate Issuable(now: int, r: Request) {
    WellFormed(r.action) && -0x8000_0000_0000_0000 <= now && now + TTL_SECONDS < 0x8000_0000_0000_0000
  }

  lemma ValueWellFormed(i: nat, now: int, r: Request)
    requires Issuable(now, r)
    ensures WellFormed(PayloadValue(i, now, r))
  {
    if i == 0 {
      ItoaReads(1);
    } else if i == 1 {
      ItoaReads(now);
    } else if i == 2 {
      ItoaReads(now + TTL_SECONDS);
    }
    hide Itoa, Number, Int64;
  }

  lemma PayloadWellFormed(now: int, r: Request)
    requires Issuable(now, r)
    ensures WellFormed(Obj(Payload(now, r)))
  {
    forall i | 0 <= i < 9 ensures WellFormed(PayloadValue(i, now, r)) { ValueWellFormed(i, now, r); }
    KeysDiffer();
    hide PayloadValue, Payload, PAYLOAD_KEYS;
  }

  // The payload's member of this position after sorting.
  lemma SortedPayloadHas(i: nat, now: int, r: Request)
    requires Issuable(now, r) && i < 9 && |PAYLOAD_KEYS| == 9
    ensures var sorted := Sort(Obj(Payload(now, r)));
            sorted.Obj? && Get(sorted.members, PAYLOAD_KEYS[i]) == Some(Sort(PayloadValue(i, now, r)))
  {
    PayloadWellFormed(now, r);
    hide Payload, PAYLOAD_KEYS, Itoa;
    var ms := Payload(now, r);
    SortMembers(ms);
    GetFinds(Sort(Obj(ms)).members, Member(ms[i].key, Sort(ms[i].value)));
  }

  // A token opens to the payload it was issued for, members sorted, until it expires and not after.
  lemma IssuedOpens(now: int, later: int, r: Request, vault: Vault)
    requires Issuable(now, r)
    ensures var sorted := Sort(Obj(Payload(now, r)));
            && sorted.Obj? && Get(sorted.members, "action") == Some(Sort(r.action))
            && Decode(Issue(now, r, vault), later, vault) == if later < now + TTL_SECONDS then Some(sorted.members) else None
  {
    ActionIs(now, r);
    IssuedIs(now, r, vault);
    hide *;
    PayloadWellFormed(now, r);
    ExpiryIs(now, r);
    EncodeOpens(Payload(now, r), later, vault);
  }

  lemma ActionIs(now: int, r: Request)
    requires Issuable(now, r)
    ensures Sort(Obj(Payload(now, r))).Obj? && Get(Sort(Obj(Payload(now, r))).members, "action") == Some(Sort(r.action))
  {
    KeysDiffer();
    SortedPayloadHas(5, now, r);
    assert PAYLOAD_KEYS[5] == "action";
    hide Payload, Sort, Get;
  }

  lemma IssuedIs(now: int, r: Request, vault: Vault)
    ensures Issue(now, r, vault) == Encode(Obj(Payload(now, r)), vault)
  {
    hide Encode, Payload;
  }

  lemma ExpiryIs(now: int, r: Request)
    requires Issuable(now, r)
    ensures Sort(Obj(Payload(now, r))).Obj? && Expiry(Sort(Obj(Payload(now, r))).members) == now + TTL_SECONDS
  {
    SortedPayloadHas(2, now, r);
    assert PAYLOAD_KEYS[2] == "exp";
    assert Sort(Num(Itoa(now + TTL_SECONDS))) == Num(Itoa(now + TTL_SECONDS));
    hide Payload, Itoa, Int64, Sort, Get, PAYLOAD_KEYS;
    ItoaReads(now + TTL_SECONDS);
  }

  lemma EncodeOpens(ms: seq<Member>, later: int, vault: Vault)
    requires WellFormed(Obj(ms))
    ensures var sorted := Sort(Obj(ms));
            sorted.Obj? && Decode(Encode(Obj(ms), vault), later, vault) == if Expiry(sorted.members) <= later then None else Some(sorted.members)
  {
    var text := Json.Encode(Obj(ms), Plain);
    EncodeReads(Obj(ms), Plain);
    SortWellFormed(Obj(ms));
    FirstChar(Sort(Obj(ms)), Plain);
    Utf8Reads(text);
    hide Decode, Signature, Print, Parse, Strip, Expiry;
    SignedOpens(Utf8(text), later, vault);
  }

  // The handler: open the token, take its action, and build it again for the declared type.
  function Execute(token: string, now: int, actionType: string, vault: Vault): Option<seq<Member>> {
    match Decode(token, now, vault)
    case None => None
    case Some(ms) =>
      match Get(ms, "action")
      case Some(Obj(action)) => Build(actionType, Some(action))
      case _ => Build(actionType, None)
  }

  lemma SortedAction(ms: seq<Member>)
    requires Action(ms)
    ensures Sort(Obj(ms)).Obj? && Action(Sort(Obj(ms)).members)
    ensures AllClean(Sort(Obj(ms)).members) <==> AllClean(ms)
  {
    SortMembers(ms);
    SortWellFormed(Obj(ms));
    hide Shaped, Clean, Trimmed, Sort;
    forall m | m in ms ensures Shaped(Sort(m.value), 0) && (Clean(Sort(m.value)) <==> Clean(m.value)) {
      SortShaped(m.value, 0);
      SortClean(m.value);
    }
  }

  lemma BuiltIsAction(actionType: string, payload: seq<Member>)
    requires actionType != "" && WellFormed(Obj(payload))
    ensures Action(Build(actionType, Some(payload)).value)
  {
    var start := Member("type", Str(actionType));
    assert "type"[0] == 't' && "type"[3] == 'e';
    CollectShapes([start], payload);
    KeepsType(start, payload);
  }

  lemma {:induction false} KeepsType(start: Member, ms: seq<Member>)
    ensures exists m :: m in Collect([start], ms) && m.key == start.key
    decreases |ms|
  {
    hide Sanitize, TrimSpace;
    if ms == [] {
      assert [start][0] == start;
    } else {
      var last := ms[|ms| - 1];
      KeepsType(start, ms[..|ms| - 1]);
      var before := Collect([start], ms[..|ms| - 1]);
      var m :| m in before && m.key == start.key;
      SetHas(before, Member(TrimSpace(last.key), Sanitize(last.value, 0)));
    }
  }

  // What is executed is what was proposed. An action that was built from any payload, sealed, opened in
  // time and built again is the same action exactly when none of its texts changes by trimming or cutting;
  // and once the token has expired nothing is executed.
  lemma ExecutedIsProposed(actionType: string, payload: seq<Member>, declaredType: string, now: int, later: int, r: Request, vault: Vault)
    requires actionType != "" && declaredType != "" && WellFormed(Obj(payload))
    requires r.action == Obj(Build(actionType, Some(payload)).value) && Issuable(now, r)
    ensures var executed := Execute(Issue(now, r, vault), later, declaredType, vault);
            && (later >= now + TTL_SECONDS ==> executed == None)
            && (later < now + TTL_SECONDS ==> executed.Some? && (Same(Obj(executed.value), r.action) <==> AllClean(r.action.members)))
  {
    BuiltIsAction(actionType, payload);
    assert Build(declaredType, Some(Sort(r.action).members)).Some?;
    hide Build, Decode, Issue, Payload;
    IssuedOpens(now, later, r, vault);
    if later < now + TTL_SECONDS {
      SealedAction(declaredType, r.action.members);
    }
  }

  lemma SealedAction(declaredType: string, proposed: seq<Member>)
    requires declaredType != "" && Action(proposed)
    ensures Sort(Obj(proposed)).Obj?
    ensures var again := Build(declaredType, Some(Sort(Obj(proposed)).members)).value; Same(Obj(again), Obj(proposed)) <==> AllClean(proposed)
  {
    SortedAction(proposed);
    var sorted := Sort(Obj(proposed)).members;
    hide Build, AllClean;
    RebuiltExactly(declaredType, sorted);
    SortWellFormed(Obj(proposed));
    SortSame(Obj(proposed));
    SameChain(Obj(Build(declaredType, Some(sorted)).value), Obj(sorted), Obj(proposed));
  }

  lemma {:induction false} SortSame(v: Value)
    requires WellFormed(v)
    ensures Same(Sort(v), v)
    decreases v
  {
    match v
    case Arr(items) =>
      forall w | w in items ensures Same(Sort(w), w) { SortSame(w); }
      forall i | 0 <= i < |items| ensures Same(Sort(v).items[i], items[i]) {
        assert items[i] in items;
      }
    case Obj(ms) =>
      SortMembers(ms);
      var sorted := Sort(v).members;
      forall m | m in ms ensures Same(Sort(m.value), m.value) { SortSame(m.value); }
      forall n | n in sorted ensures exists m :: m in ms && m.key == n.key && Same(n.value, m.value) {
        var m :| m in ms && n == Member(m.key, Sort(m.value));
      }
    case _ =>
  }

  // ----- the condition on the payload -----

  // The member takes a place in the action, and no later one takes it away.
  predicate LastOfKey(ms: seq<Member>, i: nat)
    requires i < |ms|
  {
    TrimSpace(ms[i].key) != "" && forall j :: i < j < |ms| ==> TrimSpace(ms[j].key) != TrimSpace(ms[i].key)
  }

  predicate Lacks(ms: seq<Member>, key: string) { forall j :: 0 <= j < |ms| ==> TrimSpace(ms[j].key) != key }

  function Entry(m: Member): Member { Member(TrimSpace(m.key), Sanitize(m.value, 0)) }

  lemma {:induction false} SetElementsExactly(ms: seq<Member>, m: Member)
    requires DistinctKeys(ms)
    ensures forall n :: n in Set(ms, m) <==> n == m || (n in ms && n.key != m.key)
  {
    if ms != [] && ms[0].key != m.key {
      SetElementsExactly(ms[1..], m);
      assert ms == [ms[0]] + ms[1..];
    } else if ms != [] {
      assert ms == [ms[0]] + ms[1..] && Set(ms, m) == [m] + ms[1..];
    }
  }

  lemma {:induction false} CollectDistinct(start: Member, ms: seq<Member>)
    requires start.key != "" && Trimmed(start.key)
    ensures GoodKeys(Collect([start], ms))
    decreases |ms|
  {
    hide Sanitize, Set, TrimSpace, Trimmed;
    if ms == [] {
      assert [start][0] == start;
    } else {
      var last := ms[|ms| - 1];
      CollectDistinct(start, ms[..|ms| - 1]);
      TrimSpaceSpec(last.key);
      if TrimSpace(last.key) != "" {
        SetMembers(Collect([start], ms[..|ms| - 1]), Entry(last));
      }
    }
  }

  ghost predicate Collected(n: Member, start: Member, ms: seq<Member>) {
    (n == start && Lacks(ms, start.key)) || exists i :: 0 <= i < |ms| && LastOfKey(ms, i) && n == Entry(ms[i])
  }

  lemma CollectedMore(n: Member, start: Member, front: seq<Member>, last: Member)
    requires start.key != ""
    ensures var k := TrimSpace(last.key);
            Collected(n, start, front + [last]) <==>
              if k == "" then Collected(n, start, front) else n == Entry(last) || (Collected(n, start, front) && n.key != k)
  {
    hide TrimSpace, Sanitize;
    var ms, k, z := front + [last], TrimSpace(last.key), |front|;
    assert ms[z] == last && forall i :: 0 <= i < z ==> ms[i] == front[i];
    assert Lacks(ms, start.key) <==> Lacks(front, start.key) && k != start.key;
    assert forall i :: 0 <= i < z ==> (LastOfKey(ms, i) <==> LastOfKey(front, i) && k != TrimSpace(front[i].key));
    assert LastOfKey(ms, z) <==> k != "";
    if exists i :: 0 <= i < z && LastOfKey(front, i) && n == Entry(front[i]) {
      var i :| 0 <= i < z && LastOfKey(front, i) && n == Entry(front[i]);
      assert n == Entry(ms[i]);
    }
    if k != "" && n == Entry(last) {
      assert LastOfKey(ms, z) && n == Entry(ms[z]);
    }
  }

  // The members of an action are the type, unless the payload takes its place, and the last member of each key.
  lemma {:induction false} CollectExactly(start: Member, ms: seq<Member>, n: Member)
    requires start.key != "" && Trimmed(start.key)
    ensures n in Collect([start], ms) <==> Collected(n, start, ms)
    decreases |ms|
  {
    if ms == [] {
    } else {
      hide TrimSpace, Sanitize, Trimmed, Collected, Set, LastOfKey, Lacks;
      var front, last := ms[..|ms| - 1], ms[|ms| - 1];
      assert ms == front + [last];
      CollectExactly(start, front, n);
      CollectedMore(n, start, front, last);
      CollectDistinct(start, front);
      SetElementsExactly(Collect([start], front), Entry(last));
    }
  }

  // The type's text is kept unless a member replaces it, and each text that the depth, member and item limits
  // let through settles.
  predicate PayloadSettles(actionType: string, payload: seq<Member>) {
    && (Lacks(payload, "type") ==> CleanText(actionType))
    && forall i :: 0 <= i < |payload| && LastOfKey(payload, i) ==> Settled(payload[i].value, 0)
  }

  lemma BuiltCleanExactly(actionType: string, payload: seq<Member>)
    requires actionType != ""
    ensures AllClean(Build(actionType, Some(payload)).value) <==> PayloadSettles(actionType, payload)
  {
    var start := Member("type", Str(actionType));
    assert "type"[0] == 't' && "type"[3] == 'e' && !Space('t') && !Space('e');
    hide TrimSpace, Space, Settled, Sanitize, LastOfKey, Lacks;
    var out := Collect([start], payload);
    assert Build(actionType, Some(payload)).value == out;
    forall n ensures n in out <==> Collected(n, start, payload) {
      CollectExactly(start, payload, n);
    }
    forall i | 0 <= i < |payload| ensures Clean(Entry(payload[i]).value) <==> Settled(payload[i].value, 0) {
      SettledExactly(payload[i].value, 0);
    }
    assert Clean(start.value) <==> CleanText(actionType);
    hide Collect, Build, Clean, CleanText;
    if AllClean(out) {
      assert Lacks(payload, "type") ==> Collected(start, start, payload);
      forall i | 0 <= i < |payload| && LastOfKey(payload, i) ensures Settled(payload[i].value, 0) {
        assert Collected(Entry(payload[i]), start, payload);
      }
    }
    if PayloadSettles(actionType, payload) {
      forall n | n in out ensures Clean(n.value) {
        if n != start || !Lacks(payload, "type") {
          var i :| 0 <= i < |payload| && LastOfKey(payload, i) && n == Entry(payload[i]);
        }
      }
    }
  }

  // What is executed is what was proposed exactly when the payload settles.
  lemma ExecutedExactly(actionType: string, payload: seq<Member>, declaredType: string, now: int, later: int, r: Request, vault: Vault)
    requires actionType != "" && declaredType != "" && WellFormed(Obj(payload))
    requires r.action == Obj(Build(actionType, Some(payload)).value) && Issuable(now, r) && later < now + TTL_SECONDS
    ensures var executed := Execute(Issue(now, r, vault), later, declaredType, vault);
            executed.Some? && (Same(Obj(executed.value), r.action) <==> PayloadSettles(actionType, payload))
  {
    hide *;
    ExecutedIsProposed(actionType, payload, declaredType, now, later, r, vault);
    BuiltCleanExactly(actionType, payload);
  }

  // A payload of one text is executed as proposed exactly when its text settles.
  lemma OneTextExactly(actionType: string, key: string, s: string, declaredType: string, now: int, later: int, r: Request, vault: Vault)
    requires actionType != "" && CleanText(actionType) && declaredType != "" && key != "" && key != "type" && Trimmed(key)
    requires r.action == Obj(Build(actionType, Some([Member(key, Str(s))])).value) && Issuable(now, r) && later < now + TTL_SECONDS
    ensures var executed := Execute(Issue(now, r, vault), later, declaredType, vault);
            executed.Some? && (Same(Obj(executed.value), r.action) <==> Settles(TrimSpace(s)))
  {
    var payload := [Member(key, Str(s))];
    assert WellFormed(Obj(payload));
    OneTextBuilt(actionType, key, s);
    ExecutedIsProposed(actionType, payload, declaredType, now, later, r, vault);
  }

  lemma OneTextBuilt(actionType: string, key: string, s: string)
    requires actionType != "" && CleanText(actionType) && key != "" && key != "type" && Trimmed(key)
    ensures var built := Build(actionType, Some([Member(key, Str(s))])).value;
            (AllClean(built) <==> Settles(TrimSpace(s))) && WellFormed(Obj(built))
  {
    hide Settles, CleanText, SanitizeText, TrimSpace, Trimmed;
    TrimSpaceSpec(key);
    SettlesExactly(s);
    var start, m := Member("type", Str(actionType)), Member(key, Str(s));
    var cut := Member(key, Str(SanitizeText(s)));
    assert [m][..0] == [] && Collect([start], []) == [start];
    assert Set([start], cut) == [start] + Set([], cut) == [start, cut];
    assert Build(actionType, Some([m])).value == [start, cut];
    assert start in [start, cut] && cut in [start, cut];
  }

  // Two proposals that are executed differently: a text torn after three bytes of a character, and one
  // whose cut ends with a blank.
  lemma ExecutedDiffers(s: string, now: int, later: int, vault: Vault)
    requires s == TornText() || s == BlankText()
    requires -0x8000_0000_0000_0000 <= now <= later < now + TTL_SECONDS < 0x8000_0000_0000_0000
    ensures var action := Obj(Build("go", Some([Member("note", Str(s))])).value);
            var executed := Execute(Issue(now, Request("a", "/logs", action, false, "c", "t"), vault), later, "go", vault);
            executed.Some? && !Same(Obj(executed.value), action)
  {
    TornTextMoves();
    BlankTextMoves();
    TrimSpaceSpec(s);
    ShortWords();
    var action := Obj(Build("go", Some([Member("note", Str(s))])).value);
    OneTextBuilt("go", "note", s);
    hide *;
    OneTextExactly("go", "note", s, "go", now, later, Request("a", "/logs", action, false, "c", "t"), vault);
  }

  lemma ShortWords()
    ensures CleanText("go") && "note" != "type" && Trimmed("note")
  {
    assert "note"[0] == 'n' && "type"[0] == 't';
    assert "go"[1..] == "o" && "o"[1..] == "" && |Utf8("go")| == 2;
  }
}
