/** The browser-context stream of static/rum.js: page views and errors carry the full context when it
    changed and only its hash when it did not. */
module BrowserContext {
  import opened Options

  // A context is the text that it serialises to.
  type Context = string

  datatype Kind = PageView | Failure | Other

  // What the page holds when an event is sent.
  datatype Event = Event(kind: Kind, context: Context)

  datatype Item = Item(kind: Kind, context: Option<Context>, hash: Option<string>, same: bool)

  // What the page does: its configuration changes, it sends a batch, it tracks a page view.
  datatype Action = Configure(endpoint: bool, collect: bool) | Send(events: seq<Event>) | TrackPageView(context: Context)

  class Page {
    const hash: Context -> string
    var endpoint: bool
    var collect: bool
    var browserContext: Option<Context>
    var browserContextHash: Option<string>
    var isFirstPageview: bool

    // What was sent, and the contexts that were captured for it, in order.
    var sent: seq<Item>
    ghost var captured: seq<Context>

    constructor (hash: Context -> string)
      ensures this.hash == hash && Valid() && sent == [] && captured == []
    {
      this.hash := hash;
      endpoint, collect, isFirstPageview := false, true, true;
      browserContext, browserContextHash := None, None;
      sent, captured := [], [];
    }

    // The stored context is the last one that was sent in full.
    ghost predicate Valid()
      reads this
    {
      && (browserContextHash == if browserContext.None? then None else Some(hash(browserContext.value)))
      && Faithful(sent, captured, hash) && Last(sent) == browserContext
    }

    method UpdateBrowserContext(newContext: Context) returns (changed: bool)
      requires Valid()
      modifies this`browserContext, this`browserContextHash
      ensures changed <==> old(browserContextHash) != Some(hash(newContext))
      ensures browserContext == if changed then Some(newContext) else old(browserContext)
      ensures browserContextHash == Some(hash(newContext))
    {
      var newHash := hash(newContext);
      if browserContextHash != Some(newHash) {
        browserContext, browserContextHash := Some(newContext), Some(newHash);
        return true;
      }
      return false;
    }

    // One event of a batch.
    method SendOne(e: Event)
      requires Valid()
      modifies this`browserContext, this`browserContextHash, this`sent, this`captured
      ensures Valid()
      ensures captured == old(captured) + if collect && e.kind != Other then [e.context] else []
      ensures |sent| == old(|sent|) + 1 && old(sent) <= sent
      ensures Delta(sent[|sent| - 1], e, collect, !isFirstPageview && old(browserContextHash) == Some(hash(e.context)))
    {
      hide Faithful, Last;
      var item := Item(e.kind, None, None, false);
      if (e.kind == PageView || e.kind == Failure) && collect {
        var contextChanged := UpdateBrowserContext(e.context);
        if isFirstPageview || contextChanged {
          item := item.(context := browserContext, hash := browserContextHash);
        } else {
          item := item.(hash := browserContextHash, same := true);
        }
        assert browserContext == Some(Kept(old(browserContext), e.context, hash));
        ContextSent(sent, captured, hash, item, e.context);
        captured := captured + [e.context];
      } else {
        OtherSent(sent, captured, hash, item);
      }
      sent := sent + [item];
    }

    method SendBatch(events: seq<Event>)
      requires Valid()
      modifies this`browserContext, this`browserContextHash, this`sent, this`captured
      ensures Valid()
      ensures captured == old(captured) + if endpoint && collect then Contexts(events) else []
      ensures |sent| == old(|sent|) + if endpoint then |events| else 0
      ensures old(sent) <= sent && (!endpoint ==> browserContext == old(browserContext))
    {
      if !endpoint {
        return;
      }
      assert Contexts(events[..0]) == [];
      hide *;
      ghost var first, start := captured, sent;
      for n := 0 to |events|
        invariant Valid() && start <= sent && |sent| == |start| + n
        invariant captured == first + if collect then Contexts(events[..n]) else []
      {
        ghost var before := captured;
        SendOne(events[n]);
        CapturedNext(first, events, n, collect, before, captured);
      }
      assert events[..|events|] == events;
    }

    method TrackPageView(context: Context)
      requires Valid()
      modifies this`browserContext, this`browserContextHash, this`sent, this`captured, this`isFirstPageview
      ensures Valid() && !isFirstPageview
      ensures captured == old(captured) + if endpoint && collect then [context] else []
    {
      SendBatch([Event(PageView, context)]);
      assert Contexts([Event(PageView, context)]) == [context];
      isFirstPageview := false;
    }

    method Perform(actions: seq<Action>)
      requires Valid()
      modifies this
      ensures Valid()
      ensures captured == old(captured) + CapturedBy(old(endpoint), old(collect), actions)
      decreases |actions|
    {
      hide Faithful, Last, Contexts;
      if actions != [] {
        match actions[0] {
          case Configure(e, c) => endpoint, collect := e, c;
          case Send(events) => SendBatch(events);
          case TrackPageView(context) => TrackPageView(context);
        }
        Perform(actions[1..]);
      }
    }
  }

  // The contexts of the events that carry one.
  function Contexts(events: seq<Event>): seq<Context> {
    if events == [] then []
    else Contexts(events[..|events| - 1]) + if events[|events| - 1].kind != Other then [events[|events| - 1].context] else []
  }

  lemma CapturedNext(first: seq<Context>, events: seq<Event>, n: nat, collect: bool, was: seq<Context>, now: seq<Context>)
    requires n < |events| && was == first + if collect then Contexts(events[..n]) else []
    requires now == was + if collect && events[n].kind != Other then [events[n].context] else []
    ensures now == first + if collect then Contexts(events[..n + 1]) else []
  {
    hide Contexts;
    ContextsNext(events, n);
  }

  // A page view or an error carries the full context unless it is known to the receiver.
  predicate Delta(item: Item, e: Event, collect: bool, known: bool) {
    var carries := collect && e.kind != Other;
    item.kind == e.kind && (item.context.Some? <==> carries && !known) && (item.same <==> carries && known)
  }

  lemma ContextsNext(events: seq<Event>, n: nat)
    requires n < |events|
    ensures Contexts(events[..n + 1]) == Contexts(events[..n]) + if events[n].kind != Other then [events[n].context] else []
  {
    assert events[..n + 1][..n] == events[..n];
  }

  // The contexts that a course of actions captures, whatever was switched on when.
  function CapturedBy(endpoint: bool, collect: bool, actions: seq<Action>): seq<Context>
    decreases |actions|
  {
    if actions == [] then []
    else match actions[0]
      case Configure(e, c) => CapturedBy(e, c, actions[1..])
      case Send(events) => (if endpoint && collect then Contexts(events) else []) + CapturedBy(endpoint, collect, actions[1..])
      case TrackPageView(context) => (if endpoint && collect then [context] else []) + CapturedBy(endpoint, collect, actions[1..])
  }

  // ----- the receiver -----

  // The last context that came in full.
  function Last(items: seq<Item>): Option<Context> {
    if items == [] then None
    else if items[|items| - 1].context.Some? then items[|items| - 1].context
    else Last(items[..|items| - 1])
  }

  // What a receiver takes the contexts of the items to be; None when an item says unchanged before any came.
  function Received(items: seq<Item>): Option<seq<Context>> {
    if items == [] then Some([])
    else
      var front, item := items[..|items| - 1], items[|items| - 1];
      match Received(front)
      case None => None
      case Some(cs) =>
        if item.context.Some? then Some(cs + [item.context.value])
        else if !item.same then Some(cs)
        else if Last(front).Some? then Some(cs + [Last(front).value])
        else None
  }

  // Each context replaced by the one before it when their hashes agree.
  function Merged(cs: seq<Context>, hash: Context -> string): (r: seq<Context>)
    ensures |r| == |cs|
  {
    if cs == [] then []
    else
      var front := Merged(cs[..|cs| - 1], hash);
      var c := cs[|cs| - 1];
      front + [if front != [] && hash(front[|front| - 1]) == hash(c) then front[|front| - 1] else c]
  }

  // The hash that comes with a context, in full or not, is its hash.
  ghost predicate Hashed(items: seq<Item>, hash: Context -> string) {
    items == [] ||
    (var item := items[|items| - 1];
     (item.context.Some? || item.same ==> Last(items).Some? && item.hash == Some(hash(Last(items).value)))
     && Hashed(items[..|items| - 1], hash))
  }

  ghost predicate Faithful(items: seq<Item>, captured: seq<Context>, hash: Context -> string) {
    && Hashed(items, hash) && Received(items) == Some(Merged(captured, hash))
    && Last(items) == if captured == [] then None else Some(Merged(captured, hash)[|captured| - 1])
  }

  // Neighbours with the same hash are the same.
  predicate NoCollision(cs: seq<Context>, hash: Context -> string) {
    forall i :: 0 < i < |cs| && hash(cs[i]) == hash(cs[i - 1]) ==> cs[i] == cs[i - 1]
  }

  lemma {:induction false} MergedExactly(cs: seq<Context>, hash: Context -> string)
    ensures Merged(cs, hash) == cs <==> NoCollision(cs, hash)
    decreases |cs|
  {
    if cs != [] {
      var n := |cs| - 1;
      var front := cs[..n];
      MergedExactly(front, hash);
      NoCollisionFront(cs, hash);
      var m := Merged(front, hash);
      var last := if m != [] && hash(m[n - 1]) == hash(cs[n]) then m[n - 1] else cs[n];
      assert Merged(cs, hash) == m + [last] && cs == front + [cs[n]];
      hide Merged, NoCollision;
      assert m + [last] == front + [cs[n]] <==> m == front && last == cs[n] by {
        assert (m + [last])[..n] == m && (front + [cs[n]])[..n] == front;
        assert (m + [last])[n] == last && (front + [cs[n]])[n] == cs[n];
      }
    }
  }

  lemma NoCollisionFront(cs: seq<Context>, hash: Context -> string)
    requires cs != []
    ensures var n := |cs| - 1;
            NoCollision(cs, hash) <==> NoCollision(cs[..n], hash) && (n > 0 && hash(cs[n]) == hash(cs[n - 1]) ==> cs[n] == cs[n - 1])
  {
  }

  // The stored context, or the new one when its hash differs.
  function Kept(stored: Option<Context>, c: Context, hash: Context -> string): Context {
    if stored.Some? && hash(stored.value) == hash(c) then stored.value else c
  }

  lemma ContextSent(items: seq<Item>, captured: seq<Context>, hash: Context -> string, item: Item, c: Context)
    requires Faithful(items, captured, hash)
    requires var kept := Kept(Last(items), c, hash);
             item.hash == Some(hash(kept)) && (item.context == Some(kept) || (item.context.None? && item.same && Last(items) == Some(kept)))
    ensures Faithful(items + [item], captured + [c], hash) && Last(items + [item]) == Some(Kept(Last(items), c, hash))
  {
  }

  lemma OtherSent(items: seq<Item>, captured: seq<Context>, hash: Context -> string, item: Item)
    requires Faithful(items, captured, hash) && item.context.None? && !item.same
    ensures Faithful(items + [item], captured, hash) && Last(items + [item]) == Last(items)
  {
  }

  // With the items delivered in order, the receiver recovers every captured context exactly when no two
  // neighbours collide, and an item never says unchanged before a full context came.
  lemma RecoversExactly(items: seq<Item>, captured: seq<Context>, hash: Context -> string)
    requires Faithful(items, captured, hash)
    ensures Received(items).Some?
    ensures Received(items) == Some(captured) <==> NoCollision(captured, hash)
  {
    MergedExactly(captured, hash);
  }

  lemma InjectiveRecovers(items: seq<Item>, captured: seq<Context>, hash: Context -> string)
    requires Faithful(items, captured, hash) && forall c, d :: hash(c) == hash(d) ==> c == d
    ensures Received(items) == Some(captured)
  {
    RecoversExactly(items, captured, hash);
  }

  // ----- the hash -----

  const TWO_32: int := 0x1_0000_0000

  // ToInt32
  function Wrap(n: int): (r: int) {
    var m := n % TWO_32;
    if m < 0x8000_0000 then m else m - TWO_32
  }

  function Checksum(text: string, h: int): int
    decreases |text|
  {
    if text == "" then h else Checksum(text[1..], Wrap(Wrap(h * 32) - h + text[0] as int))
  }

  lemma WrapShift(n: int, q: int)
    ensures Wrap(n + q * TWO_32) == Wrap(n)
  {
  }

  lemma WrapIs(n: int) returns (q: int)
    ensures n == Wrap(n) + q * TWO_32
  {
    q := n / TWO_32 + if n % TWO_32 < 0x8000_0000 then 0 else 1;
  }

  lemma StepIs(h: int, c: int)
    ensures Wrap(Wrap(h * 32) - h + c) == Wrap(31 * h + c)
  {
    hide Wrap;
    var q := WrapIs(h * 32);
    WrapShift(Wrap(h * 32) - h + c, q);
    assert Wrap(h * 32) - h + c + q * TWO_32 == 31 * h + c;
  }

  lemma {:induction false} ChecksumConcat(a: string, b: string, h: int)
    ensures Checksum(a + b, h) == Checksum(b, Checksum(a, h))
    decreases |a|
  {
    if a == "" {
      assert a + b == b;
    } else {
      assert (a + b)[1..] == a[1..] + b;
      ChecksumConcat(a[1..], b, Wrap(Wrap(h * 32) - h + a[0] as int));
    }
  }

  lemma TwoSteps(h: int, c: int, d: int)
    ensures Wrap(31 * Wrap(31 * h + c) + d) == Wrap(961 * h + 31 * c + d)
  {
  }

  // The script's own hash is not injective: these two texts agree whatever stands around them.
  lemma ChecksumCollides(before: string, after: string)
    ensures before + "Aa" + after != before + "BB" + after
    ensures Checksum(before + "Aa" + after, 0) == Checksum(before + "BB" + after, 0)
  {
    var h := Checksum(before, 0);
    assert (before + "Aa" + after)[|before|] == 'A' && (before + "BB" + after)[|before|] == 'B';
    ChecksumConcat(before + "Aa", after, 0);
    ChecksumConcat(before, "Aa", 0);
    ChecksumConcat(before + "BB", after, 0);
    ChecksumConcat(before, "BB", 0);
    PairIs('A', 'a', h);
    PairIs('B', 'B', h);
  }

  lemma PairIs(c: char, d: char, h: int)
    ensures Checksum([c, d], h) == Wrap(961 * h + 31 * c as int + d as int)
  {
    hide Wrap;
    var w := Wrap(Wrap(h * 32) - h + c as int);
    StepIs(h, c as int);
    StepIs(w, d as int);
    TwoSteps(h, c as int, d as int);
    assert [c, d][1..] == [d] && [d][1..] == "";
    assert Checksum([d], w) == Wrap(Wrap(w * 32) - w + d as int);
  }
}
