/** BLAKE2b with personalization: the in-place mixing and compression of blake2b.go, proved against
    the definitions of RFC 7693, and the algebra of the mixing function. */
module Blake2b {

  type word = bv64
  type byte = bv8

  const IV: seq<word> := [
    0x6a09e667f3bcc908, 0xbb67ae8584caa73b, 0x3c6ef372fe94f82b, 0xa54ff53a5f1d36f1,
    0x510e527fade682d1, 0x9b05688c2b3e6c1f, 0x1f83d9abfb41bd6b, 0x5be0cd19137e2179]

  const SIGMA: seq<seq<nat>> := [
    [0, 1, 2, 3, 4, 5, 6, 7, 8, 9, 10, 11, 12, 13, 14, 15],
    [14, 10, 4, 8, 9, 15, 13, 6, 1, 12, 0, 2, 11, 7, 5, 3],
    [11, 8, 12, 0, 5, 2, 15, 13, 10, 14, 3, 6, 7, 1, 9, 4],
    [7, 9, 3, 1, 13, 12, 11, 14, 2, 6, 5, 10, 4, 0, 15, 8],
    [9, 0, 5, 7, 2, 4, 10, 15, 14, 1, 11, 12, 6, 8, 3, 13],
    [2, 12, 6, 10, 0, 11, 8, 3, 4, 13, 7, 5, 15, 14, 1, 9],
    [12, 5, 1, 15, 14, 13, 4, 10, 0, 7, 6, 3, 9, 2, 8, 11],
    [13, 11, 7, 14, 12, 1, 3, 9, 5, 0, 15, 4, 8, 6, 2, 10],
    [6, 15, 14, 9, 11, 3, 0, 8, 12, 2, 13, 7, 1, 4, 10, 5],
    [10, 2, 8, 4, 7, 6, 1, 5, 15, 11, 9, 14, 3, 12, 13, 0],
    [0, 1, 2, 3, 4, 5, 6, 7, 8, 9, 10, 11, 12, 13, 14, 15],
    [14, 10, 4, 8, 9, 15, 13, 6, 1, 12, 0, 2, 11, 7, 5, 3]]

  // ----- the mixing function G -----

  datatype Quad = Quad(a: word, b: word, c: word, d: word)

  // Words are added modulo 2^64.
  function Add(x: word, y: word): word { x + y }

  function Sub(x: word, y: word): word { x - y }

  // (x ^ y) rotated right by 32, 24, 16 or 63 places: sections 2.1 and 2.3 of RFC 7693.
  function Ror32(x: word): word { (x >> 32) ^ (x << 32) }

  function Ror24(x: word): word { (x >> 24) ^ (x << 40) }

  function Ror16(x: word): word { (x >> 16) ^ (x << 48) }

  function Ror63(x: word): word { (x >> 63) ^ (x << 1) }

  function Turn32(x: word, y: word): word { Ror32(x ^ y) }

  function Turn24(x: word, y: word): word { Ror24(x ^ y) }

  function Turn16(x: word, y: word): word { Ror16(x ^ y) }

  function Turn63(x: word, y: word): word { Ror63(x ^ y) }

  // Section 3.1 of RFC 7693, in four steps.
  function G(q: Quad, x: word, y: word): Quad {
    StirC63(StirA16(StirC24(StirA32(q, x)), y))
  }

  function StirA32(q: Quad, x: word): Quad {
    var a := Add(Add(q.a, q.b), x);
    q.(a := a, d := Turn32(q.d, a))
  }

  function StirC24(q: Quad): Quad {
    var c := Add(q.c, q.d);
    q.(c := c, b := Turn24(q.b, c))
  }

  function StirA16(q: Quad, y: word): Quad {
    var a := Add(Add(q.a, q.b), y);
    q.(a := a, d := Turn16(q.d, a))
  }

  function StirC63(q: Quad): Quad {
    var c := Add(q.c, q.d);
    q.(c := c, b := Turn63(q.b, c))
  }

  // The same steps undone, last first.
  function UnG(q: Quad, x: word, y: word): Quad {
    UnstirA32(UnstirC24(UnstirA16(UnstirC63(q), y)), x)
  }

  function Unturn32(x: word, y: word): word { x.RotateLeft(32) ^ y }

  function Unturn24(x: word, y: word): word { x.RotateLeft(24) ^ y }

  function Unturn16(x: word, y: word): word { x.RotateLeft(16) ^ y }

  function Unturn63(x: word, y: word): word { x.RotateLeft(63) ^ y }

  function UnstirC63(q: Quad): Quad {
    q.(b := Unturn63(q.b, q.c), c := Sub(q.c, q.d))
  }

  function UnstirA16(q: Quad, y: word): Quad {
    q.(d := Unturn16(q.d, q.a), a := Sub(Sub(q.a, y), q.b))
  }

  function UnstirC24(q: Quad): Quad {
    q.(b := Unturn24(q.b, q.c), c := Sub(q.c, q.d))
  }

  function UnstirA32(q: Quad, x: word): Quad {
    q.(d := Unturn32(q.d, q.a), a := Sub(Sub(q.a, x), q.b))
  }

  lemma SumsCancel(x: word, y: word)
    ensures Sub(Add(x, y), y) == x
    ensures Add(Sub(x, y), y) == x
  {
    calc { Sub(Add(x, y), y); Sub(x + y, y); x + y - y; x; }
    calc { Add(Sub(x, y), y); Add(x - y, y); x - y + y; x; }
  }

  lemma Turn32Cancels(x: word, y: word)
    ensures Unturn32(Turn32(x, y), y) == x
    ensures Turn32(Unturn32(x, y), y) == x
  {
  }

  lemma Turn24Cancels(x: word, y: word)
    ensures Unturn24(Turn24(x, y), y) == x
    ensures Turn24(Unturn24(x, y), y) == x
  {
  }

  lemma Turn16Cancels(x: word, y: word)
    ensures Unturn16(Turn16(x, y), y) == x
    ensures Turn16(Unturn16(x, y), y) == x
  {
  }

  lemma Turn63Cancels(x: word, y: word)
    ensures Unturn63(Turn63(x, y), y) == x
    ensures Turn63(Unturn63(x, y), y) == x
  {
  }

  lemma UnstirStir(q: Quad, x: word)
    ensures UnstirC63(StirC63(q)) == q && UnstirA16(StirA16(q, x), x) == q
    ensures UnstirC24(StirC24(q)) == q && UnstirA32(StirA32(q, x), x) == q
  {
    hide Add, Sub, Turn32, Turn24, Turn16, Turn63, Unturn32, Unturn24, Unturn16, Unturn63;
    var a, c := Add(Add(q.a, q.b), x), Add(q.c, q.d);
    Turn63Cancels(q.b, c);
    Turn24Cancels(q.b, c);
    Turn16Cancels(q.d, a);
    Turn32Cancels(q.d, a);
    SumsCancel(q.c, q.d);
    SumsCancel(q.a, q.b);
    SumsCancel(Add(q.a, q.b), x);
  }

  lemma StirUnstir(q: Quad, x: word)
    ensures StirC63(UnstirC63(q)) == q && StirA16(UnstirA16(q, x), x) == q
    ensures StirC24(UnstirC24(q)) == q && StirA32(UnstirA32(q, x), x) == q
  {
    hide Add, Sub, Turn32, Turn24, Turn16, Turn63, Unturn32, Unturn24, Unturn16, Unturn63;
    Turn63Cancels(q.b, q.c);
    Turn24Cancels(q.b, q.c);
    Turn16Cancels(q.d, q.a);
    Turn32Cancels(q.d, q.a);
    SumsCancel(q.c, q.d);
    SumsCancel(q.a, x);
    SumsCancel(Sub(q.a, x), q.b);
  }

  // For fixed message words G permutes the states of its four words.
  lemma GBijective(q: Quad, x: word, y: word)
    ensures UnG(G(q, x, y), x, y) == q
    ensures G(UnG(q, x, y), x, y) == q
  {
    hide StirA32, StirC24, StirA16, StirC63, UnstirA32, UnstirC24, UnstirA16, UnstirC63;
    UnstirStir(q, x);
    UnstirStir(StirA32(q, x), y);
    UnstirStir(StirC24(StirA32(q, x)), y);
    UnstirStir(StirA16(StirC24(StirA32(q, x)), y), y);
    StirUnstir(q, y);
    StirUnstir(UnstirC63(q), y);
    StirUnstir(UnstirA16(UnstirC63(q), y), x);
    StirUnstir(UnstirC24(UnstirA16(UnstirC63(q), y)), x);
  }

  // ----- mixing inside the sixteen-word state -----

  datatype Lane = Lane(a: nat, b: nat, c: nat, d: nat) {
    predicate Valid() {
      a < 16 && b < 16 && c < 16 && d < 16 &&
      a != b && a != c && a != d && b != c && b != d && c != d
    }

    function Cells(): set<nat> { {a, b, c, d} }

    function Load(v: seq<word>): Quad
      requires Valid() && |v| == 16
    {
      Quad(v[a], v[b], v[c], v[d])
    }

    function Store(v: seq<word>, q: Quad): (r: seq<word>)
      requires Valid() && |v| == 16
      ensures |r| == 16
    {
      v[a := q.a][b := q.b][c := q.c][d := q.d]
    }

    lemma StoreAt(v: seq<word>, q: Quad, i: nat)
      requires Valid() && |v| == 16 && i < 16
      ensures Store(v, q)[i] ==
        if i == a then q.a else if i == b then q.b else if i == c then q.c else if i == d then q.d else v[i]
    {
    }

    lemma StoredIn(v: seq<word>, q: Quad, w: seq<word>)
      requires Valid() && |v| == 16 && |w| == 16 && Load(w) == q
      requires forall i :: 0 <= i < 16 && i != a && i != b && i != c && i != d ==> w[i] == v[i]
      ensures w == Store(v, q)
    {
    }

    lemma StoreLoad(v: seq<word>, q: Quad)
      requires Valid() && |v| == 16
      ensures Load(Store(v, q)) == q
      ensures forall p: Quad :: Store(Store(v, p), q) == Store(v, q)
      ensures Store(v, Load(v)) == v
    {
      StoreAt(v, q, a); StoreAt(v, q, b); StoreAt(v, q, c); StoreAt(v, q, d);
      forall p: Quad ensures Store(Store(v, p), q) == Store(v, q) {
        forall i | 0 <= i < 16 ensures Store(Store(v, p), q)[i] == Store(v, q)[i] {
          StoreAt(v, p, i); StoreAt(Store(v, p), q, i); StoreAt(v, q, i);
        }
      }
      forall i | 0 <= i < 16 ensures Store(v, Load(v))[i] == v[i] {
        StoreAt(v, Load(v), i);
      }
    }
  }

  // The four columns and the four wrapped diagonals of the 4 by 4 state.
  function Column(i: nat): Lane { Lane(i, 4 + i, 8 + i, 12 + i) }

  function Diagonal(i: nat): Lane { Lane(i, 4 + (i + 1) % 4, 8 + (i + 2) % 4, 12 + (i + 3) % 4) }

  datatype Mix = Mix(lane: Lane, x: word, y: word)

  function Apply(v: seq<word>, m: Mix): (r: seq<word>)
    requires |v| == 16 && m.lane.Valid()
    ensures |r| == 16
  {
    m.lane.Store(v, G(m.lane.Load(v), m.x, m.y))
  }

  function Unapply(v: seq<word>, m: Mix): (r: seq<word>)
    requires |v| == 16 && m.lane.Valid()
    ensures |r| == 16
  {
    m.lane.Store(v, UnG(m.lane.Load(v), m.x, m.y))
  }

  lemma ApplyBijective(v: seq<word>, m: Mix)
    requires |v| == 16 && m.lane.Valid()
    ensures Unapply(Apply(v, m), m) == v
    ensures Apply(Unapply(v, m), m) == v
  {
    hide G, UnG, Lane.Store, Lane.Load;
    var q := m.lane.Load(v);
    GBijective(q, m.x, m.y);
    m.lane.StoreLoad(v, G(q, m.x, m.y));
    m.lane.StoreLoad(v, UnG(q, m.x, m.y));
    m.lane.StoreLoad(v, q);
  }

  predicate ValidMixes(ms: seq<Mix>) {
    forall i :: 0 <= i < |ms| ==> ms[i].lane.Valid()
  }

  // Any sequence of mixings, first to last.
  function ApplyAll(v: seq<word>, ms: seq<Mix>): (r: seq<word>)
    requires |v| == 16 && ValidMixes(ms)
    ensures |r| == 16
    decreases ms
  {
    if ms == [] then v else ApplyAll(Apply(v, ms[0]), ms[1..])
  }

  function UnapplyAll(v: seq<word>, ms: seq<Mix>): (r: seq<word>)
    requires |v| == 16 && ValidMixes(ms)
    ensures |r| == 16
    decreases ms
  {
    if ms == [] then v else Unapply(UnapplyAll(v, ms[1..]), ms[0])
  }

  lemma {:induction false} ApplyAllBijective(v: seq<word>, ms: seq<Mix>)
    requires |v| == 16 && ValidMixes(ms)
    ensures UnapplyAll(ApplyAll(v, ms), ms) == v
    ensures ApplyAll(UnapplyAll(v, ms), ms) == v
    decreases ms
  {
    hide Apply, Unapply;
    if ms != [] {
      ApplyAllBijective(Apply(v, ms[0]), ms[1..]);
      ApplyBijective(v, ms[0]);
      ApplyAllBijective(v, ms[1..]);
      ApplyBijective(UnapplyAll(v, ms[1..]), ms[0]);
    }
  }

  lemma {:induction false} ApplyAllConcat(v: seq<word>, ms: seq<Mix>, ns: seq<Mix>)
    requires |v| == 16 && ValidMixes(ms) && ValidMixes(ns)
    ensures ValidMixes(ms + ns)
    ensures ApplyAll(v, ms + ns) == ApplyAll(ApplyAll(v, ms), ns)
    decreases ms
  {
    hide Apply;
    if ms == [] {
      assert ms + ns == ns;
    } else {
      assert (ms + ns)[1..] == ms[1..] + ns;
      ApplyAllConcat(Apply(v, ms[0]), ms[1..], ns);
    }
  }

  lemma DisjointMixesCommute(v: seq<word>, m: Mix, n: Mix)
    requires |v| == 16 && m.lane.Valid() && n.lane.Valid()
    requires m.lane.Cells() !! n.lane.Cells()
    ensures Apply(Apply(v, m), n) == Apply(Apply(v, n), m)
  {
    hide G, Lane.Store;
    var k, l := m.lane, n.lane;
    assert k.a in k.Cells() && k.b in k.Cells() && k.c in k.Cells() && k.d in k.Cells();
    assert l.a in l.Cells() && l.b in l.Cells() && l.c in l.Cells() && l.d in l.Cells();
    var p, q := G(k.Load(v), m.x, m.y), G(l.Load(v), n.x, n.y);
    forall i | 0 <= i < 16
      ensures i !in k.Cells() ==> k.Store(v, p)[i] == v[i]
      ensures i !in l.Cells() ==> l.Store(v, q)[i] == v[i]
      ensures l.Store(k.Store(v, p), q)[i] == k.Store(l.Store(v, q), p)[i]
    {
      k.StoreAt(v, p, i); l.StoreAt(v, q, i);
      l.StoreAt(k.Store(v, p), q, i); k.StoreAt(l.Store(v, q), p, i);
    }
    assert l.Load(k.Store(v, p)) == l.Load(v) && k.Load(l.Store(v, q)) == k.Load(v);
  }

  ghost predicate PairwiseDisjoint(ms: seq<Mix>) {
    forall i, j :: 0 <= i < j < |ms| ==> ms[i].lane.Cells() !! ms[j].lane.Cells()
  }

  // A mixing disjoint from all before it may be moved to the front.
  lemma {:induction false} MoveToFront(v: seq<word>, ms: seq<Mix>, k: nat)
    requires |v| == 16 && ValidMixes(ms) && PairwiseDisjoint(ms) && k < |ms|
    ensures ApplyAll(v, ms) == ApplyAll(Apply(v, ms[k]), ms[..k] + ms[k + 1..])
    decreases k
  {
    hide Apply;
    if k == 0 {
      assert ms[..0] + ms[1..] == ms[1..];
    } else {
      var rest := ms[1..];
      MoveToFront(Apply(v, ms[0]), rest, k - 1);
      DisjointMixesCommute(v, ms[0], ms[k]);
      var moved := ms[..k] + ms[k + 1..];
      assert moved[1..] == rest[..k - 1] + rest[k..];
      assert moved[0] == ms[0];
    }
  }

  // The order of mixings on pairwise disjoint lanes does not matter.
  lemma {:induction false} OrderOfMixes(v: seq<word>, ms: seq<Mix>, ns: seq<Mix>)
    requires |v| == 16 && ValidMixes(ms) && ValidMixes(ns) && PairwiseDisjoint(ms)
    requires multiset(ms) == multiset(ns)
    ensures ApplyAll(v, ms) == ApplyAll(v, ns)
    decreases ms
  {
    hide Apply;
    if ns == [] {
      assert |multiset(ms)| == |ms|;
    } else {
      assert ns[0] in multiset(ns) && ns[0] in ms;
      var k :| 0 <= k < |ms| && ms[k] == ns[0];
      MoveToFront(v, ms, k);
      WithoutFirst(ms, ns, k);
      OrderOfMixes(Apply(v, ns[0]), ms[..k] + ms[k + 1..], ns[1..]);
    }
  }

  lemma WithoutFirst<T>(ms: seq<T>, ns: seq<T>, k: nat)
    requires multiset(ms) == multiset(ns) && ns != [] && k < |ms| && ms[k] == ns[0]
    ensures multiset(ms[..k] + ms[k + 1..]) == multiset(ns[1..])
  {
    assert ms == ms[..k] + [ms[k]] + ms[k + 1..];
    assert ns == [ns[0]] + ns[1..];
    assert multiset(ms[..k] + ms[k + 1..]) == multiset(ms) - multiset{ms[k]};
    assert multiset(ns[1..]) == multiset(ns) - multiset{ns[0]};
  }

  // ----- the compression function F, section 3.2 of RFC 7693 -----

  predicate Schedule(s: seq<nat>) {
    |s| == 16 && forall i :: 0 <= i < 16 ==> s[i] < 16
  }

  function Columns(s: seq<nat>, m: seq<word>): (ms: seq<Mix>)
    requires Schedule(s) && |m| == 16
    ensures |ms| == 4 && ValidMixes(ms)
  {
    seq(4, i requires 0 <= i < 4 => Mix(Column(i), m[s[2 * i]], m[s[2 * i + 1]]))
  }

  function Diagonals(s: seq<nat>, m: seq<word>): (ms: seq<Mix>)
    requires Schedule(s) && |m| == 16
    ensures |ms| == 4 && ValidMixes(ms)
  {
    seq(4, i requires 0 <= i < 4 => Mix(Diagonal(i), m[s[8 + 2 * i]], m[s[9 + 2 * i]]))
  }

  // The message schedule has ten rows; round i uses row i mod 10.
  function Row(i: nat): seq<nat> { SIGMA[i % 10] }

  lemma RowsAreSchedules(i: nat)
    ensures Schedule(Row(i))
  {
    assert i % 10 in {0, 1, 2, 3, 4, 5, 6, 7, 8, 9};
  }

  function MixesOfRounds(n: nat, m: seq<word>): (ms: seq<Mix>)
    requires |m| == 16
    ensures ValidMixes(ms) && |ms| == 8 * n
  {
    if n == 0 then []
    else
      RowsAreSchedules(n - 1);
      MixesOfRounds(n - 1, m) + (Columns(Row(n - 1), m) + Diagonals(Row(n - 1), m))
  }

  const TWO64: nat := 0x1_0000_0000_0000_0000

  // The low and the high word of the byte counter.
  function Low(t: nat): word { (t % TWO64) as word }

  function High(t: nat): word { (t / TWO64 % TWO64) as word }

  function Xor(x: word, y: word): word { x ^ y }

  const ONES: word := 0xffff_ffff_ffff_ffff

  function Start(h: seq<word>, t: nat, last: bool): (v: seq<word>)
    requires |h| == 8
    ensures |v| == 16
  {
    h + IV[..4] + [Xor(IV[4], Low(t)), Xor(IV[5], High(t)), if last then Xor(IV[6], ONES) else IV[6], IV[7]]
  }

  function F(h: seq<word>, m: seq<word>, t: nat, last: bool): (r: seq<word>)
    requires |h| == 8 && |m| == 16
    ensures |r| == 8
  {
    Feed(h, ApplyAll(Start(h, t, last), MixesOfRounds(12, m)))
  }

  function Feed(h: seq<word>, v: seq<word>): (r: seq<word>)
    requires |h| == 8 && |v| == 16
    ensures |r| == 8
  {
    seq(8, i requires 0 <= i < 8 => Xor(Xor(h[i], v[i]), v[i + 8]))
  }

  // For a fixed block, the twelve rounds permute the sixteen-word states.
  lemma RoundsArePermutation(v: seq<word>, m: seq<word>)
    requires |v| == 16 && |m| == 16
    ensures UnapplyAll(ApplyAll(v, MixesOfRounds(12, m)), MixesOfRounds(12, m)) == v
    ensures ApplyAll(UnapplyAll(v, MixesOfRounds(12, m)), MixesOfRounds(12, m)) == v
  {
    ApplyAllBijective(v, MixesOfRounds(12, m));
  }

  lemma CellsAreDisjoint(i: nat, j: nat)
    requires i < j < 4
    ensures Column(i).Cells() !! Column(j).Cells() && Diagonal(i).Cells() !! Diagonal(j).Cells()
  {
  }

  lemma LanesAreDisjoint(s: seq<nat>, m: seq<word>)
    requires Schedule(s) && |m| == 16
    ensures PairwiseDisjoint(Columns(s, m)) && PairwiseDisjoint(Diagonals(s, m))
  {
    assert forall i :: 0 <= i < 4 ==> Columns(s, m)[i].lane == Column(i) && Diagonals(s, m)[i].lane == Diagonal(i);
    hide Columns, Diagonals, Column, Diagonal, Schedule, ValidMixes, Lane.Cells, Lane.Valid;
    forall i, j | 0 <= i < j < 4
      ensures Columns(s, m)[i].lane.Cells() !! Columns(s, m)[j].lane.Cells()
      ensures Diagonals(s, m)[i].lane.Cells() !! Diagonals(s, m)[j].lane.Cells()
    {
      CellsAreDisjoint(i, j);
    }
  }

  // Within a round the four column mixings may run in any order, and so may the four diagonal ones.
  lemma ColumnsInAnyOrder(v: seq<word>, s: seq<nat>, m: seq<word>, cs: seq<Mix>, ds: seq<Mix>)
    requires |v| == 16 && Schedule(s) && |m| == 16 && ValidMixes(cs) && ValidMixes(ds)
    requires multiset(cs) == multiset(Columns(s, m)) && multiset(ds) == multiset(Diagonals(s, m))
    ensures ApplyAll(ApplyAll(v, cs), ds) == ApplyAll(v, Columns(s, m) + Diagonals(s, m))
  {
    hide Apply, ApplyAll, Columns, Diagonals;
    LanesAreDisjoint(s, m);
    OrderOfMixes(v, Columns(s, m), cs);
    OrderOfMixes(ApplyAll(v, cs), Diagonals(s, m), ds);
    ApplyAllConcat(v, Columns(s, m), Diagonals(s, m));
  }

  // ----- blake2bG, blake2bCompress and blake2bPersonalSum, in place -----

  // Go's bits.RotateLeft64(x ^ y, -n) rotates left by 64 - n places.
  function Rotate32(x: word, y: word): word { (x ^ y).RotateLeft(32) }

  function Rotate24(x: word, y: word): word { (x ^ y).RotateLeft(40) }

  function Rotate16(x: word, y: word): word { (x ^ y).RotateLeft(48) }

  function Rotate63(x: word, y: word): word { (x ^ y).RotateLeft(1) }

  lemma Rotate32Agrees(x: word, y: word)
    ensures Rotate32(x, y) == Turn32(x, y)
  {
  }

  lemma Rotate24Agrees(x: word, y: word)
    ensures Rotate24(x, y) == Turn24(x, y)
  {
  }

  lemma Rotate16Agrees(x: word, y: word)
    ensures Rotate16(x, y) == Turn16(x, y)
  {
  }

  lemma Rotate63Agrees(x: word, y: word)
    ensures Rotate63(x, y) == Turn63(x, y)
  {
  }

  method MixInPlace(v: array<word>, a: nat, b: nat, c: nat, d: nat, x: word, y: word)
    requires v.Length == 16 && Lane(a, b, c, d).Valid()
    modifies v
    ensures v[..] == Apply(old(v[..]), Mix(Lane(a, b, c, d), x, y))
  {
    hide Add, Turn32, Turn24, Turn16, Turn63, Rotate32, Rotate24, Rotate16, Rotate63, Lane.Store;
    ghost var lane := Lane(a, b, c, d);
    ghost var v0 := v[..];
    v[a] := Add(Add(v[a], v[b]), x);
    Rotate32Agrees(v[d], v[a]);
    v[d] := Rotate32(v[d], v[a]);
    v[c] := Add(v[c], v[d]);
    Rotate24Agrees(v[b], v[c]);
    v[b] := Rotate24(v[b], v[c]);
    v[a] := Add(Add(v[a], v[b]), y);
    Rotate16Agrees(v[d], v[a]);
    v[d] := Rotate16(v[d], v[a]);
    v[c] := Add(v[c], v[d]);
    Rotate63Agrees(v[b], v[c]);
    v[b] := Rotate63(v[b], v[c]);
    ghost var q := G(lane.Load(v0), x, y);
    assert lane.Load(v[..]) == q;
    lane.StoredIn(v0, q, v[..]);
  }

  // ----- bytes and words, little-endian -----

  function LeWord(b: seq<byte>): word
    requires |b| == 8
  {
    b[0] as word | (b[1] as word << 8) | (b[2] as word << 16) | (b[3] as word << 24) |
    (b[4] as word << 32) | (b[5] as word << 40) | (b[6] as word << 48) | (b[7] as word << 56)
  }

  function LeBytes(w: word): (b: seq<byte>)
    ensures |b| == 8
  {
    [(w & 0xff) as byte, ((w >> 8) & 0xff) as byte, ((w >> 16) & 0xff) as byte, ((w >> 24) & 0xff) as byte,
     ((w >> 32) & 0xff) as byte, ((w >> 40) & 0xff) as byte, ((w >> 48) & 0xff) as byte, ((w >> 56) & 0xff) as byte]
  }

  lemma LeWordOfLeBytes(w: word)
    ensures LeWord(LeBytes(w)) == w
  {
  }

  lemma LeBytesOfLeWord(b: seq<byte>)
    requires |b| == 8
    ensures LeBytes(LeWord(b)) == b
  {
  }

  function Words(block: seq<byte>): (m: seq<word>)
    requires |block| == 128
    ensures |m| == 16
  {
    seq(16, i requires 0 <= i < 16 => LeWord(block[8 * i..8 * i + 8]))
  }

  function Bytes(ws: seq<word>): (b: seq<byte>)
    ensures |b| == 8 * |ws|
  {
    if ws == [] then [] else Bytes(ws[..|ws| - 1]) + LeBytes(ws[|ws| - 1])
  }

  lemma RowOfCode(r: nat)
    requires r < 12
    ensures SIGMA[r] == Row(r) && Schedule(SIGMA[r])
  {
    RowsAreSchedules(r);
    assert SIGMA[10] == SIGMA[0] && SIGMA[11] == SIGMA[1];
  }

  lemma Unroll4(v: seq<word>, ms: seq<Mix>)
    requires |v| == 16 && ValidMixes(ms) && |ms| == 4
    ensures ApplyAll(v, ms) == Apply(Apply(Apply(Apply(v, ms[0]), ms[1]), ms[2]), ms[3])
  {
    hide Apply;
    var v1 := Apply(v, ms[0]);
    var v2 := Apply(v1, ms[1]);
    assert ms[1..][1..] == ms[2..] && ms[2..][1..] == ms[3..] && ms[3..][1..] == [];
    var v3 := Apply(v2, ms[2]);
    assert ApplyAll(v3, ms[3..]) == ApplyAll(Apply(v3, ms[3]), ms[3..][1..]) == Apply(v3, ms[3]);
    assert ApplyAll(v2, ms[2..]) == ApplyAll(v3, ms[3..]);
    assert ApplyAll(v1, ms[1..]) == ApplyAll(v2, ms[2..]);
  }

  method ColumnsInPlace(v: array<word>, s: seq<nat>, m: array<word>)
    requires v.Length == 16 && m.Length == 16 && v != m && Schedule(s)
    modifies v
    ensures v[..] == ApplyAll(old(v[..]), Columns(s, m[..]))
  {
    hide Apply, ApplyAll;
    ghost var v0, cs := v[..], Columns(s, m[..]);
    MixInPlace(v, 0, 4, 8, 12, m[s[0]], m[s[1]]);
    MixInPlace(v, 1, 5, 9, 13, m[s[2]], m[s[3]]);
    MixInPlace(v, 2, 6, 10, 14, m[s[4]], m[s[5]]);
    MixInPlace(v, 3, 7, 11, 15, m[s[6]], m[s[7]]);
    Unroll4(v0, cs);
  }

  method DiagonalsInPlace(v: array<word>, s: seq<nat>, m: array<word>)
    requires v.Length == 16 && m.Length == 16 && v != m && Schedule(s)
    modifies v
    ensures v[..] == ApplyAll(old(v[..]), Diagonals(s, m[..]))
  {
    hide Apply, ApplyAll;
    ghost var v0, ds := v[..], Diagonals(s, m[..]);
    MixInPlace(v, 0, 5, 10, 15, m[s[8]], m[s[9]]);
    MixInPlace(v, 1, 6, 11, 12, m[s[10]], m[s[11]]);
    MixInPlace(v, 2, 7, 8, 13, m[s[12]], m[s[13]]);
    MixInPlace(v, 3, 4, 9, 14, m[s[14]], m[s[15]]);
    Unroll4(v0, ds);
  }

  method RoundInPlace(v: array<word>, s: seq<nat>, m: array<word>)
    requires v.Length == 16 && m.Length == 16 && v != m && Schedule(s)
    modifies v
    ensures v[..] == ApplyAll(old(v[..]), Columns(s, m[..]) + Diagonals(s, m[..]))
  {
    hide Apply, ApplyAll, Columns, Diagonals;
    ghost var v0 := v[..];
    ColumnsInPlace(v, s, m);
    DiagonalsInPlace(v, s, m);
    ApplyAllConcat(v0, Columns(s, m[..]), Diagonals(s, m[..]));
  }

  method LoadWords(block: seq<byte>) returns (m: array<word>)
    requires |block| == 128
    ensures fresh(m) && m.Length == 16 && m[..] == Words(block)
  {
    hide LeWord;
    m := new word[16];
    for i := 0 to 16
      invariant forall j :: 0 <= j < i ==> m[j] == Words(block)[j]
    {
      m[i] := LeWord(block[8 * i..8 * i + 8]);
    }
  }

  method InitialState(h: array<word>, t: nat, last: bool) returns (v: array<word>)
    requires h.Length == 8 && t < TWO64
    ensures fresh(v) && v.Length == 16 && v[..] == Start(h[..], t, last)
  {
    hide Low, High, Xor;
    v := new word[16];
    for i := 0 to 8
      invariant forall j :: 0 <= j < i ==> v[j] == h[j] && v[8 + j] == IV[j]
    {
      v[i] := h[i];
      v[8 + i] := IV[i];
    }
    v[12] := Xor(v[12], Low(t));
    if last {
      v[14] := Xor(v[14], ONES);
    }
    NoHighWord(t);
  }

  lemma NoHighWord(t: nat)
    requires t < TWO64
    ensures Xor(IV[5], High(t)) == IV[5]
  {
    HighIsZero(t);
    hide High, IV;
    XorZero(IV[5]);
  }

  lemma HighIsZero(t: nat)
    requires t < TWO64
    ensures High(t) == 0
  {
    assert t / TWO64 == 0;
    assert 0 % TWO64 == 0;
  }

  lemma XorZero(x: word)
    ensures Xor(x, 0) == x
  {
  }

  method FeedForward(h: array<word>, v: array<word>)
    requires h.Length == 8 && v.Length == 16 && h != v
    modifies h
    ensures h[..] == Feed(old(h[..]), v[..])
  {
    hide Xor;
    ghost var h0 := h[..];
    for i := 0 to 8
      invariant forall j :: 0 <= j < i ==> h[j] == Feed(h0, v[..])[j]
      invariant forall j :: i <= j < 8 ==> h[j] == h0[j]
    {
      XorAssociates(h[i], v[i], v[i + 8]);
      h[i] := Xor(h[i], Xor(v[i], v[i + 8]));
    }
  }

  lemma XorAssociates(x: word, y: word, z: word)
    ensures Xor(x, Xor(y, z)) == Xor(Xor(x, y), z)
  {
  }

  // The counter t is a single 64-bit word here; the high word of the RFC's counter is zero.
  method CompressInPlace(h: array<word>, block: seq<byte>, t: nat, last: bool)
    requires h.Length == 8 && |block| == 128 && t < TWO64
    modifies h
    ensures h[..] == F(old(h[..]), Words(block), t, last)
  {
    hide ApplyAll, MixesOfRounds, Columns, Diagonals, Start, Feed;
    var m := LoadWords(block);
    var v := InitialState(h, t, last);
    ghost var h0, v0 := h[..], v[..];
    FirstRounds(v0, m[..]);
    for r := 0 to 12
      invariant m[..] == Words(block) && h[..] == h0
      invariant v[..] == ApplyAll(v0, MixesOfRounds(r, Words(block)))
    {
      RowOfCode(r);
      RoundInPlace(v, SIGMA[r], m);
      NextRound(v0, Words(block), r);
    }
    FeedForward(h, v);
  }

  lemma FirstRounds(v: seq<word>, m: seq<word>)
    requires |v| == 16 && |m| == 16
    ensures ApplyAll(v, MixesOfRounds(0, m)) == v
  {
  }

  lemma NextRound(v: seq<word>, m: seq<word>, r: nat)
    requires |v| == 16 && |m| == 16 && Schedule(Row(r))
    ensures ApplyAll(ApplyAll(v, MixesOfRounds(r, m)), Columns(Row(r), m) + Diagonals(Row(r), m))
         == ApplyAll(v, MixesOfRounds(r + 1, m))
  {
    hide ApplyAll, Columns, Diagonals;
    ApplyAllConcat(v, MixesOfRounds(r, m), Columns(Row(r), m) + Diagonals(Row(r), m));
  }

  // ----- the hash, section 3.3 of RFC 7693 (unkeyed) -----

  function Padded(b: seq<byte>, n: nat): (r: seq<byte>)
    ensures |r| == n
  {
    seq(n, i requires 0 <= i < n => if i < |b| then b[i] else 0)
  }

  // The number dd of data blocks, at least one, and block d[i] padded with zeros.
  function BlockCount(data: seq<byte>): nat {
    if data == [] then 1 else (|data| + 127) / 128
  }

  function Block(data: seq<byte>, i: nat): (b: seq<byte>)
    requires i < BlockCount(data)
    ensures |b| == 128
  {
    Padded(data[128 * i..], 128)
  }

  // Read in order, the blocks are the data followed by less than one block of zeros
  // (exactly one block of zeros when there is no data).
  lemma BlocksSpellData(data: seq<byte>, k: nat)
    requires k < 128 * BlockCount(data)
    ensures Block(data, k / 128)[k % 128] == if k < |data| then data[k] else 0
    ensures 128 * (BlockCount(data) - 1) < |data| <= 128 * BlockCount(data) || data == []
  {
    assert k == 128 * (k / 128) + k % 128;
  }

  // Word 0 of the parameter block is 0x0101kknn; words 6 and 7 hold the personalization.
  function Parameters(person: seq<byte>, size: byte): (h: seq<word>)
    ensures |h| == 8
  {
    var p := Padded(person, 16);
    [Xor(IV[0], 0x0101_0000 ^ size as word)] + IV[1..6] + [Xor(IV[6], LeWord(p[..8])), Xor(IV[7], LeWord(p[8..]))]
  }

  // The state after the first n of the blocks that are not the last.
  function Chain(h: seq<word>, data: seq<byte>, n: nat): (r: seq<word>)
    requires |h| == 8 && n < BlockCount(data)
    ensures |r| == 8
  {
    if n == 0 then h else F(Chain(h, data, n - 1), Words(Block(data, n - 1)), n * 128, false)
  }

  function Digest(data: seq<byte>, person: seq<byte>, size: byte): (d: seq<byte>)
    requires 1 <= size <= 64
    ensures |d| == size as nat
  {
    var last := BlockCount(data) - 1;
    var h := F(Chain(Parameters(person, size), data, last), Words(Block(data, last)), |data|, true);
    Bytes(h)[..size as nat]
  }

  lemma ParameterWord(size: byte)
    requires size <= 64
    ensures Xor(IV[0], (size as word) | (1 << 16) | (1 << 24)) == Xor(IV[0], 0x0101_0000 ^ size as word)
  {
  }

  // All blocks but the last.
  method FullBlocks(h: array<word>, data: seq<byte>) returns (counter: nat, full: nat)
    requires h.Length == 8 && |data| < TWO64
    modifies h
    ensures full == BlockCount(data) - 1 && counter == 128 * full && h[..] == Chain(old(h[..]), data, full)
  {
    hide F;
    ghost var h0 := h[..];
    counter, full := 0, 0;
    if |data| > 0 {
      full := (|data| - 1) / 128;
    }
    for i := 0 to full
      invariant counter == 128 * i
      invariant h[..] == Chain(h0, data, i)
    {
      counter := (counter + 128) % TWO64;
      assert data[i * 128..(i + 1) * 128] == Block(data, i);
      CompressInPlace(h, data[i * 128..(i + 1) * 128], counter, false);
    }
  }

  method ParameterState(person: seq<byte>, size: byte) returns (h: array<word>)
    requires size <= 64
    ensures fresh(h) && h.Length == 8 && h[..] == Parameters(person, size)
  {
    hide Padded, LeWord, Xor;
    var p := Padded(person, 16);
    h := new word[8](i requires 0 <= i < 8 => IV[i]);
    ParameterWord(size);
    h[0] := Xor(h[0], (size as word) | (1 << 16) | (1 << 24));
    h[6] := Xor(h[6], LeWord(p[..8]));
    h[7] := Xor(h[7], LeWord(p[8..]));
  }

  method WriteWords(h: array<word>) returns (out: seq<byte>)
    requires h.Length == 8
    ensures out == Bytes(h[..])
  {
    hide LeBytes;
    out := [];
    for i := 0 to 8
      invariant out == Bytes(h[..i])
    {
      assert h[..i + 1][..i] == h[..i];
      out := out + LeBytes(h[i]);
    }
    assert h[..8] == h[..];
  }

  method PersonalSum(data: seq<byte>, person: seq<byte>, size: byte) returns (out: seq<byte>)
    requires 1 <= size <= 64 && |data| < TWO64
    ensures out == Digest(data, person, size)
  {
    hide F, Chain, Padded, Parameters, Words, Bytes, IV;
    var h := ParameterState(person, size);
    var counter, full := FullBlocks(h, data);
    var rem := data[full * 128..];
    var fb := Padded(rem, 128);
    counter := (counter + |rem|) % TWO64;
    assert counter == |data|;
    CompressInPlace(h, fb, counter, true);
    out := WriteWords(h);
    out := out[..size as nat];
  }
}
