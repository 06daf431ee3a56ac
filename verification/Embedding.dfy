/** Hashed bag-of-tokens embeddings, their similarity, and the choice of matching memories:
    ai_helper_context.go, over the real numbers. */
module Embedding {
  import opened Ordering

  const DIMENSIONS := 128

  type Bucket = n: nat | n < 128

  type Vector = seq<real>

  // Library code: SHA-256 of a token modulo the dimensions, and the square root.
  datatype Library = Library(bucket: string -> Bucket, sqrt: real -> real)

  ghost predicate SquareRoots(lib: Library) { forall x :: Roots(lib.sqrt, x) }

  predicate Roots(sqrt: real -> real, x: real) { x >= 0.0 ==> sqrt(x) >= 0.0 && sqrt(x) * sqrt(x) == x }

  // ----- vectors -----

  function Zeros(n: nat): (v: Vector)
    ensures |v| == n && forall i :: 0 <= i < n ==> v[i] == 0.0
  {
    seq(n, i => 0.0)
  }

  function DotTo(a: Vector, b: Vector, n: nat): real
    requires n <= |a| && n <= |b|
  {
    if n == 0 then 0.0 else DotTo(a, b, n - 1) + a[n - 1] * b[n - 1]
  }

  // cosineSimilarity: over the shared prefix.
  function Dot(a: Vector, b: Vector): real { DotTo(a, b, if |a| < |b| then |a| else |b|) }

  function Scale(v: Vector, length: real): (r: Vector)
    requires length != 0.0
    ensures |r| == |v| && forall i :: 0 <= i < |v| ==> r[i] == v[i] / length
  {
    seq(|v|, i requires 0 <= i < |v| => v[i] / length)
  }

  // How many tokens fall into each bucket.
  function Counts(tokens: seq<string>, lib: Library): (v: Vector)
    ensures |v| == DIMENSIONS && forall i :: 0 <= i < |v| ==> v[i] >= 0.0
  {
    if tokens == [] then Zeros(DIMENSIONS)
    else
      var front, at := Counts(tokens[..|tokens| - 1], lib), lib.bucket(tokens[|tokens| - 1]);
      front[at := front[at] + 1.0]
  }

  function Embed(tokens: seq<string>, lib: Library): (v: Vector)
    ensures |v| == DIMENSIONS
  {
    var c := Counts(tokens, lib);
    var norm := lib.sqrt(DotTo(c, c, DIMENSIONS));
    if tokens == [] || norm <= 0.0 then c else Scale(c, norm)
  }

  method TextEmbedding(tokens: seq<string>, lib: Library) returns (embedding: Vector)
    ensures embedding == Embed(tokens, lib)
  {
    var vec := new real[DIMENSIONS](i => 0.0);
    if tokens == [] {
      assert vec[..] == Zeros(DIMENSIONS);
      return vec[..];
    }
    assert vec[..] == Counts(tokens[..0], lib);
    for n := 0 to |tokens|
      invariant vec[..] == Counts(tokens[..n], lib)
    {
      assert tokens[..n + 1][..n] == tokens[..n];
      var idx := lib.bucket(tokens[n]);
      vec[idx] := vec[idx] + 1.0;
    }
    assert tokens[..|tokens|] == tokens;
    ghost var c := Counts(tokens, lib);
    var norm := 0.0;
    for i := 0 to DIMENSIONS
      invariant vec[..] == c && norm == DotTo(c, c, i)
    {
      norm := norm + vec[i] * vec[i];
    }
    norm := lib.sqrt(norm);
    if norm <= 0.0 {
      return vec[..];
    }
    for i := 0 to DIMENSIONS
      invariant forall j :: 0 <= j < DIMENSIONS ==> vec[j] == if j < i then c[j] / norm else c[j]
    {
      vec[i] := vec[i] / norm;
    }
    assert vec[..] == Scale(c, norm);
    embedding := vec[..];
  }

  method CosineSimilarity(a: Vector, b: Vector) returns (sum: real)
    ensures sum == Dot(a, b)
  {
    if a == [] || b == [] {
      return 0.0;
    }
    var n := if |b| < |a| then |b| else |a|;
    sum := 0.0;
    for i := 0 to n
      invariant sum == DotTo(a, b, i)
    {
      sum := sum + a[i] * b[i];
    }
  }

  // ----- main results about similarity -----

  lemma Square(x: real)
    ensures x * x >= 0.0
  {
  }

  lemma QuotientSquare(x: real, length: real)
    requires length != 0.0
    ensures var q := x / length; q * q * (length * length) == x * x
  {
  }

  lemma Distributes(a: real, b: real, c: real)
    ensures (a + b) * c == a * c + b * c
  {
  }

  function Product(a: real, b: real): real { a * b }

  lemma {:induction false} Scaled(v: Vector, length: real, n: nat)
    requires length != 0.0 && n <= |v|
    ensures Product(DotTo(Scale(v, length), Scale(v, length), n), length * length) == DotTo(v, v, n)
  {
    if n > 0 {
      Scaled(v, length, n - 1);
      var q := v[n - 1] / length;
      QuotientSquare(v[n - 1], length);
      Distributes(DotTo(Scale(v, length), Scale(v, length), n - 1), q * q, length * length);
    }
  }

  lemma {:induction false} SquareBounds(v: Vector, n: nat, i: nat)
    requires i < n <= |v|
    ensures DotTo(v, v, n) >= v[i] * v[i] >= 0.0
  {
    if i < n - 1 {
      SquareBounds(v, n - 1, i);
    } else if n > 1 {
      SquareBounds(v, n - 1, 0);
    }
  }

  lemma CountsPositive(tokens: seq<string>, lib: Library)
    requires tokens != []
    ensures var c := Counts(tokens, lib); DotTo(c, c, DIMENSIONS) > 0.0
  {
    var c := Counts(tokens, lib);
    var at := lib.bucket(tokens[|tokens| - 1]);
    assert c[at] >= 1.0;
    SquareBounds(c, DIMENSIONS, at);
    assert c[at] * c[at] >= 1.0;
  }

  lemma {:induction false} ZeroDot(v: Vector, n: nat)
    requires n <= |v| && forall i :: 0 <= i < |v| ==> v[i] == 0.0
    ensures DotTo(v, v, n) == 0.0
  {
    if n > 0 {
      ZeroDot(v, n - 1);
    }
  }

  lemma IsOne(x: real, d: real)
    requires d > 0.0 && Product(x, d) == d
    ensures x == 1.0
  {
  }

  lemma PositiveRoot(norm: real, d: real)
    requires norm >= 0.0 && norm * norm == d && d > 0.0
    ensures norm > 0.0
  {
    assert norm * norm == 0.0 || norm != 0.0;
  }

  // An embedding has no negative part, and its length is one, or nought for a text without tokens.
  lemma EmbedIsUnit(tokens: seq<string>, lib: Library)
    requires SquareRoots(lib)
    ensures forall i :: 0 <= i < DIMENSIONS ==> Embed(tokens, lib)[i] >= 0.0
    ensures var e := Embed(tokens, lib); DotTo(e, e, DIMENSIONS) == if tokens == [] then 0.0 else 1.0
  {
    var c := Counts(tokens, lib);
    if tokens == [] {
      ZeroDot(c, DIMENSIONS);
    } else {
      CountsPositive(tokens, lib);
      var d := DotTo(c, c, DIMENSIONS);
      var norm := lib.sqrt(d);
      assert Roots(lib.sqrt, d);
      PositiveRoot(norm, d);
      hide Counts, Scale, DotTo, Product;
      Scaled(c, norm, DIMENSIONS);
      IsOne(DotTo(Scale(c, norm), Scale(c, norm), DIMENSIONS), d);
    }
  }

  lemma {:induction false} HalfSquares(a: Vector, b: Vector, n: nat)
    requires n <= |a| && n <= |b|
    ensures 2.0 * DotTo(a, b, n) <= DotTo(a, a, n) + DotTo(b, b, n)
  {
    if n > 0 {
      HalfSquares(a, b, n - 1);
      var x, y := a[n - 1], b[n - 1];
      Square(x - y);
      assert (x - y) * (x - y) == x * x - 2.0 * (x * y) + y * y;
    }
  }

  lemma {:induction false} DotPositive(a: Vector, b: Vector, n: nat)
    requires n <= |a| && n <= |b| && forall i :: 0 <= i < n ==> a[i] >= 0.0 && b[i] >= 0.0
    ensures DotTo(a, b, n) >= 0.0
  {
    if n > 0 {
      DotPositive(a, b, n - 1);
      assert a[n - 1] * b[n - 1] >= 0.0;
    }
  }

  // The similarity of two texts is at least nought and at most one, and a text with tokens is wholly similar to itself.
  lemma SimilarityBounds(a: seq<string>, b: seq<string>, lib: Library)
    requires SquareRoots(lib)
    ensures 0.0 <= Dot(Embed(a, lib), Embed(b, lib)) <= 1.0
    ensures Dot(Embed(a, lib), Embed(a, lib)) == if a == [] then 0.0 else 1.0
  {
    EmbedIsUnit(a, lib);
    EmbedIsUnit(b, lib);
    DotPositive(Embed(a, lib), Embed(b, lib), DIMENSIONS);
    HalfSquares(Embed(a, lib), Embed(b, lib), DIMENSIONS);
  }

  function Bump(v: Vector, at: Bucket): (r: Vector)
    requires |v| == DIMENSIONS
    ensures |r| == DIMENSIONS
  {
    v[at := v[at] + 1.0]
  }

  lemma {:induction false} CountsInsert(before: seq<string>, t: string, after: seq<string>, lib: Library)
    ensures Counts(before + [t] + after, lib) == Bump(Counts(before + after, lib), lib.bucket(t))
    decreases |after|
  {
    if after == [] {
      assert before + [t] + after == before + [t] && before + after == before && (before + [t])[..|before|] == before;
    } else {
      var front, last := after[..|after| - 1], after[|after| - 1];
      var all, less := before + [t] + after, before + after;
      assert all[..|all| - 1] == before + [t] + front && less[..|less| - 1] == before + front;
      CountsInsert(before, t, front, lib);
      BumpTwice(Counts(before + front, lib), lib.bucket(t), lib.bucket(last));
    }
  }

  lemma BumpTwice(v: Vector, i: Bucket, j: Bucket)
    requires |v| == DIMENSIONS
    ensures Bump(Bump(v, i), j) == Bump(Bump(v, j), i)
  {
  }

  lemma {:induction false} CountsIgnoreOrder(a: seq<string>, b: seq<string>, lib: Library)
    requires multiset(a) == multiset(b)
    ensures Counts(a, lib) == Counts(b, lib)
    decreases |a|
  {
    hide Bump, Counts;
    assert |multiset(a)| == |a| && |multiset(b)| == |b|;
    if a != [] {
      var j := Matching(a, b);
      CountsIgnoreOrder(a[..0] + a[1..], b[..j] + b[j + 1..], lib);
      CountsInsert(a[..0], a[0], a[1..], lib);
      CountsInsert(b[..j], b[j], b[j + 1..], lib);
      assert a == a[..0] + [a[0]] + a[1..] && b == b[..j] + [b[j]] + b[j + 1..];
    }
  }

  // The order of the tokens does not matter.
  lemma EmbedIgnoresOrder(a: seq<string>, b: seq<string>, lib: Library)
    requires multiset(a) == multiset(b)
    ensures Embed(a, lib) == Embed(b, lib)
  {
    CountsIgnoreOrder(a, b, lib);
    assert |multiset(a)| == |a| && |multiset(b)| == |b|;
  }

  // ----- choosing memories -----

  datatype Memory = Memory(id: string, tokens: seq<string>, embedding: Vector)

  datatype Match = Match(memory: Memory, score: real)

  // round(x, 4) of a real number: to the nearest, and to the even neighbour from the middle.
  function Round4(x: real): real {
    var n := (x * 10000.0).Floor;
    var rest := x * 10000.0 - n as real;
    (if rest > 0.5 || (rest == 0.5 && n % 2 == 1) then n + 1 else n) as real / 10000.0
  }

  lemma Round4Monotone(x: real, y: real)
    requires x <= y
    ensures Round4(x) <= Round4(y)
  {
    var m, n := (x * 10000.0).Floor, (y * 10000.0).Floor;
    assert x * 10000.0 <= y * 10000.0;
    assert m <= n;
  }

  lemma Round4Near(x: real)
    ensures -0.00005 <= Round4(x) - x <= 0.00005
  {
  }

  function RawScore(query: Vector, m: Memory, lib: Library): real {
    Dot(query, if m.embedding == [] then Embed(m.tokens, lib) else m.embedding)
  }

  // The memories that reach the least score, with their rounded scores.
  function Scored(query: Vector, memories: seq<Memory>, minScore: real, lib: Library): seq<Match> {
    if memories == [] then []
    else
      var front, m := Scored(query, memories[..|memories| - 1], minScore, lib), memories[|memories| - 1];
      if RawScore(query, m, lib) < minScore then front else front + [Match(m, Round4(RawScore(query, m, lib)))]
  }

  const HIGHER: (Match, Match) -> bool := (a: Match, b: Match) => a.score > b.score

  method SemanticMemoryMatches(memories: seq<Memory>, query: seq<string>, maxResults: nat, minScore: real, lib: Library)
    returns (kept: seq<Match>, ghost dropped: seq<Match>)
    ensures kept + dropped == InsertionSort(Scored(Embed(query, lib), memories, minScore, lib), HIGHER)
    ensures |kept| <= maxResults && (|kept| < maxResults ==> dropped == [])
  {
    var queryEmb := TextEmbedding(query, lib);
    var scored: seq<Match> := [];
    for n := 0 to |memories|
      invariant scored == Scored(queryEmb, memories[..n], minScore, lib)
    {
      assert memories[..n + 1][..n] == memories[..n];
      var item := memories[n];
      var emb := item.embedding;
      if emb == [] {
        emb := TextEmbedding(item.tokens, lib);
      }
      var score := CosineSimilarity(queryEmb, emb);
      if score < minScore {
        continue;
      }
      scored := scored + [Match(item, Round4(score))];
    }
    assert memories[..|memories|] == memories;
    var sorted := InsertionSort(scored, HIGHER);
    kept, dropped := sorted, [];
    if |sorted| > maxResults {
      kept, dropped := sorted[..maxResults], sorted[maxResults..];
    }
  }

  lemma {:induction false} ScoredIs(query: Vector, memories: seq<Memory>, minScore: real, lib: Library)
    ensures forall x :: x in Scored(query, memories, minScore, lib) <==>
                        x.memory in memories && RawScore(query, x.memory, lib) >= minScore && x.score == Round4(RawScore(query, x.memory, lib))
    decreases |memories|
  {
    hide RawScore, Round4;
    if memories != [] {
      ScoredIs(query, memories[..|memories| - 1], minScore, lib);
      assert memories == memories[..|memories| - 1] + [memories[|memories| - 1]];
    }
  }

  // The matches with this score, in their order.
  function WithScore(ms: seq<Match>, score: real): seq<Match> {
    if ms == [] then []
    else WithScore(ms[..|ms| - 1], score) + if ms[|ms| - 1].score == score then [ms[|ms| - 1]] else []
  }

  lemma {:induction false} InsertStable(ms: seq<Match>, x: Match, score: real)
    requires Sorted(ms, HIGHER)
    ensures WithScore(Insert(ms, x, HIGHER), score) == WithScore(ms, score) + if x.score == score then [x] else []
    decreases |ms|
  {
    if ms == [] || !HIGHER(x, ms[|ms| - 1]) {
      assert (ms + [x])[..|ms|] == ms;
    } else {
      var front, last := ms[..|ms| - 1], ms[|ms| - 1];
      var r := Insert(front, x, HIGHER);
      InsertStable(front, x, score);
      assert (r + [last])[..|r|] == r;
    }
  }

  lemma {:induction false} SortStable(ms: seq<Match>, score: real)
    ensures WithScore(InsertionSort(ms, HIGHER), score) == WithScore(ms, score)
    decreases |ms|
  {
    if ms != [] {
      SortSorts(ms[..|ms| - 1], HIGHER);
      SortStable(ms[..|ms| - 1], score);
      InsertStable(InsertionSort(ms[..|ms| - 1], HIGHER), ms[|ms| - 1], score);
    }
  }

  // What is kept: memories that reach the least score. Every dropped one that reaches it scores no higher
  // once rounded than any kept one, so in full it is ahead by less than a ten-thousandth, if at all.
  lemma KeptAreBest(memories: seq<Memory>, query: Vector, minScore: real, lib: Library, kept: seq<Match>, dropped: seq<Match>)
    requires kept + dropped == InsertionSort(Scored(query, memories, minScore, lib), HIGHER)
    ensures multiset(kept) + multiset(dropped) == multiset(Scored(query, memories, minScore, lib))
    ensures forall x :: x in kept || x in dropped <==>
                        x.memory in memories && RawScore(query, x.memory, lib) >= minScore && x.score == Round4(RawScore(query, x.memory, lib))
    ensures forall x, y :: x in kept && y in dropped ==>
                             y.score <= x.score && RawScore(query, y.memory, lib) <= RawScore(query, x.memory, lib) + 0.0001
  {
    hide RawScore, Round4;
    var scored := Scored(query, memories, minScore, lib);
    SortSorts(scored, HIGHER);
    SortPermutes(scored, HIGHER);
    SortKeepsElements(scored, HIGHER);
    ScoredIs(query, memories, minScore, lib);
    var all := kept + dropped;
    hide InsertionSort, Scored;
    forall x ensures x in kept || x in dropped <==> x in scored {
      assert x in all <==> x in scored;
    }
    forall x, y | x in kept && y in dropped
      ensures y.score <= x.score && RawScore(query, y.memory, lib) <= RawScore(query, x.memory, lib) + 0.0001
    {
      var i :| 0 <= i < |kept| && kept[i] == x;
      var j :| 0 <= j < |dropped| && dropped[j] == y;
      assert all[i] == x && all[|kept| + j] == y && !HIGHER(all[|kept| + j], all[i]);
      Round4Near(RawScore(query, x.memory, lib));
      Round4Near(RawScore(query, y.memory, lib));
    }
  }

  // ----- when a dropped memory is ahead of a kept one -----

  function AtLeast(ms: seq<Match>, score: real): nat {
    if ms == [] then 0 else AtLeast(ms[..|ms| - 1], score) + if ms[|ms| - 1].score >= score then 1 else 0
  }

  function Above(ms: seq<Match>, score: real): nat {
    if ms == [] then 0 else Above(ms[..|ms| - 1], score) + if ms[|ms| - 1].score > score then 1 else 0
  }

  function Equals(ms: seq<Match>, score: real): nat {
    if ms == [] then 0 else Equals(ms[..|ms| - 1], score) + if ms[|ms| - 1].score == score then 1 else 0
  }

  // Where a match of the stored order comes to stand: behind all of higher score, and behind the earlier ones
  // of its own.
  function Position(ms: seq<Match>, i: nat): nat
    requires i < |ms|
  {
    Above(ms, ms[i].score) + Equals(ms[..i], ms[i].score)
  }

  lemma {:induction false} CountsAdd(ms: seq<Match>, score: real)
    ensures AtLeast(ms, score) == Above(ms, score) + Equals(ms, score)
  {
    if ms != [] {
      CountsAdd(ms[..|ms| - 1], score);
    }
  }

  lemma {:induction false} InsertCounts(ms: seq<Match>, x: Match, score: real)
    ensures AtLeast(Insert(ms, x, HIGHER), score) == AtLeast(ms, score) + if x.score >= score then 1 else 0
    decreases |ms|
  {
    if ms == [] || !HIGHER(x, ms[|ms| - 1]) {
      assert (ms + [x])[..|ms|] == ms;
    } else {
      var r := Insert(ms[..|ms| - 1], x, HIGHER);
      InsertCounts(ms[..|ms| - 1], x, score);
      assert (r + [ms[|ms| - 1]])[..|r|] == r;
    }
  }

  lemma {:induction false} SortCounts(ms: seq<Match>, score: real)
    ensures AtLeast(InsertionSort(ms, HIGHER), score) == AtLeast(ms, score)
    decreases |ms|
  {
    if ms != [] {
      SortCounts(ms[..|ms| - 1], score);
      InsertCounts(InsertionSort(ms[..|ms| - 1], HIGHER), ms[|ms| - 1], score);
    }
  }

  lemma {:induction false} SortedCounts(ms: seq<Match>, score: real)
    requires Sorted(ms, HIGHER)
    ensures AtLeast(ms, score) <= |ms| && forall m :: 0 <= m < |ms| ==> (ms[m].score >= score <==> m < AtLeast(ms, score))
    decreases |ms|
  {
    if ms != [] {
      var front, last := ms[..|ms| - 1], ms[|ms| - 1];
      SortedCounts(front, score);
      assert forall m :: 0 <= m < |front| ==> !HIGHER(last, front[m]);
    }
  }

  // The last match goes behind all that score at least as much.
  lemma LastPlaced(ms: seq<Match>, x: Match)
    ensures var s, k := InsertionSort(ms, HIGHER), AtLeast(ms, x.score);
            && k <= |ms| == |s| && InsertionSort(ms + [x], HIGHER) == With(s, k, x)
            && forall m :: 0 <= m < |s| ==> (s[m].score >= x.score <==> m < k)
  {
    var s, k := InsertionSort(ms, HIGHER), AtLeast(ms, x.score);
    SortSorts(ms, HIGHER);
    SortCounts(ms, x.score);
    SortedCounts(s, x.score);
    assert (ms + [x])[..|ms|] == ms;
    hide InsertionSort, AtLeast;
    assert forall m :: k <= m < |s| ==> HIGHER(x, s[m]);
    InsertAt(s, x, HIGHER, k);
    SortUnfolds(ms, x);
  }

  lemma SortUnfolds(ms: seq<Match>, x: Match)
    ensures InsertionSort(ms + [x], HIGHER) == Insert(InsertionSort(ms, HIGHER), x, HIGHER)
  {
    assert (ms + [x])[..|ms|] == ms;
  }

  lemma PositionMoves(ms: seq<Match>, x: Match, i: nat)
    requires i < |ms|
    ensures Position(ms + [x], i) == Position(ms, i) + if x.score > ms[i].score then 1 else 0
    ensures Position(ms + [x], |ms|) == AtLeast(ms, x.score)
  {
    assert (ms + [x])[..|ms|] == ms && (ms + [x])[..i] == ms[..i];
    CountsAdd(ms, x.score);
  }

  lemma PositionOfLast(ms: seq<Match>, x: Match)
    ensures Position(ms + [x], |ms|) == AtLeast(ms, x.score)
  {
    assert (ms + [x])[..|ms|] == ms;
    CountsAdd(ms, x.score);
  }

  lemma WithAt<T>(s: seq<T>, k: nat, x: T, p: nat)
    requires k <= |s| && p <= |s|
    ensures With(s, k, x)[p] == if p < k then s[p] else if p == k then x else s[p - 1]
  {
  }

  // Sorting brings every match to its position.
  lemma {:induction false} PositionHolds(ms: seq<Match>, i: nat)
    requires i < |ms|
    ensures Position(ms, i) < |ms| && InsertionSort(ms, HIGHER)[Position(ms, i)] == ms[i]
    decreases |ms|
  {
    hide InsertionSort, Position, With, AtLeast;
    var front, x := ms[..|ms| - 1], ms[|ms| - 1];
    assert ms == front + [x];
    LastPlaced(front, x);
    var s, k := InsertionSort(front, HIGHER), AtLeast(front, x.score);
    PositionOfLast(front, x);
    if i < |front| {
      PositionHolds(front, i);
      PositionMoves(front, x, i);
      WithAt(s, k, x, Position(ms, i));
    } else {
      WithAt(s, k, x, k);
    }
  }

  // And every place is filled from the stored order.
  lemma {:induction false} PlaceFilled(ms: seq<Match>, p: nat) returns (i: nat)
    requires p < |ms|
    ensures i < |ms| && Position(ms, i) == p
    decreases |ms|
  {
    hide InsertionSort, Position, With, AtLeast;
    var front, x := ms[..|ms| - 1], ms[|ms| - 1];
    assert ms == front + [x];
    LastPlaced(front, x);
    var s, k := InsertionSort(front, HIGHER), AtLeast(front, x.score);
    PositionOfLast(front, x);
    if p == k {
      i := |front|;
    } else {
      i := PlaceFilled(front, if p < k then p else p - 1);
      PositionHolds(front, i);
      PositionMoves(front, x, i);
    }
  }

  lemma {:induction false} EqualsGrow(ms: seq<Match>, i: nat, j: nat, score: real)
    requires j <= i <= |ms|
    ensures Equals(ms[..j], score) <= Equals(ms[..i], score)
    decreases i
  {
    if j < i {
      assert ms[..i][..i - 1] == ms[..i - 1];
      EqualsGrow(ms, i - 1, j, score);
    }
  }

  // Two matches of one score around the cut: the earlier stored one is kept, the later dropped, and it is ahead
  // in full.
  ghost predicate Overtaken(query: Vector, ms: seq<Match>, n: nat, i: nat, j: nat, lib: Library) {
    && i < j < |ms| && ms[i].score == ms[j].score && Position(ms, i) < n <= Position(ms, j)
    && RawScore(query, ms[j].memory, lib) > RawScore(query, ms[i].memory, lib)
  }

  ghost predicate Ahead(query: Vector, x: Match, y: Match, lib: Library) {
    RawScore(query, y.memory, lib) > RawScore(query, x.memory, lib)
  }

  // A dropped memory scores above a kept one exactly when two share their rounded score across the cut, and
  // the later one is ahead in full.
  lemma DroppedAheadExactly(memories: seq<Memory>, query: Vector, minScore: real, lib: Library, kept: seq<Match>, dropped: seq<Match>)
    requires kept + dropped == InsertionSort(Scored(query, memories, minScore, lib), HIGHER)
    ensures (exists x, y :: x in kept && y in dropped && Ahead(query, x, y, lib)) <==>
              exists i: nat, j: nat :: Overtaken(query, Scored(query, memories, minScore, lib), |kept|, i, j, lib)
  {
    var ms := Scored(query, memories, minScore, lib);
    hide RawScore, Round4, Scored, InsertionSort, Position;
    if exists x, y :: x in kept && y in dropped && Ahead(query, x, y, lib) {
      var x, y :| x in kept && y in dropped && Ahead(query, x, y, lib);
      AheadIsOvertaken(memories, query, minScore, lib, kept, dropped, x, y);
    }
    if exists i: nat, j: nat :: Overtaken(query, ms, |kept|, i, j, lib) {
      var i: nat, j: nat :| Overtaken(query, ms, |kept|, i, j, lib);
      PositionHolds(ms, i);
      PositionHolds(ms, j);
      assert ms[i] == kept[Position(ms, i)] && ms[j] == dropped[Position(ms, j) - |kept|];
      assert Ahead(query, ms[i], ms[j], lib);
    }
  }

  lemma AheadIsOvertaken(memories: seq<Memory>, query: Vector, minScore: real, lib: Library, kept: seq<Match>, dropped: seq<Match>,
                         x: Match, y: Match)
    requires kept + dropped == InsertionSort(Scored(query, memories, minScore, lib), HIGHER)
    requires x in kept && y in dropped && Ahead(query, x, y, lib)
    ensures exists i: nat, j: nat :: Overtaken(query, Scored(query, memories, minScore, lib), |kept|, i, j, lib)
  {
    hide RawScore, Round4, Scored, InsertionSort;
    KeptAreBest(memories, query, minScore, lib, kept, dropped);
    Round4Monotone(RawScore(query, x.memory, lib), RawScore(query, y.memory, lib));
    assert x.score == y.score;
    var ms := Scored(query, memories, minScore, lib);
    SortPermutes(ms, HIGHER);
    assert |multiset(ms)| == |ms| && |multiset(InsertionSort(ms, HIGHER))| == |ms|;
    hide *;
    var i, j := AroundCut(ms, kept, dropped, x, y);
    assert Overtaken(query, ms, |kept|, i, j, lib) by {
      OvertakenIs(query, ms, |kept|, i, j, lib);
    }
  }

  lemma OvertakenIs(query: Vector, ms: seq<Match>, n: nat, i: nat, j: nat, lib: Library)
    requires i < j < |ms| && ms[i].score == ms[j].score && Position(ms, i) < n <= Position(ms, j)
    requires Ahead(query, ms[i], ms[j], lib)
    ensures Overtaken(query, ms, n, i, j, lib)
  {
  }

  // Matches of one score on both sides of the cut, at their places in the stored order.
  lemma AroundCut(ms: seq<Match>, kept: seq<Match>, dropped: seq<Match>, x: Match, y: Match) returns (i: nat, j: nat)
    requires kept + dropped == InsertionSort(ms, HIGHER) && |kept| + |dropped| == |ms|
    requires x in kept && y in dropped && x.score == y.score
    ensures i < j < |ms| && ms[i] == x && ms[j] == y && Position(ms, i) < |kept| <= Position(ms, j)
  {
    hide *;
    var p :| 0 <= p < |kept| && kept[p] == x;
    var q :| 0 <= q < |dropped| && dropped[q] == y;
    i := PlaceFilled(ms, p);
    j := PlaceFilled(ms, |kept| + q);
    PositionHolds(ms, i);
    PositionHolds(ms, j);
    EarlierStands(ms, i, j);
  }

  lemma EarlierStands(ms: seq<Match>, i: nat, j: nat)
    requires i < |ms| && j < |ms| && ms[i].score == ms[j].score && Position(ms, i) < Position(ms, j)
    ensures i < j
  {
    if j <= i {
      EqualsGrow(ms, i, j, ms[i].score);
    }
  }

  // ----- two texts whose ranking hides which is ahead -----

  function Repeated(t: string, n: nat): (r: seq<string>)
    ensures |r| == n
  {
    seq(n, i => t)
  }

  // A vector with at most two entries that are not nought.
  function Spikes(i: Bucket, x: real, j: Bucket, y: real): (v: Vector)
    ensures |v| == DIMENSIONS
  {
    Zeros(DIMENSIONS)[i := x][j := y]
  }

  lemma {:induction false} CountsRepeated(t: string, n: nat, lib: Library)
    ensures Counts(Repeated(t, n), lib) == Zeros(DIMENSIONS)[lib.bucket(t) := n as real]
  {
    if n > 0 {
      CountsRepeated(t, n - 1, lib);
      assert Repeated(t, n)[..n - 1] == Repeated(t, n - 1);
    }
  }

  lemma CountsLong(t: string, n: nat, u: string, lib: Library)
    requires lib.bucket(t) != lib.bucket(u)
    ensures Counts(Repeated(t, n) + [u], lib) == Spikes(lib.bucket(t), n as real, lib.bucket(u), 1.0)
  {
    CountsRepeated(t, n, lib);
    assert (Repeated(t, n) + [u])[..n] == Repeated(t, n);
  }

  lemma {:induction false} SpikesSquare(i: Bucket, x: real, j: Bucket, y: real, n: nat)
    requires i != j && n <= DIMENSIONS
    ensures var v := Spikes(i, x, j, y);
            DotTo(v, v, n) == (if i < n then x * x else 0.0) + if j < n then y * y else 0.0
  {
    if n > 0 {
      SpikesSquare(i, x, j, y, n - 1);
    }
  }

  // The similarity to a unit vector is the entry at its place.
  lemma {:induction false} UnitDot(i: Bucket, v: Vector, n: nat)
    requires |v| == DIMENSIONS && n <= DIMENSIONS
    ensures DotTo(Zeros(DIMENSIONS)[i := 1.0], v, n) == if i < n then v[i] else 0.0
  {
    if n > 0 {
      UnitDot(i, v, n - 1);
    }
  }

  lemma UnitSquare(i: Bucket)
    ensures var v := Zeros(DIMENSIONS)[i := 1.0]; DotTo(v, v, DIMENSIONS) == 1.0
  {
    UnitDot(i, Zeros(DIMENSIONS)[i := 1.0], DIMENSIONS);
  }

  lemma TimesGrows(a: real, b: real, c: real)
    requires a <= b && c >= 0.0
    ensures a * c <= b * c
  {
  }

  lemma RootOfOne(s: real)
    requires s >= 0.0 && s * s == 1.0
    ensures s == 1.0
  {
    if s <= 1.0 {
      TimesGrows(s, 1.0, s);
    } else {
      TimesGrows(1.0, s, s);
    }
  }

  lemma EmbedOne(t: string, lib: Library)
    requires SquareRoots(lib)
    ensures Embed([t], lib) == Zeros(DIMENSIONS)[lib.bucket(t) := 1.0]
  {
    CountsRepeated(t, 1, lib);
    assert Repeated(t, 1) == [t];
    UnitSquare(lib.bucket(t));
    assert Roots(lib.sqrt, 1.0);
    RootOfOne(lib.sqrt(1.0));
    hide Counts, DotTo;
    assert Scale(Counts([t], lib), 1.0) == Counts([t], lib);
  }

  // The root lies between 200 and 200.01.
  lemma RootOfMany(s: real)
    requires s >= 0.0 && s * s == 40001.0
    ensures 200.0 < s < 200.01
  {
    if s <= 200.0 {
      TimesGrows(s, 200.0, s);
    } else {
      TimesGrows(200.01, if s < 200.01 then 200.01 else s, s);
    }
  }

  lemma QuotientOfMany(s: real)
    requires 200.0 < s < 200.01
    ensures 0.99995 <= 200.0 / s < 1.0
  {
    var q := 200.0 / s;
    assert q * s == 200.0;
    TimesGrows(1.0, if q < 1.0 then 1.0 else q, s);
    TimesGrows(if q < 0.99995 then q else 0.99995, 0.99995, s);
  }

  lemma NearlyOne(q: real)
    requires 0.99995 <= q <= 1.0
    ensures Round4(q) == 1.0
  {
  }

  function LongText(t: string, u: string): seq<string> { Repeated(t, 200) + [u] }

  lemma EmbedLong(t: string, u: string, lib: Library)
    requires SquareRoots(lib) && lib.bucket(t) != lib.bucket(u)
    ensures 0.99995 <= Embed(LongText(t, u), lib)[lib.bucket(t)] < 1.0
  {
    CountsLong(t, 200, u, lib);
    var i, j := lib.bucket(t), lib.bucket(u);
    SpikesSquare(i, 200.0, j, 1.0, DIMENSIONS);
    assert Spikes(i, 200.0, j, 1.0)[i] == 200.0;
    assert Roots(lib.sqrt, 40001.0);
    RootOfMany(lib.sqrt(40001.0));
    QuotientOfMany(lib.sqrt(40001.0));
    hide Counts, DotTo, Spikes, Repeated;
  }

  lemma TwoScored(query: Vector, a: Memory, b: Memory, minScore: real, lib: Library)
    requires RawScore(query, a, lib) >= minScore && RawScore(query, b, lib) >= minScore
    ensures Scored(query, [a, b], minScore, lib) == [Match(a, Round4(RawScore(query, a, lib))), Match(b, Round4(RawScore(query, b, lib)))]
  {
    hide RawScore, Round4;
    assert [a, b][..1] == [a] && [a][..0] == [];
    assert Scored(query, [a], minScore, lib) == [Match(a, Round4(RawScore(query, a, lib)))];
  }

  lemma TwoStay(x: Match, y: Match)
    requires y.score <= x.score
    ensures InsertionSort([x, y], HIGHER) == [x, y]
  {
  }

  // A text memory as it is stored.
  function Stored(id: string, tokens: seq<string>, lib: Library): Memory { Memory(id, tokens, Embed(tokens, lib)) }

  lemma TextScores(t: string, u: string, lib: Library)
    requires SquareRoots(lib) && lib.bucket(t) != lib.bucket(u)
    ensures var query := Embed([t], lib);
            && 0.99995 <= RawScore(query, Stored("a", LongText(t, u), lib), lib) < 1.0
            && RawScore(query, Stored("b", [t], lib), lib) == 1.0
  {
    EmbedOne(t, lib);
    EmbedLong(t, u, lib);
    UnitDot(lib.bucket(t), Embed(LongText(t, u), lib), DIMENSIONS);
    UnitDot(lib.bucket(t), Embed([t], lib), DIMENSIONS);
    hide Embed, DotTo, LongText, SquareRoots;
  }

  // A text of one token, two hundred times, and another stored before the token alone: asked for the token, the
  // first is kept and the second dropped, although it is ahead.
  lemma RoundingHides(t: string, u: string, minScore: real, lib: Library, kept: seq<Match>, dropped: seq<Match>)
    requires SquareRoots(lib) && lib.bucket(t) != lib.bucket(u) && minScore <= 0.9999
    requires var memories := [Stored("a", LongText(t, u), lib), Stored("b", [t], lib)];
             kept + dropped == InsertionSort(Scored(Embed([t], lib), memories, minScore, lib), HIGHER)
    requires |kept| <= 1 && (|kept| < 1 ==> dropped == [])
    ensures kept == [Match(Stored("a", LongText(t, u), lib), 1.0)] && dropped == [Match(Stored("b", [t], lib), 1.0)]
    ensures Ahead(Embed([t], lib), kept[0], dropped[0], lib)
    ensures var memories := [Stored("a", LongText(t, u), lib), Stored("b", [t], lib)];
            exists i: nat, j: nat :: Overtaken(Embed([t], lib), Scored(Embed([t], lib), memories, minScore, lib), 1, i, j, lib)
  {
    var a, b, query := Stored("a", LongText(t, u), lib), Stored("b", [t], lib), Embed([t], lib);
    TextScores(t, u, lib);
    NearlyOne(RawScore(query, a, lib));
    NearlyOne(RawScore(query, b, lib));
    hide Round4, RawScore, Scored, InsertionSort, Embed, Stored, LongText, SquareRoots, Overtaken;
    TwoScored(query, a, b, minScore, lib);
    TwoStay(Match(a, 1.0), Match(b, 1.0));
    assert kept + dropped == [Match(a, 1.0), Match(b, 1.0)];
    assert kept == (kept + dropped)[..1] && dropped == (kept + dropped)[1..];
    assert Ahead(query, kept[0], dropped[0], lib);
    DroppedAheadExactly([a, b], query, minScore, lib, kept, dropped);
  }
}
