/** Similarity search in memory: cosine similarity over exact reals, and the top k. */
module Similarity {
  import opened Wrappers
  import opened Sorting

  type Vector = seq<real>

  /** Multiplication by name, so that proofs can treat products as opaque terms. */
  function Times(x: real, y: real): real {
    x * y
  }

  function Dot(a: Vector, b: Vector): real
    requires |a| == |b|
  {
    if a == [] then 0.0 else Times(a[0], b[0]) + Dot(a[1..], b[1..])
  }

  /** `x ** 0.5` on exact reals. */
  ghost predicate IsSqrt(sqrt: real -> real) {
    forall x :: x >= 0.0 ==> sqrt(x) >= 0.0 && Times(sqrt(x), sqrt(x)) == x
  }

  function Cosine(sqrt: real -> real, a: Vector, b: Vector): real {
    if a == [] || b == [] || |a| != |b| then 0.0
    else
      var na, nb := sqrt(Dot(a, a)), sqrt(Dot(b, b));
      if na == 0.0 || nb == 0.0 then 0.0
      else
        NonZeroProduct(na, nb);
        Dot(a, b) / Times(na, nb)
  }

  // ----- products -----

  lemma PositiveProduct(x: real, y: real)
    requires x > 0.0 && y > 0.0
    ensures Times(x, y) > 0.0
  {
  }

  lemma NegatedProduct(x: real, y: real)
    ensures Times(-x, y) == -Times(x, y) && Times(x, -y) == -Times(x, y) && Times(x, y) == Times(y, x)
  {
  }

  lemma NonZeroProduct(x: real, y: real)
    requires x != 0.0 && y != 0.0
    ensures Times(x, y) != 0.0
    ensures x == y ==> Times(x, y) > 0.0
  {
    hide Times;
    PositiveProduct(if x > 0.0 then x else -x, if y > 0.0 then y else -y);
    NegatedProduct(x, y);
    NegatedProduct(x, -y);
  }

  lemma ZeroProduct(y: real)
    ensures Times(0.0, y) == 0.0
  {
  }

  lemma SquareSign(d: real)
    ensures Times(d, d) >= 0.0 && (Times(d, d) == 0.0 <==> d == 0.0)
  {
    hide Times;
    ZeroProduct(d);
    if d != 0.0 {
      NonZeroProduct(d, d);
    }
  }

  // ----- Cauchy-Schwarz -----

  /** The sum of the squares of t * a[i] - b[i]. */
  function Residual(a: Vector, b: Vector, t: real): real
    requires |a| == |b|
  {
    if a == [] then 0.0
    else Times(Times(t, a[0]) - b[0], Times(t, a[0]) - b[0]) + Residual(a[1..], b[1..], t)
  }

  function Quadratic(t: real, p: real, q: real, r: real): real {
    t * t * p - 2.0 * t * q + r
  }

  lemma {:induction false} ResidualExpands(a: Vector, b: Vector, t: real)
    requires |a| == |b|
    ensures Residual(a, b, t) == Quadratic(t, Dot(a, a), Dot(a, b), Dot(b, b))
  {
    hide Times, Quadratic;
    if a == [] {
      QuadraticZero(t);
    } else {
      ResidualExpands(a[1..], b[1..], t);
      ExpandSquare(t, a[0], b[0], Dot(a[1..], a[1..]), Dot(a[1..], b[1..]), Dot(b[1..], b[1..]));
    }
  }

  lemma QuadraticZero(t: real)
    ensures Quadratic(t, 0.0, 0.0, 0.0) == 0.0
  {
  }

  lemma ExpandSquare(t: real, x: real, y: real, p: real, q: real, r: real)
    ensures Times(Times(t, x) - y, Times(t, x) - y) + Quadratic(t, p, q, r)
         == Quadratic(t, Times(x, x) + p, Times(x, y) + q, Times(y, y) + r)
  {
    assert (t * x - y) * (t * x - y) == t * t * (x * x) - 2.0 * t * (x * y) + y * y;
    assert t * t * (x * x + p) == t * t * (x * x) + t * t * p;
    assert 2.0 * t * (x * y + q) == 2.0 * t * (x * y) + 2.0 * t * q;
  }

  /** `b` is `t` times `a`, entry by entry. */
  ghost predicate Multiple(a: Vector, b: Vector, t: real)
    requires |a| == |b|
  {
    forall i | 0 <= i < |a| :: b[i] == Times(t, a[i])
  }

  lemma {:induction false} ResidualNonNegative(a: Vector, b: Vector, t: real)
    requires |a| == |b|
    ensures Residual(a, b, t) >= 0.0
    ensures Residual(a, b, t) == 0.0 ==> Multiple(a, b, t)
  {
    hide Times;
    if a != [] {
      ResidualNonNegative(a[1..], b[1..], t);
      SquareSign(Times(t, a[0]) - b[0]);
      if Residual(a, b, t) == 0.0 {
        forall i | 0 <= i < |a| ensures b[i] == Times(t, a[i]) {
          assert i == 0 || (a[i] == a[1..][i - 1] && b[i] == b[1..][i - 1]);
        }
      }
    }
  }

  lemma {:induction false} NormZero(a: Vector, b: Vector)
    requires |a| == |b|
    ensures Dot(a, a) >= 0.0
    ensures Dot(a, a) == 0.0 ==> Dot(a, b) == 0.0
  {
    hide Times;
    if a != [] {
      NormZero(a[1..], b[1..]);
      SquareSign(a[0]);
      ZeroProduct(b[0]);
    }
  }

  /** Dot products are bounded by the norms, for all vectors of equal length. */
  lemma CauchySchwarz(a: Vector, b: Vector)
    requires |a| == |b|
    ensures Dot(a, b) * Dot(a, b) <= Dot(a, a) * Dot(b, b)
  {
    hide Times, Dot, Residual, Quadratic;
    var p, q, r := Dot(a, a), Dot(a, b), Dot(b, b);
    NormZero(a, b);
    if p > 0.0 {
      ResidualExpands(a, b, q / p);
      ResidualNonNegative(a, b, q / p);
      BestFit(p, q, r);
    }
  }

  /** The residual of the best fit t = q / p, cleared of its denominator. */
  lemma BestFit(p: real, q: real, r: real)
    requires p > 0.0
    ensures p * Quadratic(q / p, p, q, r) == p * r - q * q
    ensures Quadratic(q / p, p, q, r) >= 0.0 ==> q * q <= p * r
  {
    var t := q / p;
    assert t * p == q;
    assert t * t * p == t * q;
    assert p * (t * q) == q * q;
    var residual := Quadratic(t, p, q, r);
    assert residual == r - t * q;
    assert p * residual == p * r - q * q;
    if residual >= 0.0 {
      assert p * residual >= 0.0;
    }
  }

  // ----- the cosine -----

  lemma Quotient(x: real, d: real)
    requires d > 0.0
    ensures x / d <= 1.0 <==> x <= d
    ensures x / d >= -1.0 <==> x >= -d
    ensures x / d == 1.0 <==> x == d
  {
    var q := x / d;
    assert q * d == x;
    if q > 1.0 { assert (q - 1.0) * d > 0.0; }
    if q < 1.0 { assert (1.0 - q) * d > 0.0; }
    if q < -1.0 { assert (-1.0 - q) * d > 0.0; }
    if q >= -1.0 { assert (q + 1.0) * d >= 0.0; }
  }

  /** |x| <= m when x squared is at most m squared. */
  lemma RootOfSquares(x: real, m: real)
    requires m >= 0.0 && x * x <= m * m
    ensures -m <= x <= m
  {
    assert (x - m) * (x + m) == x * x - m * m;
    assert (-x - m) * (-x + m) == x * x - m * m;
    if x > m { PositiveProduct(x - m, x + m); }
    if x < -m { PositiveProduct(-x - m, -x + m); }
  }

  lemma RatioRange(x: real, m: real)
    requires m > 0.0 && x * x <= m * m
    ensures -1.0 <= x / m <= 1.0
  {
    RootOfSquares(x, m);
    Quotient(x, m);
  }

  /** The product of the two norms: positive, with the product of the squared norms as its square. */
  lemma NormProduct(sqrt: real -> real, a: Vector, b: Vector)
    requires IsSqrt(sqrt) && |a| == |b|
    ensures var na, nb := sqrt(Dot(a, a)), sqrt(Dot(b, b));
      && na >= 0.0 && nb >= 0.0
      && (na != 0.0 && nb != 0.0 ==> Times(na, nb) > 0.0)
      && Times(na, nb) * Times(na, nb) == Dot(a, a) * Dot(b, b)
  {
    hide Dot;
    NormZero(a, b);
    NormZero(b, a);
    SquareOfProduct(sqrt(Dot(a, a)), sqrt(Dot(b, b)));
  }

  lemma SquareOfProduct(x: real, y: real)
    requires x >= 0.0 && y >= 0.0
    ensures x != 0.0 && y != 0.0 ==> Times(x, y) > 0.0
    ensures Times(x, y) * Times(x, y) == Times(x, x) * Times(y, y)
  {
    if x > 0.0 && y > 0.0 { PositiveProduct(x, y); }
    assert (x * y) * (x * y) == (x * x) * (y * y);
  }

  /** The cosine score lies in [-1, 1], for any two vectors. */
  lemma CosineRange(sqrt: real -> real, a: Vector, b: Vector)
    requires IsSqrt(sqrt)
    ensures -1.0 <= Cosine(sqrt, a, b) <= 1.0
  {
    hide Dot, Times, IsSqrt;
    if a != [] && |a| == |b| {
      NormProduct(sqrt, a, b);
      CauchySchwarz(a, b);
      var na, nb := sqrt(Dot(a, a)), sqrt(Dot(b, b));
      if na != 0.0 && nb != 0.0 {
        RatioRange(Dot(a, b), Times(na, nb));
      }
    }
  }

  lemma CosineOne(sqrt: real -> real, a: Vector, b: Vector)
    requires IsSqrt(sqrt) && Cosine(sqrt, a, b) == 1.0
    ensures |a| == |b| && exists t :: t > 0.0 && Multiple(a, b, t)
  {
    hide Dot, Times, Multiple, IsSqrt;
    NormProduct(sqrt, a, b);
    Quotient(Dot(a, b), Times(sqrt(Dot(a, a)), sqrt(Dot(b, b))));
    PerfectFit(a, b);
  }

  /** The score is exactly 1 for the positive multiples of a vector that is not zero, and only then. */
  lemma CosineOneIff(sqrt: real -> real, a: Vector, b: Vector)
    requires IsSqrt(sqrt)
    ensures Cosine(sqrt, a, b) == 1.0 <==>
            |a| == |b| && Dot(a, a) != 0.0 && exists t :: t > 0.0 && Multiple(a, b, t)
  {
    if Cosine(sqrt, a, b) == 1.0 {
      CosineOne(sqrt, a, b);
      ZeroHasNoNorm(sqrt);
    } else if |a| == |b| && Dot(a, a) != 0.0 {
      forall t | t > 0.0 && Multiple(a, b, t) ensures false {
        SameDirection(sqrt, a, b, t);
      }
    }
  }

  lemma ZeroHasNoNorm(sqrt: real -> real)
    requires IsSqrt(sqrt)
    ensures sqrt(0.0) == 0.0
  {
    SquareSign(sqrt(0.0));
  }

  lemma {:induction false} DotMultiple(a: Vector, b: Vector, t: real)
    requires |a| == |b| && Multiple(a, b, t)
    ensures Dot(a, b) == t * Dot(a, a) && Dot(b, b) == t * (t * Dot(a, a))
  {
    if a != [] {
      forall i | 0 <= i < |a[1..]| ensures b[1..][i] == Times(t, a[1..][i]) {
        assert b[i + 1] == Times(t, a[i + 1]);
      }
      DotMultiple(a[1..], b[1..], t);
      MultipleEntry(t, a[0], Dot(a[1..], a[1..]));
      assert b[0] == Times(t, a[0]);
    }
  }

  lemma MultipleEntry(t: real, x: real, rest: real)
    ensures Times(x, Times(t, x)) + t * rest == t * (Times(x, x) + rest)
    ensures Times(Times(t, x), Times(t, x)) + t * (t * rest) == t * (t * (Times(x, x) + rest))
  {
    var xx := x * x;
    assert x * (t * x) == t * xx;
    assert (t * x) * (t * x) == t * (t * xx);
  }

  /** Two non-negative numbers with equal squares are equal. */
  lemma SameSquare(x: real, y: real)
    requires x >= 0.0 && y >= 0.0 && x * x == y * y
    ensures x == y
  {
    assert (x - y) * (x + y) == x * x - y * y;
    if x != y { NonZeroProduct(x - y, x + y); }
  }

  /** The norms of a vector and its positive multiple, as their squares tell. */
  lemma NormsOfMultiple(p: real, q: real, r: real, t: real, m: real)
    requires p > 0.0 && t > 0.0 && q == Times(t, p) && r == Times(t, q) && m >= 0.0 && Times(m, m) == Times(p, r)
    ensures m == q && q > 0.0 && r > 0.0
  {
    PositiveProduct(t, p);
    PositiveProduct(t, q);
    assert p * (t * q) == (t * p) * q;
    SameSquare(m, q);
  }

  lemma DotsOfMultiple(a: Vector, b: Vector, t: real)
    requires |a| == |b| && Multiple(a, b, t)
    ensures Dot(a, b) == Times(t, Dot(a, a)) && Dot(b, b) == Times(t, Dot(a, b))
  {
    hide Dot, Multiple;
    DotMultiple(a, b, t);
  }

  lemma NormSquares(sqrt: real -> real, a: Vector, b: Vector)
    requires IsSqrt(sqrt) && |a| == |b|
    ensures var m := Times(sqrt(Dot(a, a)), sqrt(Dot(b, b))); m >= 0.0 && Times(m, m) == Times(Dot(a, a), Dot(b, b))
  {
    hide Dot, IsSqrt;
    NormProduct(sqrt, a, b);
  }

  lemma CosineIsQuotient(sqrt: real -> real, a: Vector, b: Vector, m: real)
    requires a != [] && |a| == |b| && sqrt(Dot(a, a)) > 0.0 && sqrt(Dot(b, b)) > 0.0
    requires m == Times(sqrt(Dot(a, a)), sqrt(Dot(b, b))) && m > 0.0
    ensures Cosine(sqrt, a, b) == Dot(a, b) / m
  {
  }

  lemma SameDirection(sqrt: real -> real, a: Vector, b: Vector, t: real)
    requires IsSqrt(sqrt) && |a| == |b| && Dot(a, a) != 0.0 && t > 0.0 && Multiple(a, b, t)
    ensures Cosine(sqrt, a, b) == 1.0
  {
    assert a != [];
    hide Dot, Multiple, Times, Cosine, IsSqrt;
    var p, q, r := Dot(a, a), Dot(a, b), Dot(b, b);
    var m := Times(sqrt(p), sqrt(r));
    NormZero(a, b);
    DotsOfMultiple(a, b, t);
    NormSquares(sqrt, a, b);
    NormsOfMultiple(p, q, r, t, m);
    RootPositive(sqrt, p);
    RootPositive(sqrt, r);
    CosineIsQuotient(sqrt, a, b, m);
    Quotient(q, m);
  }

  lemma RootPositive(sqrt: real -> real, x: real)
    requires IsSqrt(sqrt) && x > 0.0
    ensures sqrt(x) > 0.0
  {
    if sqrt(x) == 0.0 { ZeroProduct(sqrt(x)); }
  }

  /** Equality in Cauchy-Schwarz with a positive product leaves no residual. */
  lemma PerfectFit(a: Vector, b: Vector)
    requires |a| == |b| && Dot(a, b) > 0.0 && Dot(a, b) * Dot(a, b) == Dot(a, a) * Dot(b, b)
    ensures exists t :: t > 0.0 && Multiple(a, b, t)
  {
    hide Dot, Times, Residual, Quadratic, Multiple;
    var p, q, r := Dot(a, a), Dot(a, b), Dot(b, b);
    NormZero(a, b);
    var t := q / p;
    ResidualExpands(a, b, t);
    ResidualNonNegative(a, b, t);
    NoResidual(p, q, r);
    assert t > 0.0 && Multiple(a, b, t);
  }

  lemma NoResidual(p: real, q: real, r: real)
    requires p > 0.0 && q > 0.0 && q * q == p * r
    ensures q / p > 0.0 && Quadratic(q / p, p, q, r) == 0.0
  {
    BestFit(p, q, r);
    var residual := Quadratic(q / p, p, q, r);
    if residual != 0.0 { NonZeroProduct(p, residual); }
  }

  lemma {:induction false} DotSymmetric(a: Vector, b: Vector)
    requires |a| == |b|
    ensures Dot(a, b) == Dot(b, a)
  {
    if a != [] {
      DotSymmetric(a[1..], b[1..]);
    }
  }

  /** The order of the two vectors does not matter. */
  lemma CosineSymmetric(sqrt: real -> real, a: Vector, b: Vector)
    ensures Cosine(sqrt, a, b) == Cosine(sqrt, b, a)
  {
    if |a| == |b| {
      DotSymmetric(a, b);
    }
  }

  /** The product is taken entry by entry. */
  lemma {:induction false} DotAppend(a: Vector, b: Vector, x: real, y: real)
    requires |a| == |b|
    ensures Dot(a + [x], b + [y]) == Dot(a, b) + x * y
  {
    if a == [] {
      assert ([] + [x])[1..] == [] && ([] + [y])[1..] == [];
    } else {
      assert (a + [x])[1..] == a[1..] + [x] && (b + [y])[1..] == b[1..] + [y];
      DotAppend(a[1..], b[1..], x, y);
    }
  }

  /** The square of a quotient by a root of `n`, and its sign. */
  ghost predicate OverRoot(c: real, q: real, n: real) {
    Times(Times(c, c), n) == Times(q, q) && (c > 0.0 <==> q > 0.0) && (c < 0.0 <==> q < 0.0)
  }

  lemma QuotientOfRoot(q: real, n: real, m: real)
    requires m > 0.0 && Times(m, m) == n
    ensures OverRoot(q / m, q, n)
  {
    var c := q / m;
    assert q == c * m;
    assert c * c * (m * m) == (c * m) * (c * m);
  }

  /** The score is the product of the vectors over that of their lengths: without roots, its square
      times both squared lengths is the square of the product, and its sign the product's. Vectors of
      different lengths, and those that are zero, score nothing. */
  lemma CosineIs(sqrt: real -> real, a: Vector, b: Vector)
    requires IsSqrt(sqrt)
    ensures if |a| == |b| && Dot(a, a) > 0.0 && Dot(b, b) > 0.0
            then OverRoot(Cosine(sqrt, a, b), Dot(a, b), Times(Dot(a, a), Dot(b, b)))
            else Cosine(sqrt, a, b) == 0.0
  {
    if |a| == |b| {
      NormZero(a, a);
      NormZero(b, b);
      ZeroHasNoNorm(sqrt);
      if Dot(a, a) > 0.0 && Dot(b, b) > 0.0 {
        RootPositive(sqrt, Dot(a, a));
        RootPositive(sqrt, Dot(b, b));
        PositiveProduct(sqrt(Dot(a, a)), sqrt(Dot(b, b)));
        NormSquares(sqrt, a, b);
        var m := Times(sqrt(Dot(a, a)), sqrt(Dot(b, b)));
        CosineIsQuotient(sqrt, a, b, m);
        hide Cosine, Dot, IsSqrt, Times, OverRoot;
        QuotientOfRoot(Dot(a, b), Times(Dot(a, a), Dot(b, b)), m);
      }
    }
  }

  // ----- the search -----

  datatype Chunk = Chunk(id: string, clientId: string, embedding: Option<Vector>, weight: real)

  datatype Hit = Hit(chunk: Chunk, score: real)

  /** The client's chunk with an embedding that is neither null nor empty. */
  predicate Searchable(c: Chunk, clientId: string) {
    c.clientId == clientId && c.embedding.Some? && c.embedding.value != []
  }

  /** `weight or 1.0`. */
  function Score(sqrt: real -> real, query: Vector, c: Chunk): real
    requires c.embedding.Some?
  {
    Cosine(sqrt, query, c.embedding.value) * (if c.weight == 0.0 then 1.0 else c.weight)
  }

  /** The scored chunks in table order, keyed so that ascending means best first. */
  function Scored(sqrt: real -> real, table: seq<Chunk>, clientId: string, query: Vector): seq<Keyed<Chunk>> {
    if table == [] then []
    else
      var front, c := Scored(sqrt, table[..|table| - 1], clientId, query), table[|table| - 1];
      if Searchable(c, clientId) then front + [Keyed(-Score(sqrt, query, c), c)] else front
  }

  /** Python's `s[:k]`, where a negative k counts from the end. */
  function SliceLength(n: nat, k: int): (r: nat)
    ensures r <= n
  {
    if k >= 0 then (if k < n then k else n) else (if n + k > 0 then n + k else 0)
  }

  /** The best entries of the ranking. */
  function Hits(sqrt: real -> real, table: seq<Chunk>, clientId: string, query: Vector, topK: int): seq<Hit> {
    var ranked := StableSort(Scored(sqrt, table, clientId, query));
    seq(SliceLength(|ranked|, topK),
        i requires 0 <= i < SliceLength(|ranked|, topK) => Hit(ranked[i].item, -ranked[i].key))
  }

  method SearchPython(sqrt: real -> real, table: seq<Chunk>, clientId: string, query: Vector, topK: int)
      returns (hits: seq<Hit>)
    ensures hits == Hits(sqrt, table, clientId, query, topK)
    ensures forall h | h in hits :: h.chunk.clientId == clientId
  {
    var scored: seq<Keyed<Chunk>> := [];
    for i := 0 to |table|
      invariant scored == Scored(sqrt, table[..i], clientId, query)
    {
      assert table[..i + 1][..i] == table[..i];
      var c := table[i];
      if c.clientId == clientId && c.embedding.Some? && c.embedding.value != [] {
        scored := scored + [Keyed(-Score(sqrt, query, c), c)];
      }
    }
    assert table[..|table|] == table;
    var ranked := StableSort(scored);
    hits := seq(SliceLength(|ranked|, topK),
                i requires 0 <= i < SliceLength(|ranked|, topK) => Hit(ranked[i].item, -ranked[i].key));
    HitsAre(sqrt, table, clientId, query, topK);
  }

  /** The scored entries are the searchable chunks of the table, each with its own score. */
  lemma {:induction false} ScoredAre(sqrt: real -> real, table: seq<Chunk>, clientId: string, query: Vector)
    ensures forall e | e in Scored(sqrt, table, clientId, query) ::
              e.item in table && Searchable(e.item, clientId) && e.key == -Score(sqrt, query, e.item)
    ensures forall c | c in table && Searchable(c, clientId) ::
              Keyed(-Score(sqrt, query, c), c) in Scored(sqrt, table, clientId, query)
  {
    if table != [] {
      ScoredAre(sqrt, table[..|table| - 1], clientId, query);
      assert table == table[..|table| - 1] + [table[|table| - 1]];
    }
  }

  /** Every searchable chunk of the client is ranked. */
  lemma EveryChunkRanked(sqrt: real -> real, table: seq<Chunk>, clientId: string, query: Vector, c: Chunk)
    requires c in table && Searchable(c, clientId)
    ensures Keyed(-Score(sqrt, query, c), c) in StableSort(Scored(sqrt, table, clientId, query))
  {
    var scored, entry := Scored(sqrt, table, clientId, query), Keyed(-Score(sqrt, query, c), c);
    ScoredAre(sqrt, table, clientId, query);
    StableSortCorrect(scored);
    hide Scored, StableSort, Score;
    assert entry in multiset(scored);
    assert entry in multiset(StableSort(scored));
  }

  /** The entries stand in table order. */
  lemma {:induction false} ScoredInOrder(sqrt: real -> real, x: seq<Chunk>, y: seq<Chunk>, clientId: string,
                                         query: Vector)
    ensures Scored(sqrt, x + y, clientId, query) == Scored(sqrt, x, clientId, query) + Scored(sqrt, y, clientId, query)
    decreases |y|
  {
    if y == [] {
      assert x + y == x;
    } else {
      assert (x + y)[..|x + y| - 1] == x + y[..|y| - 1];
      ScoredInOrder(sqrt, x, y[..|y| - 1], clientId, query);
    }
  }

  /** The places of the table that may be returned: this client's, with an embedding that is not empty. */
  ghost function Places(table: seq<Chunk>, clientId: string): set<int> {
    set i | 0 <= i < |table| && table[i].clientId == clientId && table[i].embedding.Some?
            && table[i].embedding.value != []
  }

  lemma {:induction false} ScoredCount(sqrt: real -> real, table: seq<Chunk>, clientId: string, query: Vector)
    ensures |Scored(sqrt, table, clientId, query)| == |Places(table, clientId)|
  {
    if table != [] {
      var n := |table| - 1;
      ScoredCount(sqrt, table[..n], clientId, query);
      var before, after := Places(table[..n], clientId), Places(table, clientId);
      assert forall i | 0 <= i < n :: table[..n][i] == table[i];
      assert after == if Searchable(table[n], clientId) then before + {n} else before;
    }
  }

  /** Every hit is a chunk of this client in the table with an embedding, scored by its cosine times its
      weight, a weight of zero counting as one; the best come first, and no such chunk that is missing
      scores higher than any hit. There are `topK` hits if the table has as many such chunks, and a
      negative `topK` leaves out that many. */
  lemma HitsAre(sqrt: real -> real, table: seq<Chunk>, clientId: string, query: Vector, topK: int)
    ensures var hits, n := Hits(sqrt, table, clientId, query, topK), |Places(table, clientId)|;
      && (forall h | h in hits ::
            && h.chunk in table && h.chunk.clientId == clientId
            && h.chunk.embedding.Some? && h.chunk.embedding.value != []
            && h.score == Cosine(sqrt, query, h.chunk.embedding.value)
                          * (if h.chunk.weight == 0.0 then 1.0 else h.chunk.weight))
      && (forall i, j | 0 <= i < j < |hits| :: hits[i].score >= hits[j].score)
      && (forall c, h | c in table && c.clientId == clientId && c.embedding.Some? && c.embedding.value != []
                        && h in hits && (forall g | g in hits :: g.chunk != c) ::
            h.score >= Cosine(sqrt, query, c.embedding.value) * (if c.weight == 0.0 then 1.0 else c.weight))
      && |hits| == (if topK >= 0 then (if topK < n then topK else n) else if topK + n > 0 then topK + n else 0)
  {
    var hits := Hits(sqrt, table, clientId, query, topK);
    ScoredCount(sqrt, table, clientId, query);
    SearchIsTopK(sqrt, table, clientId, query, topK);
    hide Cosine, Places;
    forall h | h in hits
      ensures h.chunk in table && Searchable(h.chunk, clientId) && h.score == Score(sqrt, query, h.chunk)
    {
      var i :| 0 <= i < |hits| && hits[i] == h;
    }
    hide Hits, Scored, StableSort;
    forall c, h | c in table && Searchable(c, clientId) && h in hits && (forall g | g in hits :: g.chunk != c)
      ensures h.score >= Score(sqrt, query, c)
    {
      MissedScoresLess(sqrt, table, clientId, query, topK, c, h);
    }
  }

  lemma MissedScoresLess(sqrt: real -> real, table: seq<Chunk>, clientId: string, query: Vector, topK: int, c: Chunk,
                         h: Hit)
    requires var hits := Hits(sqrt, table, clientId, query, topK);
      c in table && Searchable(c, clientId) && h in hits && forall g | g in hits :: g.chunk != c
    ensures h.score >= Score(sqrt, query, c)
  {
    var hits, ranked := Hits(sqrt, table, clientId, query, topK), StableSort(Scored(sqrt, table, clientId, query));
    hide Score, Scored, StableSort, Searchable;
    var i :| 0 <= i < |hits| && hits[i] == h;
    forall j | 0 <= j < |hits| ensures ranked[j].item != c { assert hits[j] in hits; }
    NothingBetterOmitted(sqrt, table, clientId, query, topK, c, i);
  }

  /** No searchable chunk of the client that is not returned scores higher than one that is. */
  lemma NothingBetterOmitted(sqrt: real -> real, table: seq<Chunk>, clientId: string, query: Vector, topK: int,
                             c: Chunk, i: nat)
    requires var ranked := StableSort(Scored(sqrt, table, clientId, query));
      var n := SliceLength(|ranked|, topK);
      && c in table && Searchable(c, clientId) && i < n
      && forall j | 0 <= j < n :: ranked[j].item != c
    ensures -StableSort(Scored(sqrt, table, clientId, query))[i].key >= Score(sqrt, query, c)
  {
    var ranked := StableSort(Scored(sqrt, table, clientId, query));
    StableSortCorrect(Scored(sqrt, table, clientId, query));
    EveryChunkRanked(sqrt, table, clientId, query, c);
    hide Scored, StableSort, Score;
    var j :| 0 <= j < |ranked| && ranked[j] == Keyed(-Score(sqrt, query, c), c);
    assert ranked[i].key <= ranked[j].key;
  }

  /** The best `topK` scored chunks of this client and of no other, best first, equal
      scores in table order: the ranking permutes all scored chunks, and nothing left out
      scores higher than anything returned. */
  lemma SearchIsTopK(sqrt: real -> real, table: seq<Chunk>, clientId: string, query: Vector, topK: int)
    ensures var scored := Scored(sqrt, table, clientId, query);
      var ranked := StableSort(scored);
      var n := SliceLength(|ranked|, topK);
      && multiset(ranked) == multiset(scored)
      && (forall k :: WithKey(ranked, k) == WithKey(scored, k))
      && (forall i, j | 0 <= i < j < n :: -ranked[i].key >= -ranked[j].key)
      && (forall i, j | 0 <= i < n <= j < |ranked| :: -ranked[i].key >= -ranked[j].key)
      && (forall i | 0 <= i < n :: Searchable(ranked[i].item, clientId) && ranked[i].item in table
                                   && -ranked[i].key == Score(sqrt, query, ranked[i].item))
      && (topK >= 0 ==> n == if topK < |scored| then topK else |scored|)
  {
    var scored := Scored(sqrt, table, clientId, query);
    StableSortCorrect(scored);
    ScoredAre(sqrt, table, clientId, query);
    var ranked := StableSort(scored);
    hide Scored, StableSort, Score, WithKey;
    forall i | 0 <= i < |ranked| ensures ranked[i] in scored {
      assert ranked[i] in multiset(ranked);
    }
  }
}
