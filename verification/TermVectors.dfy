/** Term frequencies and their cosine similarity, in exact arithmetic. */
module TermVectors {
  type Vector = map<string, nat>

  function At(v: Vector, w: string): int {
    if w in v then v[w] else 0
  }

  // ---------- term frequencies ----------

  /** How often each word occurs. */
  ghost function Frequencies(words: seq<string>): Vector {
    map w | w in words :: multiset(words)[w]
  }

  method GetTermFrequencyVector(words: seq<string>) returns (freq: Vector)
    ensures freq == Frequencies(words)
  {
    freq := map[];
    for i := 0 to |words|
      invariant freq == Frequencies(words[..i])
    {
      var w := words[i];
      assert words[..i + 1] == words[..i] + [w];
      freq := freq[w := (if w in freq then freq[w] else 0) + 1];
    }
    assert words[..|words|] == words;
  }

  /** Only the multiset of words matters. */
  lemma FrequenciesOfMultiset(words: seq<string>, others: seq<string>)
    requires multiset(words) == multiset(others)
    ensures Frequencies(words) == Frequencies(others)
  {
    assert forall w :: w in words <==> w in multiset(words);
    assert forall w :: w in others <==> w in multiset(others);
  }

  // ---------- sums over words ----------

  ghost function Sum(ws: set<string>, f: string -> int): int
    decreases |ws|
  {
    if ws == {} then 0
    else
      var w :| w in ws;
      f(w) + Sum(ws - {w}, f)
  }

  lemma {:induction false} SumWithout(ws: set<string>, f: string -> int, w: string)
    requires w in ws
    ensures Sum(ws, f) == f(w) + Sum(ws - {w}, f)
    decreases |ws|
  {
    var k :| k in ws && Sum(ws, f) == f(k) + Sum(ws - {k}, f);
    if k != w {
      SumWithout(ws - {k}, f, w);
      SumWithout(ws - {w}, f, k);
      assert ws - {k} - {w} == ws - {w} - {k};
    }
  }

  /** A sum of combinations is the combination of the sums. */
  lemma {:induction false} SumCombines(ws: set<string>, f: string -> int, g: string -> int, h: string -> int,
                                       e: string -> int, x: int, y: int, z: int)
    requires forall w | w in ws :: e(w) == x * f(w) + y * g(w) + z * h(w)
    ensures Sum(ws, e) == x * Sum(ws, f) + y * Sum(ws, g) + z * Sum(ws, h)
    decreases |ws|
  {
    if ws != {} {
      var w :| w in ws;
      var rest := ws - {w};
      SumCombines(rest, f, g, h, e, x, y, z);
      SumsWithout(ws, f, g, h, e, w);
      Combine(x, y, z, f(w), g(w), h(w), Sum(rest, f), Sum(rest, g), Sum(rest, h));
    }
  }

  lemma SumsWithout(ws: set<string>, f: string -> int, g: string -> int, h: string -> int, e: string -> int, w: string)
    requires w in ws
    ensures Sum(ws, f) == f(w) + Sum(ws - {w}, f) && Sum(ws, g) == g(w) + Sum(ws - {w}, g)
    ensures Sum(ws, h) == h(w) + Sum(ws - {w}, h) && Sum(ws, e) == e(w) + Sum(ws - {w}, e)
  {
    SumWithout(ws, f, w);
    SumWithout(ws, g, w);
    SumWithout(ws, h, w);
    SumWithout(ws, e, w);
  }

  lemma Distribute(x: int, a: int, b: int)
    ensures x * (a + b) == x * a + x * b
  {
  }

  lemma Combine(x: int, y: int, z: int, a: int, b: int, c: int, a': int, b': int, c': int)
    ensures x * (a + a') + y * (b + b') + z * (c + c') == (x * a + y * b + z * c) + (x * a' + y * b' + z * c')
  {
    Distribute(x, a, a');
    Distribute(y, b, b');
    Distribute(z, c, c');
  }

  lemma {:induction false} SumNonNegative(ws: set<string>, f: string -> int)
    requires forall w | w in ws :: f(w) >= 0
    ensures Sum(ws, f) >= 0
    ensures Sum(ws, f) == 0 <==> forall w | w in ws :: f(w) == 0
    decreases |ws|
  {
    if ws != {} {
      var w :| w in ws;
      SumWithout(ws, f, w);
      SumNonNegative(ws - {w}, f);
    }
  }

  // ---------- the three sums of the similarity ----------

  function Words(a: Vector, b: Vector): set<string> {
    a.Keys + b.Keys
  }

  function Products(a: Vector, b: Vector): string -> int {
    w => At(a, w) * At(b, w)
  }

  ghost function Dot(a: Vector, b: Vector): int {
    Sum(Words(a, b), Products(a, b))
  }

  /** The squared norm of `a`, summed over the words of both. */
  ghost function SquaredNorm(a: Vector, b: Vector): int {
    Sum(Words(a, b), Products(a, a))
  }

  method CosineSums(a: Vector, b: Vector) returns (dot: int, normA: int, normB: int)
    ensures dot == Dot(a, b) && normA == SquaredNorm(a, b) && normB == SquaredNorm(b, a)
  {
    dot, normA, normB := 0, 0, 0;
    var all := a.Keys + b.Keys;
    var left := all;
    assert Words(b, a) == all;
    while left != {}
      invariant left <= all
      invariant Dot(a, b) == dot + Sum(left, Products(a, b))
      invariant SquaredNorm(a, b) == normA + Sum(left, Products(a, a))
      invariant SquaredNorm(b, a) == normB + Sum(left, Products(b, b))
      decreases |left|
    {
      var w :| w in left;
      SumWithout(left, Products(a, b), w);
      SumWithout(left, Products(a, a), w);
      SumWithout(left, Products(b, b), w);
      dot := dot + At(a, w) * At(b, w);
      normA := normA + At(a, w) * At(a, w);
      normB := normB + At(b, w) * At(b, w);
      left := left - {w};
    }
  }

  /** The similarity: zero for an empty vector, else the non-negative root of dot^2 / (normA * normB). */
  ghost predicate IsScore(x: real, a: Vector, b: Vector) {
    var d, p, q := Dot(a, b), SquaredNorm(a, b), SquaredNorm(b, a);
    x >= 0.0 && if p == 0 || q == 0 then x == 0.0 else x * x * (p * q) as real == (d * d) as real
  }

  // ---------- Cauchy-Schwarz ----------

  function Residue(a: Vector, b: Vector, q: int, d: int): string -> int {
    w => (q * At(a, w) - d * At(b, w)) * (q * At(a, w) - d * At(b, w))
  }

  lemma Square(q: int, d: int, x: int, y: int)
    ensures (q * x - d * y) * (q * x - d * y) == (q * q) * (x * x) + (-2 * q * d) * (x * y) + (d * d) * (y * y)
  {
  }

  /** The squares of q*a - d*b add up to q * (p*q - d*d). */
  lemma ResidueSum(a: Vector, b: Vector)
    ensures var d, p, q := Dot(a, b), SquaredNorm(a, b), SquaredNorm(b, a);
            Sum(Words(a, b), Residue(a, b, q, d)) == q * (p * q - d * d)
  {
    var d, p, q := Dot(a, b), SquaredNorm(a, b), SquaredNorm(b, a);
    var ws := Words(a, b);
    assert Words(b, a) == ws;
    forall w | w in ws
      ensures Residue(a, b, q, d)(w) ==
              (q * q) * Products(a, a)(w) + (-2 * q * d) * Products(a, b)(w) + (d * d) * Products(b, b)(w)
    {
      Square(q, d, At(a, w), At(b, w));
    }
    SumCombines(ws, Products(a, a), Products(a, b), Products(b, b), Residue(a, b, q, d), q * q, -2 * q * d, d * d);
    Collect(p, q, d);
  }

  lemma Collect(p: int, q: int, d: int)
    ensures (q * q) * p + (-2 * q * d) * d + (d * d) * q == q * (p * q - d * d)
  {
  }

  lemma SquareNonNegative(x: int)
    ensures x * x >= 0 && (x * x == 0 <==> x == 0)
  {
  }

  lemma NormMeans(a: Vector, b: Vector)
    ensures SquaredNorm(a, b) >= 0
    ensures SquaredNorm(a, b) == 0 <==> forall w :: At(a, w) == 0
  {
    forall w ensures Products(a, a)(w) >= 0 && (Products(a, a)(w) == 0 <==> At(a, w) == 0) {
      SquareNonNegative(At(a, w));
    }
    SumNonNegative(Words(a, b), Products(a, a));
    assert forall w :: w !in Words(a, b) ==> At(a, w) == 0;
  }

  // ---------- main results ----------

  lemma DotSymmetric(a: Vector, b: Vector)
    ensures Dot(a, b) == Dot(b, a)
  {
    var ws := Words(a, b);
    assert Words(b, a) == ws;
    forall w | w in ws
      ensures Products(a, b)(w) == 1 * Products(b, a)(w) + 0 * Products(a, a)(w) + 0 * Products(a, a)(w)
    {
      Commute(At(a, w), At(b, w));
    }
    SumCombines(ws, Products(b, a), Products(a, a), Products(a, a), Products(a, b), 1, 0, 0);
  }

  /** The three sums of one order are those of the other, with the norms exchanged, and so is the score. */
  lemma SimilaritySymmetric(x: real, a: Vector, b: Vector)
    ensures Dot(a, b) == Dot(b, a)
    ensures IsScore(x, a, b) <==> IsScore(x, b, a)
  {
    DotSymmetric(a, b);
    Commute(SquaredNorm(a, b), SquaredNorm(b, a));
  }

  lemma Commute(x: int, y: int)
    ensures x * y == y * x
  {
  }

  /** Cauchy-Schwarz, with equality exactly where q*a and d*b are the same vector. */
  lemma CauchySchwarz(a: Vector, b: Vector)
    ensures var d, p, q := Dot(a, b), SquaredNorm(a, b), SquaredNorm(b, a);
            && d * d <= p * q && d >= 0
            && (q > 0 ==> (d * d == p * q <==> forall w | w in Words(a, b) :: q * At(a, w) == d * At(b, w)))
  {
    var d, p, q := Dot(a, b), SquaredNorm(a, b), SquaredNorm(b, a);
    var ws := Words(a, b);
    NormMeans(b, a);
    ResidueSum(a, b);
    forall w | w in ws
      ensures Residue(a, b, q, d)(w) >= 0 && (Residue(a, b, q, d)(w) == 0 <==> q * At(a, w) == d * At(b, w))
    {
      SquareNonNegative(q * At(a, w) - d * At(b, w));
    }
    SumNonNegative(ws, Residue(a, b, q, d));
    forall w | w in ws ensures Products(a, b)(w) >= 0 && (q == 0 ==> Products(a, b)(w) == 0) {
      ProductNonNegative(At(a, w), At(b, w));
    }
    SumNonNegative(ws, Products(a, b));
    Factor(q, p * q - d * d);
  }

  lemma ProductNonNegative(x: int, y: int)
    requires x >= 0 && y >= 0
    ensures x * y >= 0 && (y == 0 ==> x * y == 0)
  {
  }

  lemma Factor(q: int, r: int)
    ensures q > 0 && q * r >= 0 ==> r >= 0
    ensures q > 0 ==> (q * r == 0 <==> r == 0)
  {
  }

  /** Some positive multiples of the two vectors are equal. */
  ghost predicate Proportional(a: Vector, b: Vector) {
    exists x: int, y: int | x > 0 && y > 0 :: Scaled(a, b, x, y)
  }

  ghost predicate Scaled(a: Vector, b: Vector, x: int, y: int) {
    forall w: string :: x * At(a, w) == y * At(b, w)
  }

  /** Scaled vectors have scaled sums. */
  lemma ScaledSums(a: Vector, b: Vector, x: int, y: int)
    requires Scaled(a, b, x, y)
    ensures x * Dot(a, b) == y * SquaredNorm(b, a) && x * SquaredNorm(a, b) == y * Dot(a, b)
  {
    var ws := Words(a, b);
    assert Words(b, a) == ws;
    var f: string -> int := w => x * (At(a, w) * At(b, w));
    var g: string -> int := w => x * (At(a, w) * At(a, w));
    forall w | w in ws
      ensures f(w) == y * (At(b, w) * At(b, w)) && g(w) == y * (At(a, w) * At(b, w))
    {
      assert x * At(a, w) == y * At(b, w);
      Regroup(x, At(a, w), At(b, w), y, At(b, w));
      Regroup(x, At(a, w), At(a, w), y, At(b, w));
      Commute(At(a, w), At(b, w));
    }
    SumScales(ws, Products(a, b), f, x);
    SumScales(ws, Products(b, b), f, y);
    SumScales(ws, Products(a, a), g, x);
    SumScales(ws, Products(a, b), g, y);
  }

  lemma Regroup(x: int, u: int, v: int, y: int, t: int)
    requires x * u == y * t
    ensures x * (u * v) == y * (t * v)
  {
    assert x * (u * v) == (x * u) * v;
    assert y * (t * v) == (y * t) * v;
  }

  lemma SumScales(ws: set<string>, f: string -> int, e: string -> int, x: int)
    requires forall w | w in ws :: e(w) == x * f(w)
    ensures Sum(ws, e) == x * Sum(ws, f)
  {
    SumCombines(ws, f, f, f, e, x, 0, 0);
  }

  /** Any score lies between 0 and 1, and is 1 exactly for proportional vectors that are not empty. */
  lemma ScoreInUnitInterval(x: real, a: Vector, b: Vector)
    requires IsScore(x, a, b)
    ensures 0.0 <= x <= 1.0
    ensures x == 1.0 <==> SquaredNorm(a, b) > 0 && Proportional(a, b)
  {
    var d, p, q := Dot(a, b), SquaredNorm(a, b), SquaredNorm(b, a);
    NormMeans(a, b);
    NormMeans(b, a);
    CauchySchwarz(a, b);
    if p > 0 && q > 0 {
      assert p * q > 0;
      RootAtMostOne(x, (d * d) as real, (p * q) as real);
      ProportionalIff(a, b);
    } else if p > 0 && Proportional(a, b) {
      var s: int, t: int :| s > 0 && t > 0 && Scaled(a, b, s, t);
      forall w ensures At(a, w) == 0 {
        assert s * At(a, w) == t * At(b, w) == 0;
        Factor(s, At(a, w));
      }
      assert false;
    }
  }

  lemma ProportionalIff(a: Vector, b: Vector)
    requires SquaredNorm(a, b) > 0 && SquaredNorm(b, a) > 0
    ensures Dot(a, b) * Dot(a, b) == SquaredNorm(a, b) * SquaredNorm(b, a) <==> Proportional(a, b)
  {
    var d, p, q := Dot(a, b), SquaredNorm(a, b), SquaredNorm(b, a);
    CauchySchwarz(a, b);
    if d * d == p * q {
      assert p * q > 0;
      assert d > 0;
      assert Scaled(a, b, q, d) by {
        forall w: string ensures q * At(a, w) == d * At(b, w) {
          assert w !in Words(a, b) ==> At(a, w) == 0 && At(b, w) == 0;
        }
      }
    }
    if Proportional(a, b) {
      var x: int, y: int :| x > 0 && y > 0 && Scaled(a, b, x, y);
      ScaledSums(a, b, x, y);
      CrossMultiply(x, y, d, p, q);
    }
  }

  lemma CrossMultiply(x: int, y: int, d: int, p: int, q: int)
    requires x > 0 && y > 0 && x * d == y * q && x * p == y * d
    ensures d * d == p * q
  {
    assert (x * p) * q == (y * d) * q;
    assert x * (p * q) == d * (y * q) == d * (x * d) == x * (d * d);
    Factor(x, p * q - d * d);
    assert x * (p * q - d * d) == 0;
  }

  lemma RootAtMostOne(x: real, u: real, v: real)
    requires x >= 0.0 && v > 0.0 && 0.0 <= u <= v && x * x * v == u
    ensures x <= 1.0 && (x == 1.0 <==> u == v)
  {
    if x > 1.0 {
      SquareAboveOne(x, v);
    } else if x < 1.0 {
      assert x * (1.0 - x) >= 0.0;
      assert x * x <= x;
      assert x * x * v < v;
    }
  }

  lemma SquareAboveOne(x: real, v: real)
    requires x > 1.0 && v > 0.0
    ensures x * x * v > v
  {
    assert x * x > 1.0;
  }
}
