// Embedding arithmetic: cosine similarity and mean vectors, over exact reals.

module Vectors {
  type Vector = seq<real>

  /** A product under a name, so that proofs can do without its arithmetic. */
  function Times(x: real, y: real): real {
    x * y
  }

  function AddProduct(x: real, y: real, sum: real): real {
    x * y + sum
  }

  function Dot(left: Vector, right: Vector): real
    requires |left| == |right|
  {
    if left == [] then 0.0 else AddProduct(left[0], right[0], Dot(left[1..], right[1..]))
  }

  /** `root` is what a square-root routine must return for the argument `x`. */
  ghost predicate IsSquareRoot(root: real, x: real) {
    root >= 0.0 && root * root == x
  }

  /** `sqrt` is right on the squared norms of both vectors; nothing is asked of it elsewhere. */
  ghost predicate NormsExact(sqrt: real -> real, left: Vector, right: Vector) {
    && IsSquareRoot(sqrt(Dot(left, left)), Dot(left, left))
    && IsSquareRoot(sqrt(Dot(right, right)), Dot(right, right))
  }

  /** A dot product divided by the norms; a zero norm gives 0. */
  function Normalized(dot: real, leftNorm: real, rightNorm: real): real {
    if leftNorm == 0.0 || rightNorm == 0.0 then 0.0 else dot / (leftNorm * rightNorm)
  }

  /** A missing embedding is the empty vector; every degenerate input scores 0. */
  function CosineSimilarity(sqrt: real -> real, left: Vector, right: Vector): real {
    if left == [] || right == [] || |left| != |right| then 0.0
    else Normalized(Dot(left, right), sqrt(Dot(left, left)), sqrt(Dot(right, right)))
  }

  lemma {:induction false} DotSymmetric(left: Vector, right: Vector)
    requires |left| == |right|
    ensures Dot(left, right) == Dot(right, left)
  {
    if left != [] {
      DotSymmetric(left[1..], right[1..]);
    }
  }

  lemma SquareNonNegative(x: real)
    ensures x * x >= 0.0
  {
  }

  lemma {:induction false} SquaredNormNonNegative(v: Vector)
    ensures Dot(v, v) >= 0.0
  {
    if v != [] {
      SquareNonNegative(v[0]);
      SquaredNormNonNegative(v[1..]);
    }
  }

  lemma SquareStrict(small: real, big: real)
    requires 0.0 <= small < big
    ensures small * small < big * big
  {
    var gap, sum := big - small, big + small;
    assert gap * sum > 0.0;
    assert big * big == small * small + gap * sum;
  }

  lemma SquareOrder(small: real, big: real)
    requires big >= 0.0
    requires small * small <= big * big
    ensures -big <= small <= big
  {
    if small > big {
      SquareStrict(big, small);
      assert false;
    } else if -small > big {
      SquareStrict(big, -small);
      assert false;
    }
  }

  ghost predicate SquareBounded(dot: real, left: real, right: real) {
    dot * dot <= left * right
  }

  lemma CrossTerm(x: real, y: real, d: real, a: real, b: real)
    requires a >= 0.0 && b >= 0.0
    requires d * d <= a * b
    ensures 2.0 * (x * y * d) <= x * x * b + y * y * a
  {
    var cross, p, q, s := x * y * d, x * x * b, y * y * a, x * x * (y * y);
    SquareNonNegative(x);
    SquareNonNegative(y);
    assert p >= 0.0 && q >= 0.0 && s >= 0.0;
    assert cross * cross == s * (d * d);
    assert s * (d * d) <= s * (a * b);
    assert p * q == s * (a * b);
    SquareNonNegative(p - q);
    assert (p + q) * (p + q) == (p - q) * (p - q) + 4.0 * (p * q);
    assert (2.0 * cross) * (2.0 * cross) == 4.0 * (cross * cross);
    SquareOrder(2.0 * cross, p + q);
  }

  /** One step of Cauchy-Schwarz: prefixing coordinates x, y to vectors with squared norms
      a, b and inner product d. */
  lemma CauchySchwarzStep(x: real, y: real, d: real, a: real, b: real)
    requires a >= 0.0 && b >= 0.0
    requires SquareBounded(d, a, b)
    ensures SquareBounded(AddProduct(x, y, d), AddProduct(x, x, a), AddProduct(y, y, b))
  {
    CrossTerm(x, y, d, a, b);
    var dot, left, right := x * y + d, x * x + a, y * y + b;
    assert dot * dot == x * x * (y * y) + 2.0 * (x * y * d) + d * d;
    assert left * right == x * x * (y * y) + x * x * b + y * y * a + a * b;
  }

  /** The Cauchy-Schwarz inequality. */
  lemma {:induction false} CauchySchwarz(left: Vector, right: Vector)
    requires |left| == |right|
    ensures SquareBounded(Dot(left, right), Dot(left, left), Dot(right, right))
  {
    if left != [] {
      hide SquareBounded, AddProduct;
      CauchySchwarz(left[1..], right[1..]);
      SquaredNormNonNegative(left[1..]);
      SquaredNormNonNegative(right[1..]);
      CauchySchwarzStep(left[0], right[0], Dot(left[1..], right[1..]),
                        Dot(left[1..], left[1..]), Dot(right[1..], right[1..]));
    }
  }

  lemma NormalizedSymmetric(dot: real, leftNorm: real, rightNorm: real)
    ensures Normalized(dot, leftNorm, rightNorm) == Normalized(dot, rightNorm, leftNorm)
  {
  }

  lemma CosineSymmetric(sqrt: real -> real, left: Vector, right: Vector)
    ensures CosineSimilarity(sqrt, left, right) == CosineSimilarity(sqrt, right, left)
  {
    hide Normalized;
    if |left| == |right| {
      DotSymmetric(left, right);
      NormalizedSymmetric(Dot(left, right), sqrt(Dot(left, left)), sqrt(Dot(right, right)));
    }
  }

  lemma QuotientWithin(dividend: real, divisor: real, low: real, high: real)
    requires divisor > 0.0
    requires low * divisor <= dividend <= high * divisor
    ensures low <= dividend / divisor <= high
  {
  }

  lemma NormalizedWithinUnit(dot: real, leftNorm: real, rightNorm: real, left: real, right: real)
    requires IsSquareRoot(leftNorm, left) && IsSquareRoot(rightNorm, right)
    requires SquareBounded(dot, left, right)
    ensures -1.0 <= Normalized(dot, leftNorm, rightNorm) <= 1.0
  {
    if leftNorm != 0.0 && rightNorm != 0.0 {
      var product := leftNorm * rightNorm;
      assert product > 0.0;
      assert product * product == left * right;
      SquareOrder(dot, product);
      QuotientWithin(dot, product, -1.0, 1.0);
    }
  }

  lemma CosineWithinUnit(sqrt: real -> real, left: Vector, right: Vector)
    requires NormsExact(sqrt, left, right)
    ensures -1.0 <= CosineSimilarity(sqrt, left, right) <= 1.0
  {
    hide Normalized, SquareBounded, IsSquareRoot, Dot;
    if left != [] && |left| == |right| {
      CauchySchwarz(left, right);
      NormalizedWithinUnit(Dot(left, right), sqrt(Dot(left, left)), sqrt(Dot(right, right)),
                           Dot(left, left), Dot(right, right));
    }
  }

  lemma NormalizedSelf(norm: real, square: real)
    requires IsSquareRoot(norm, square)
    ensures Normalized(square, norm, norm) == if square == 0.0 then 0.0 else 1.0
  {
    if norm > 0.0 {
      SquareStrict(0.0, norm);
      assert square / square == 1.0;
    }
  }

  /** A vector scores 1 against itself unless it is empty or has norm zero. */
  lemma CosineOfSelf(sqrt: real -> real, v: Vector)
    requires NormsExact(sqrt, v, v)
    ensures CosineSimilarity(sqrt, v, v) == if v == [] || Dot(v, v) == 0.0 then 0.0 else 1.0
  {
    hide Normalized, IsSquareRoot;
    NormalizedSelf(sqrt(Dot(v, v)), Dot(v, v));
  }

  // ---- what the cosine measures ----

  lemma DotOfOne(x: real, y: real)
    ensures Dot([x], [y]) == x * y
  {
  }

  /** The dot product adds up over coordinates. */
  lemma {:induction false} DotConcat(a: Vector, b: Vector, c: Vector, d: Vector)
    requires |a| == |c| && |b| == |d|
    ensures Dot(a + b, c + d) == Dot(a, c) + Dot(b, d)
  {
    if a == [] {
      assert a + b == b && c + d == d;
    } else {
      assert (a + b)[1..] == a[1..] + b && (c + d)[1..] == c[1..] + d;
      DotConcat(a[1..], b, c[1..], d);
    }
  }

  function Scale(v: Vector, k: real): (r: Vector)
    ensures |r| == |v| && forall i :: 0 <= i < |v| ==> r[i] == k * v[i]
  {
    seq(|v|, i requires 0 <= i < |v| => k * v[i])
  }

  lemma ScaledProduct(x: real, y: real, k: real, d: real)
    ensures AddProduct(k * x, y, k * d) == k * AddProduct(x, y, d)
  {
    assert (k * x) * y == k * (x * y);
    assert k * (x * y + d) == k * (x * y) + k * d;
  }

  lemma {:induction false} DotScale(a: Vector, b: Vector, k: real)
    requires |a| == |b|
    ensures Dot(Scale(a, k), b) == Times(k, Dot(a, b))
  {
    if a != [] {
      var scaled, rest := Scale(a, k), Scale(a[1..], k);
      forall i | 0 <= i < |rest|
        ensures scaled[1..][i] == rest[i]
      {
        assert scaled[i + 1] == k * a[i + 1] && rest[i] == k * a[1..][i];
      }
      assert scaled[1..] == rest && scaled[0] == k * a[0];
      DotScale(a[1..], b[1..], k);
      ScaledProduct(a[0], b[0], k, Dot(a[1..], b[1..]));
    }
  }

  lemma SquaredNormOfScale(a: Vector, k: real)
    ensures Dot(Scale(a, k), Scale(a, k)) == Times(k * k, Dot(a, a))
  {
    DotScale(a, Scale(a, k), k);
    DotSymmetric(a, Scale(a, k));
    DotScale(a, a, k);
    assert k * (k * Dot(a, a)) == k * k * Dot(a, a);
  }

  /** No direction to compare: an embedding is missing, of another dimension, or of norm zero. */
  ghost predicate Degenerate(left: Vector, right: Vector) {
    left == [] || right == [] || |left| != |right| || Dot(left, left) == 0.0 || Dot(right, right) == 0.0
  }

  lemma RootOfPositive(root: real, x: real)
    requires IsSquareRoot(root, x)
    ensures root == 0.0 <==> x == 0.0
  {
    if root > 0.0 {
      SquareStrict(0.0, root);
    }
  }

  lemma NormalizedTimes(dot: real, leftNorm: real, rightNorm: real)
    requires leftNorm > 0.0 && rightNorm > 0.0
    ensures Times(leftNorm, rightNorm) > 0.0 && Times(Normalized(dot, leftNorm, rightNorm), Times(leftNorm, rightNorm)) == dot
  {
  }

  /** The cosine times both norms is the dot product; without a direction it is 0. */
  lemma CosineTimesNorms(sqrt: real -> real, left: Vector, right: Vector)
    requires NormsExact(sqrt, left, right)
    ensures if Degenerate(left, right) then CosineSimilarity(sqrt, left, right) == 0.0
            else
              var norms := Times(sqrt(Dot(left, left)), sqrt(Dot(right, right)));
              norms > 0.0 && Times(CosineSimilarity(sqrt, left, right), norms) == Dot(left, right)
  {
    RootOfPositive(sqrt(Dot(left, left)), Dot(left, left));
    RootOfPositive(sqrt(Dot(right, right)), Dot(right, right));
    if !Degenerate(left, right) {
      hide Normalized, Times;
      NormalizedTimes(Dot(left, right), sqrt(Dot(left, left)), sqrt(Dot(right, right)));
    } else {
      hide Dot;
    }
  }

  lemma TimesOrder(p: real, q: real, norms: real)
    requires norms > 0.0
    ensures Times(p, norms) >= Times(q, norms) <==> p >= q
  {
    var gap := p - q;
    assert p * norms - q * norms == gap * norms;
    if gap < 0.0 {
      assert -gap * norms > 0.0;
    }
  }

  lemma RootsAgree(a: real, b: real)
    requires a >= 0.0 && b >= 0.0 && a * a == b * b
    ensures a == b
  {
    if a < b {
      SquareStrict(a, b);
    } else if b < a {
      SquareStrict(b, a);
    }
  }

  lemma QuotientsAgree(p: real, q: real, norms: real)
    requires norms > 0.0 && p * norms == q * norms
    ensures p == q
  {
  }

  lemma ScaledNorm(root: real, scaledRoot: real, square: real, k: real)
    requires k > 0.0 && IsSquareRoot(root, square) && IsSquareRoot(scaledRoot, Times(k * k, square))
    ensures scaledRoot == Times(k, root)
  {
    assert (k * root) * (k * root) == k * k * (root * root);
    assert k * root >= 0.0;
    RootsAgree(scaledRoot, k * root);
  }

  lemma ScaledCosine(c: real, scaled: real, norm: real, other: real, k: real, dot: real)
    requires k > 0.0 && Times(norm, other) > 0.0
    requires Times(c, Times(norm, other)) == dot
    ensures Times(scaled, Times(Times(k, norm), other)) == Times(k, dot) ==> scaled == c
    ensures Times(scaled, Times(Times(k, norm), other)) == Times(-k, dot) ==> scaled == -c
  {
    var norms := norm * other;
    assert (k * norm) * other == k * norms;
    assert k * norms > 0.0;
    assert k * dot == c * (k * norms);
    if scaled * ((k * norm) * other) == k * dot {
      QuotientsAgree(scaled, c, k * norms);
    }
    if scaled * ((k * norm) * other) == -k * dot {
      assert (-c) * (k * norms) == -k * dot;
      QuotientsAgree(scaled, -c, k * norms);
    }
  }

  lemma ProductIsZeroIff(x: real, y: real)
    requires x != 0.0
    ensures x * y == 0.0 <==> y == 0.0
  {
    if x * y == 0.0 {
      assert y == (x * y) / x;
    }
  }

  lemma DegenerateScale(left: Vector, right: Vector, k: real)
    requires k != 0.0
    ensures Degenerate(Scale(left, k), right) <==> Degenerate(left, right)
  {
    SquaredNormOfScale(left, k);
    var square := k * k;
    SquareStrict(0.0, if k > 0.0 then k else -k);
    assert square != 0.0;
    ProductIsZeroIff(square, Dot(left, left));
    hide Dot;
  }

  /** Only the direction counts: stretching a vector keeps the cosine, turning it round negates it. */
  lemma CosineOfScaled(sqrt: real -> real, left: Vector, right: Vector, k: real)
    requires k != 0.0 && NormsExact(sqrt, left, right) && NormsExact(sqrt, Scale(left, k), right)
    ensures CosineSimilarity(sqrt, Scale(left, k), right)
         == if k > 0.0 then CosineSimilarity(sqrt, left, right) else -CosineSimilarity(sqrt, left, right)
  {
    CosineTimesNorms(sqrt, left, right);
    CosineTimesNorms(sqrt, Scale(left, k), right);
    DegenerateScale(left, right, k);
    if !Degenerate(left, right) {
      SquaredNormOfScale(left, k);
      DotScale(left, right, k);
      var size := if k > 0.0 then k else -k;
      assert size * size == k * k;
      hide Dot, CosineSimilarity, Times, IsSquareRoot;
      ScaledNorm(sqrt(Dot(left, left)), sqrt(Dot(Scale(left, k), Scale(left, k))), Dot(left, left), size);
      ScaledCosine(CosineSimilarity(sqrt, left, right), CosineSimilarity(sqrt, Scale(left, k), right),
                   sqrt(Dot(left, left)), sqrt(Dot(right, right)), size, Dot(left, right));
    }
  }

  // ---- mean of the non-empty vectors ----

  /** The non-empty vectors, in order. */
  function ValidVectors(vectors: seq<Vector>): (valid: seq<Vector>)
    ensures forall v :: v in valid <==> v in vectors && v != []
  {
    if vectors == [] then []
    else if vectors[0] == [] then ValidVectors(vectors[1..])
    else [vectors[0]] + ValidVectors(vectors[1..])
  }

  function SumAt(vectors: seq<Vector>, index: nat): real
    requires forall v :: v in vectors ==> index < |v|
  {
    if vectors == [] then 0.0 else vectors[0][index] + SumAt(vectors[1..], index)
  }

  lemma SumOfOne(v: Vector, index: nat)
    requires index < |v|
    ensures SumAt([v], index) == v[index]
  {
    assert SumAt([v][1..], index) == 0.0;
  }

  lemma {:induction false} SumConcat(a: seq<Vector>, b: seq<Vector>, index: nat)
    requires forall v :: v in a + b ==> index < |v|
    ensures (forall v :: v in a ==> index < |v|) && forall v :: v in b ==> index < |v|
    ensures SumAt(a + b, index) == SumAt(a, index) + SumAt(b, index)
  {
    assert (forall v :: v in a ==> v in a + b) && forall v :: v in b ==> v in a + b;
    if a == [] {
      assert a + b == b;
    } else {
      assert (a + b)[1..] == a[1..] + b;
      SumConcat(a[1..], b, index);
    }
  }

  /** The dimension of the first non-empty vector. */
  function Dimension(vectors: seq<Vector>): nat {
    var valid := ValidVectors(vectors);
    if valid == [] then 0 else |valid[0]|
  }

  /** Every non-empty vector has the dimension of the first one. */
  ghost predicate SameDimension(vectors: seq<Vector>) {
    forall v :: v in vectors && v != [] ==> |v| == Dimension(vectors)
  }

  function AverageVector(vectors: seq<Vector>): (mean: Vector)
    requires SameDimension(vectors)
    ensures |mean| == Dimension(vectors)
    ensures mean == [] <==> forall v :: v in vectors ==> v == []
  {
    var valid := ValidVectors(vectors);
    assert valid != [] ==> valid[0] in valid;
    assert forall v :: v in vectors && v != [] ==> v in valid;
    seq(Dimension(vectors), index requires 0 <= index < Dimension(vectors) => SumAt(valid, index) / (|valid| as real))
  }

  /** `x` added up `n` times. */
  function Repeated(x: real, n: nat): real {
    if n == 0 then 0.0 else x + Repeated(x, n - 1)
  }

  lemma {:induction false} RepeatedIsProduct(x: real, n: nat)
    ensures Repeated(x, n) == x * (n as real)
  {
    if n > 0 {
      RepeatedIsProduct(x, n - 1);
      var count := (n - 1) as real;
      assert n as real == count + 1.0;
      assert x * (count + 1.0) == x * count + x;
    }
  }

  lemma {:induction false} SumWithinBounds(vectors: seq<Vector>, index: nat, low: real, high: real)
    requires forall v :: v in vectors ==> index < |v| && low <= v[index] <= high
    ensures Repeated(low, |vectors|) <= SumAt(vectors, index) <= Repeated(high, |vectors|)
  {
    if vectors != [] {
      SumWithinBounds(vectors[1..], index, low, high);
      assert vectors[0] in vectors;
    }
  }

  lemma AverageAt(vectors: seq<Vector>, index: nat)
    requires SameDimension(vectors)
    requires index < Dimension(vectors)
    ensures ValidVectors(vectors) != []
    ensures forall v :: v in ValidVectors(vectors) ==> index < |v|
    ensures AverageVector(vectors)[index] == SumAt(ValidVectors(vectors), index) / (|ValidVectors(vectors)| as real)
  {
  }

  lemma QuotientTimes(mean: real, sum: real, count: real)
    requires count > 0.0 && mean == sum / count
    ensures mean * count == sum
  {
  }

  /** Each coordinate of the mean, taken as often as there are non-empty vectors, is their sum. */
  lemma AverageIsMean(vectors: seq<Vector>, index: nat)
    requires SameDimension(vectors)
    requires index < Dimension(vectors)
    ensures var valid := ValidVectors(vectors);
            (forall v :: v in valid ==> index < |v|) && AverageVector(vectors)[index] * (|valid| as real) == SumAt(valid, index)
  {
    hide ValidVectors, SumAt, AverageVector, SameDimension, Dimension;
    AverageAt(vectors, index);
    var valid := ValidVectors(vectors);
    QuotientTimes(AverageVector(vectors)[index], SumAt(valid, index), |valid| as real);
  }

  lemma MeanWithin(sum: real, n: nat, low: real, high: real)
    requires n > 0
    requires Repeated(low, n) <= sum <= Repeated(high, n)
    ensures low <= sum / (n as real) <= high
  {
    RepeatedIsProduct(low, n);
    RepeatedIsProduct(high, n);
    QuotientWithin(sum, n as real, low, high);
  }

  /** Each coordinate of the mean lies between any bounds on that coordinate of the inputs. */
  lemma AverageWithinBounds(vectors: seq<Vector>, index: nat, low: real, high: real)
    requires SameDimension(vectors)
    requires index < Dimension(vectors)
    requires forall v :: v in ValidVectors(vectors) ==> index < |v| && low <= v[index] <= high
    ensures low <= AverageVector(vectors)[index] <= high
  {
    var valid := ValidVectors(vectors);
    AverageAt(vectors, index);
    SumWithinBounds(valid, index, low, high);
    MeanWithin(SumAt(valid, index), |valid|, low, high);
  }
}
