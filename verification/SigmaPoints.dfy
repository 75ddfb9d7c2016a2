/**
  The sigma points of the unscented transform, over exact reals. The Cholesky factor of the
  covariance (as its columns) and the square root of n + kappa are given; the points and weights
  are made as the filter makes them, and carry every affine map's mean and covariance exactly.
 */
module SigmaPoints {

  type Vector = seq<real>

  function At(x: Vector, i: int): real {
    if 0 <= i < |x| then x[i] else 0.0
  }

  // ------------------------------------------------------------------ sums

  function Total(n: nat, f: int -> real): real {
    if n == 0 then 0.0 else Total(n - 1, f) + f(n - 1)
  }

  lemma {:induction false} TotalOfSums(n: nat, f: int -> real, g: int -> real, h: int -> real)
    requires forall i :: 0 <= i < n ==> h(i) == f(i) + g(i)
    ensures Total(n, h) == Total(n, f) + Total(n, g)
  {
    if n > 0 {
      TotalOfSums(n - 1, f, g, h);
    }
  }

  lemma {:induction false} TotalOfScaled(n: nat, c: real, f: int -> real, h: int -> real)
    requires forall i :: 0 <= i < n ==> h(i) == c * f(i)
    ensures Total(n, h) == c * Total(n, f)
  {
    if n > 0 {
      TotalOfScaled(n - 1, c, f, h);
      assert c * (Total(n - 1, f) + f(n - 1)) == c * Total(n - 1, f) + c * f(n - 1);
    }
  }

  lemma {:induction false} TotalOfEqual(n: nat, f: int -> real, g: int -> real)
    requires forall i :: 0 <= i < n ==> f(i) == g(i)
    ensures Total(n, f) == Total(n, g)
  {
    if n > 0 {
      TotalOfEqual(n - 1, f, g);
    }
  }

  // A first term, and then terms in pairs.
  lemma {:induction false} TotalOfPairs(n: nat, f: int -> real, g: int -> real)
    requires forall i :: 0 <= i < n ==> f(2 * i + 1) + f(2 * i + 2) == g(i)
    ensures Total(2 * n + 1, f) == f(0) + Total(n, g)
  {
    if n > 0 {
      TotalOfPairs(n - 1, f, g);
      assert f(2 * (n - 1) + 1) + f(2 * (n - 1) + 2) == g(n - 1);
      assert Total(2 * n + 1, f) == Total(2 * n, f) + f(2 * n);
      assert Total(2 * n, f) == Total(2 * n - 1, f) + f(2 * n - 1);
    }
  }

  lemma {:induction false} TotalOfConstant(n: nat, c: real)
    ensures Total(n, (i: int) => c) == n as real * c
  {
    if n > 0 {
      TotalOfConstant(n - 1, c);
      assert n as real * c == (n - 1) as real * c + c;
    }
  }

  // ------------------------------------------------------------------ vectors and forms

  function Products(u: Vector, x: Vector): int -> real {
    (i: int) => At(u, i) * At(x, i)
  }

  function Dot(n: nat, u: Vector, x: Vector): real {
    Total(n, Products(u, x))
  }

  // state + c * x
  function Moved(state: Vector, c: real, x: Vector): (r: Vector)
    ensures |r| == |state| && forall i :: 0 <= i < |state| ==> r[i] == At(state, i) + c * At(x, i)
  {
    seq(|state|, (i: int) => At(state, i) + c * At(x, i))
  }

  lemma DotOfMoved(n: nat, u: Vector, state: Vector, c: real, x: Vector)
    requires |state| == n
    ensures Dot(n, u, Moved(state, c, x)) == Dot(n, u, state) + c * Dot(n, u, x)
  {
    hide Products, Moved;
    var k := (i: int) => c * Products(u, x)(i);
    forall i | 0 <= i < n ensures Products(u, Moved(state, c, x))(i) == Products(u, state)(i) + k(i) {
      ProductOfMoved(u, state, c, x, i);
    }
    TotalOfSums(n, Products(u, state), k, Products(u, Moved(state, c, x)));
    TotalOfScaled(n, c, Products(u, x), k);
  }

  lemma ProductOfMoved(u: Vector, state: Vector, c: real, x: Vector, i: int)
    requires 0 <= i < |state|
    ensures Products(u, Moved(state, c, x))(i) == Products(u, state)(i) + c * Products(u, x)(i)
  {
    Distribute(At(u, i), At(state, i), c * At(x, i));
    Reorder(At(u, i), c, At(x, i));
    Reorder(c, At(u, i), At(x, i));
  }

  // The bilinear form of a matrix, given by its entries.
  function Form(n: nat, u: Vector, m: (int, int) -> real, v: Vector): real {
    Total(n, FormTerm(n, u, m, v))
  }

  function FormTerm(n: nat, u: Vector, m: (int, int) -> real, v: Vector): int -> real {
    (r: int) => At(u, r) * Total(n, RowTerm(m, v, r))
  }

  function RowTerm(m: (int, int) -> real, v: Vector, r: int): int -> real {
    (c: int) => m(r, c) * At(v, c)
  }

  function Outer(x: Vector, y: Vector): (int, int) -> real {
    (r: int, c: int) => At(x, r) * At(y, c)
  }

  // The product of the matrix of the first `k` columns with its transpose.
  function Gram(columns: seq<Vector>, k: nat): (int, int) -> real
    requires k <= |columns|
  {
    (r: int, c: int) => Total(k, (i: int) => if 0 <= i < |columns| then Outer(columns[i], columns[i])(r, c) else 0.0)
  }

  lemma Reorder(a: real, b: real, c: real)
    ensures a * (b * c) == c * (a * b)
  {
  }

  lemma Distribute(a: real, b: real, c: real)
    ensures a * (b + c) == a * b + a * c && (b + c) * a == b * a + c * a
  {
  }

  lemma FormOfOuter(n: nat, u: Vector, x: Vector, y: Vector, v: Vector)
    ensures Form(n, u, Outer(x, y), v) == Dot(n, u, x) * Dot(n, v, y)
  {
    hide FormTerm, Products, Outer;
    var d := Dot(n, v, y);
    forall r | 0 <= r < n ensures FormTerm(n, u, Outer(x, y), v)(r) == d * Products(u, x)(r) {
      FormTermOfOuter(n, u, x, y, v, r);
    }
    TotalOfScaled(n, d, Products(u, x), FormTerm(n, u, Outer(x, y), v));
  }

  lemma FormTermOfOuter(n: nat, u: Vector, x: Vector, y: Vector, v: Vector, r: int)
    ensures FormTerm(n, u, Outer(x, y), v)(r) == Dot(n, v, y) * Products(u, x)(r)
  {
    hide Total, RowTerm, Outer;
    RowOfOuter(n, x, y, v, r);
    Reorder(At(u, r), At(x, r), Dot(n, v, y));
  }

  lemma RowOfOuter(n: nat, x: Vector, y: Vector, v: Vector, r: int)
    ensures Total(n, RowTerm(Outer(x, y), v, r)) == At(x, r) * Dot(n, v, y)
  {
    hide RowTerm, Products, Outer;
    forall c | 0 <= c < n ensures RowTerm(Outer(x, y), v, r)(c) == At(x, r) * Products(v, y)(c) {
      RowTermOfOuter(x, y, v, r, c);
    }
    TotalOfScaled(n, At(x, r), Products(v, y), RowTerm(Outer(x, y), v, r));
  }

  lemma RowTermOfOuter(x: Vector, y: Vector, v: Vector, r: int, c: int)
    ensures RowTerm(Outer(x, y), v, r)(c) == At(x, r) * Products(v, y)(c)
  {
    Reorder(At(v, c), At(x, r), At(y, c));
    Reorder(At(x, r), At(v, c), At(y, c));
  }

  lemma FormOfSums(
    n: nat, u: Vector, a: (int, int) -> real, b: (int, int) -> real, m: (int, int) -> real, v: Vector)
    requires forall r, c :: 0 <= r < n && 0 <= c < n ==> m(r, c) == a(r, c) + b(r, c)
    ensures Form(n, u, m, v) == Form(n, u, a, v) + Form(n, u, b, v)
  {
    var f, g, h := FormTerm(n, u, a, v), FormTerm(n, u, b, v), FormTerm(n, u, m, v);
    forall r | 0 <= r < n ensures h(r) == f(r) + g(r) {
      RowOfSums(n, a, b, m, v, r);
      Distribute(At(u, r), Total(n, RowTerm(a, v, r)), Total(n, RowTerm(b, v, r)));
    }
    TotalOfSums(n, f, g, h);
  }

  lemma RowOfSums(n: nat, a: (int, int) -> real, b: (int, int) -> real, m: (int, int) -> real, v: Vector, r: int)
    requires forall c :: 0 <= c < n ==> m(r, c) == a(r, c) + b(r, c)
    ensures Total(n, RowTerm(m, v, r)) == Total(n, RowTerm(a, v, r)) + Total(n, RowTerm(b, v, r))
  {
    forall c | 0 <= c < n ensures RowTerm(m, v, r)(c) == RowTerm(a, v, r)(c) + RowTerm(b, v, r)(c) {
      Distribute(At(v, c), a(r, c), b(r, c));
    }
    TotalOfSums(n, RowTerm(a, v, r), RowTerm(b, v, r), RowTerm(m, v, r));
  }

  lemma FormOfEqual(n: nat, u: Vector, a: (int, int) -> real, b: (int, int) -> real, v: Vector)
    requires forall r, c :: 0 <= r < n && 0 <= c < n ==> a(r, c) == b(r, c)
    ensures Form(n, u, a, v) == Form(n, u, b, v)
  {
    forall r | 0 <= r < n ensures FormTerm(n, u, a, v)(r) == FormTerm(n, u, b, v)(r) {
      TotalOfEqual(n, RowTerm(a, v, r), RowTerm(b, v, r));
    }
    TotalOfEqual(n, FormTerm(n, u, a, v), FormTerm(n, u, b, v));
  }

  function ColumnProducts(n: nat, u: Vector, columns: seq<Vector>, v: Vector): int -> real {
    (i: int) => if 0 <= i < |columns| then Dot(n, u, columns[i]) * Dot(n, v, columns[i]) else 0.0
  }

  // The form of the product of a matrix with its transpose is a sum of products, column by column.
  lemma {:induction false} FormOfGram(n: nat, u: Vector, columns: seq<Vector>, k: nat, v: Vector)
    requires k <= |columns|
    ensures Form(n, u, Gram(columns, k), v) == Total(k, ColumnProducts(n, u, columns, v))
  {
    if k == 0 {
      FormOfEqual(n, u, Gram(columns, 0), Outer([], []), v);
      FormOfOuter(n, u, [], [], v);
      DotOfNothing(n, u);
    } else {
      FormOfGram(n, u, columns, k - 1, v);
      var outer := Outer(columns[k - 1], columns[k - 1]);
      FormOfSums(n, u, Gram(columns, k - 1), outer, Gram(columns, k), v);
      FormOfOuter(n, u, columns[k - 1], columns[k - 1], v);
    }
  }

  lemma DotOfNothing(n: nat, u: Vector)
    ensures Dot(n, u, []) == 0.0
  {
    TotalOfConstant(n, 0.0);
    TotalOfEqual(n, Products(u, []), (i: int) => 0.0);
  }

  // ------------------------------------------------------------------ the generators

  // The points for the columns of the square root of the covariance, stretched by `root`.
  ghost predicate ArePoints(points: seq<Vector>, state: Vector, root: real, columns: seq<Vector>)
  {
    && |points| == 2 * |state| + 1 == 2 * |columns| + 1
    && points[0] == state
    && forall i :: 0 <= i < |state| ==>
      && points[2 * i + 1] == Moved(state, root, columns[i])
      && points[2 * i + 2] == Moved(state, -root, columns[i])
  }

  ghost predicate AreWeights(weights: seq<real>, n: nat) {
    && |weights| == 2 * n + 1 && weights[0] == (3.0 - n as real) / 3.0
    && forall i :: 1 <= i < |weights| ==> weights[i] == 1.0 / 6.0
  }

  // The point behind the state first goes along the column, and the next one against it.
  lemma PointsInNumbers(points: seq<Vector>, state: Vector, root: real, columns: seq<Vector>, i: nat, r: nat)
    requires ArePoints(points, state, root, columns) && i < |state| && r < |state|
    ensures |points[2 * i + 1]| == |points[2 * i + 2]| == |state|
    ensures points[2 * i + 1][r] == state[r] + root * At(columns[i], r)
    ensures points[2 * i + 2][r] == state[r] - root * At(columns[i], r)
  {
    hide Moved;
    assert points[2 * i + 1] == Moved(state, root, columns[i]);
    assert points[2 * i + 2] == Moved(state, -root, columns[i]);
    Negated(root, At(columns[i], r));
  }

  lemma Negated(a: real, b: real)
    ensures (-a) * b == -(a * b)
  {
  }

  method GenerateSigmaPoints(state: Vector, root: real, columns: seq<Vector>) returns (points: seq<Vector>)
    requires |columns| == |state|
    ensures ArePoints(points, state, root, columns)
  {
    points := [state];
    for i := 0 to |state|
      invariant |points| == 2 * i + 1 && points[0] == state
      invariant forall j :: 0 <= j < i ==>
        && points[2 * j + 1] == Moved(state, root, columns[j])
        && points[2 * j + 2] == Moved(state, -root, columns[j])
    {
      points := points + [Moved(state, root, columns[i])];
      points := points + [Moved(state, -root, columns[i])];
    }
  }

  // n and kappa always add up to 3.
  method GenerateSigmaWeights(numStates: nat) returns (weights: seq<real>)
    ensures AreWeights(weights, numStates)
  {
    var n := numStates as real;
    var kappa := 3.0 - n;
    weights := [kappa / (n + kappa)];
    var val := 1.0 / (2.0 * (n + kappa));
    for i := 1 to 2 * numStates + 1
      invariant |weights| == i && weights[0] == (3.0 - n) / 3.0
      invariant forall j :: 1 <= j < i ==> weights[j] == 1.0 / 6.0
    {
      weights := weights + [val];
    }
  }

  // ------------------------------------------------------------------ the moments

  // The image of point `k` under x |-> u . x + b, one row of an affine map.
  function Image(n: nat, u: Vector, b: real, points: seq<Vector>, k: int): real {
    if 0 <= k < |points| then Dot(n, u, points[k]) + b else 0.0
  }

  function MeanTerm(n: nat, weights: seq<real>, points: seq<Vector>, u: Vector, b: real): int -> real {
    (k: int) => At(weights, k) * Image(n, u, b, points, k)
  }

  function CovTerm(
    n: nat, weights: seq<real>, points: seq<Vector>, u: Vector, b: real, v: Vector, d: real, mean: real, mean': real)
    : int -> real
  {
    (k: int) => At(weights, k) * ((Image(n, u, b, points, k) - mean) * (Image(n, v, d, points, k) - mean'))
  }

  lemma WeightsSumToOne(weights: seq<real>, n: nat)
    requires AreWeights(weights, n)
    ensures Total(2 * n + 1, (k: int) => At(weights, k)) == 1.0
  {
    TotalOfPairs(n, (k: int) => At(weights, k), (i: int) => 1.0 / 3.0);
    TotalOfConstant(n, 1.0 / 3.0);
  }

  // The two images that belong to one column lie on either side of that of the state.
  lemma ImagesInPairs(
    state: Vector, root: real, columns: seq<Vector>, points: seq<Vector>, u: Vector, b: real, i: nat)
    requires ArePoints(points, state, root, columns) && i < |state|
    ensures Image(|state|, u, b, points, 2 * i + 1) == Dot(|state|, u, state) + b + root * Dot(|state|, u, columns[i])
    ensures Image(|state|, u, b, points, 2 * i + 2) == Dot(|state|, u, state) + b - root * Dot(|state|, u, columns[i])
  {
    hide Dot, Moved;
    DotOfMoved(|state|, u, state, root, columns[i]);
    DotOfMoved(|state|, u, state, -root, columns[i]);
  }

  lemma MeanPair(
    state: Vector, root: real, columns: seq<Vector>, points: seq<Vector>, weights: seq<real>, u: Vector, b: real,
    i: nat)
    requires ArePoints(points, state, root, columns) && AreWeights(weights, |state|) && i < |state|
    ensures MeanTerm(|state|, weights, points, u, b)(2 * i + 1) + MeanTerm(|state|, weights, points, u, b)(2 * i + 2)
         == (Dot(|state|, u, state) + b) / 3.0
  {
    hide Dot, ArePoints, Image;
    ImagesInPairs(state, root, columns, points, u, b, i);
    assert At(weights, 2 * i + 1) == 1.0 / 6.0 && At(weights, 2 * i + 2) == 1.0 / 6.0;
  }

  lemma MeanFirst(
    state: Vector, root: real, columns: seq<Vector>, points: seq<Vector>, weights: seq<real>, u: Vector, b: real)
    requires ArePoints(points, state, root, columns) && AreWeights(weights, |state|)
    ensures MeanTerm(|state|, weights, points, u, b)(0)
         == (3.0 - |state| as real) * ((Dot(|state|, u, state) + b) / 3.0)
  {
    hide Dot;
    Thirds(3.0 - |state| as real, Dot(|state|, u, state) + b);
  }

  lemma Thirds(w: real, mean: real)
    ensures w / 3.0 * mean == w * (mean / 3.0)
  {
  }

  // The weighted mean of the images is the image of the state.
  lemma MeanIsExact(
    state: Vector, root: real, columns: seq<Vector>, points: seq<Vector>, weights: seq<real>, u: Vector, b: real)
    requires ArePoints(points, state, root, columns) && AreWeights(weights, |state|)
    ensures Total(2 * |state| + 1, MeanTerm(|state|, weights, points, u, b)) == Dot(|state|, u, state) + b
  {
    hide *;
    var n, third := |state|, (Dot(|state|, u, state) + b) / 3.0;
    var f := MeanTerm(n, weights, points, u, b);
    MeanFirst(state, root, columns, points, weights, u, b);
    forall i | 0 <= i < n ensures f(2 * i + 1) + f(2 * i + 2) == ((i: int) => third)(i) {
      MeanPair(state, root, columns, points, weights, u, b, i);
    }
    TotalOfPairs(n, f, (i: int) => third);
    TotalOfConstant(n, third);
    Distribute(third, 3.0 - n as real, n as real);
  }

  lemma CovPair(
    state: Vector, root: real, columns: seq<Vector>, points: seq<Vector>, weights: seq<real>,
    u: Vector, b: real, v: Vector, d: real, i: nat)
    requires ArePoints(points, state, root, columns) && AreWeights(weights, |state|) && root * root == 3.0
    requires i < |state|
    ensures var n := |state|;
      var f := CovTerm(n, weights, points, u, b, v, d, Dot(n, u, state) + b, Dot(n, v, state) + d);
      f(2 * i + 1) + f(2 * i + 2) == ColumnProducts(n, u, columns, v)(i)
  {
    hide Dot, Image;
    var n := |state|;
    ImagesInPairs(state, root, columns, points, u, b, i);
    ImagesInPairs(state, root, columns, points, v, d, i);
    assert At(weights, 2 * i + 1) == 1.0 / 6.0 && At(weights, 2 * i + 2) == 1.0 / 6.0;
    PairOfDeviations(root, Dot(n, u, columns[i]), Dot(n, v, columns[i]));
  }

  // The weighted products of the deviations of two images sum to the covariance of the two rows.
  lemma CovarianceIsExact(
    state: Vector, root: real, columns: seq<Vector>, points: seq<Vector>, weights: seq<real>,
    u: Vector, b: real, v: Vector, d: real)
    requires ArePoints(points, state, root, columns) && AreWeights(weights, |state|) && root * root == 3.0
    ensures var n := |state|;
      Total(2 * n + 1, CovTerm(n, weights, points, u, b, v, d, Dot(n, u, state) + b, Dot(n, v, state) + d))
      == Form(n, u, Gram(columns, n), v)
  {
    var n := |state|;
    var f := CovTerm(n, weights, points, u, b, v, d, Dot(n, u, state) + b, Dot(n, v, state) + d);
    assert f(0) == 0.0;
    hide Dot, CovTerm, ColumnProducts, Total, AreWeights;
    forall i | 0 <= i < n ensures f(2 * i + 1) + f(2 * i + 2) == ColumnProducts(n, u, columns, v)(i) {
      CovPair(state, root, columns, points, weights, u, b, v, d, i);
    }
    TotalOfPairs(n, f, ColumnProducts(n, u, columns, v));
    FormOfGram(n, u, columns, n, v);
  }

  lemma PairOfDeviations(root: real, x: real, y: real)
    requires root * root == 3.0
    ensures 1.0 / 6.0 * ((root * x) * (root * y)) + 1.0 / 6.0 * ((-(root * x)) * (-(root * y))) == x * y
  {
    assert (root * x) * (root * y) == (root * root) * (x * y);
  }

  // ------------------------------------------------------------------ component by component

  function Unit(n: nat, r: nat): (u: Vector)
    ensures |u| == n && forall i :: 0 <= i < n ==> u[i] == if i == r then 1.0 else 0.0
  {
    seq(n, i => if i == r then 1.0 else 0.0)
  }

  lemma {:induction false} TotalOfSingle(n: nat, r: nat, f: int -> real)
    requires forall i :: 0 <= i < n && i != r ==> f(i) == 0.0
    ensures Total(n, f) == if r < n then f(r) else 0.0
  {
    if n > 0 {
      TotalOfSingle(n - 1, r, f);
    }
  }

  lemma DotOfUnit(n: nat, r: nat, x: Vector)
    requires r < n
    ensures Dot(n, Unit(n, r), x) == At(x, r)
  {
    TotalOfSingle(n, r, Products(Unit(n, r), x));
  }

  lemma FormOfUnits(n: nat, r: nat, m: (int, int) -> real, c: nat)
    requires r < n && c < n
    ensures Form(n, Unit(n, r), m, Unit(n, c)) == m(r, c)
  {
    forall i | 0 <= i < n && i != c ensures RowTerm(m, Unit(n, c), r)(i) == 0.0 {
      assert At(Unit(n, c), i) == 0.0;
    }
    TotalOfSingle(n, c, RowTerm(m, Unit(n, c), r));
    forall i | 0 <= i < n && i != r ensures FormTerm(n, Unit(n, r), m, Unit(n, c))(i) == 0.0 {
      assert At(Unit(n, r), i) == 0.0;
    }
    TotalOfSingle(n, r, FormTerm(n, Unit(n, r), m, Unit(n, c)));
  }

  function Component(points: seq<Vector>, k: int, r: nat): real {
    if 0 <= k < |points| then At(points[k], r) else 0.0
  }

  function ComponentMean(weights: seq<real>, points: seq<Vector>, r: nat): int -> real {
    (k: int) => At(weights, k) * Component(points, k, r)
  }

  function ComponentCov(weights: seq<real>, points: seq<Vector>, state: Vector, r: nat, c: nat): int -> real {
    (k: int) =>
      At(weights, k) * ((Component(points, k, r) - At(state, r)) * (Component(points, k, c) - At(state, c)))
  }

  lemma ComponentsAreImages(
    state: Vector, points: seq<Vector>, weights: seq<real>, r: nat, c: nat, k: int)
    requires r < |state| && c < |state| && 0 <= k < |points|
    ensures var n := |state|;
      && ComponentMean(weights, points, r)(k) == MeanTerm(n, weights, points, Unit(n, r), 0.0)(k)
      && ComponentCov(weights, points, state, r, c)(k)
         == CovTerm(n, weights, points, Unit(n, r), 0.0, Unit(n, c), 0.0, At(state, r), At(state, c))(k)
  {
    hide Dot, Unit;
    DotOfUnit(|state|, r, points[k]);
    DotOfUnit(|state|, c, points[k]);
  }

  // The points have the state as their mean and the given covariance as theirs, in every dimension.
  lemma SigmaPointsMatchMoments(
    state: Vector, root: real, columns: seq<Vector>, points: seq<Vector>, weights: seq<real>,
    cov: (int, int) -> real, r: nat, c: nat)
    requires ArePoints(points, state, root, columns) && AreWeights(weights, |state|) && root * root == 3.0
    requires r < |state| && c < |state| && cov(r, c) == Gram(columns, |state|)(r, c)
    ensures Total(2 * |state| + 1, ComponentMean(weights, points, r)) == At(state, r)
    ensures Total(2 * |state| + 1, ComponentCov(weights, points, state, r, c)) == cov(r, c)
  {
    hide *;
    PointsAreMany(points, state, root, columns);
    var n, u, v := |state|, Unit(|state|, r), Unit(|state|, c);
    DotOfUnit(n, r, state);
    DotOfUnit(n, c, state);
    var f := MeanTerm(n, weights, points, u, 0.0);
    var g := CovTerm(n, weights, points, u, 0.0, v, 0.0, At(state, r), At(state, c));
    forall k | 0 <= k < 2 * n + 1
      ensures ComponentMean(weights, points, r)(k) == f(k)
      ensures ComponentCov(weights, points, state, r, c)(k) == g(k)
    {
      ComponentsAreImages(state, points, weights, r, c, k);
    }
    TotalOfEqual(2 * n + 1, ComponentMean(weights, points, r), f);
    TotalOfEqual(2 * n + 1, ComponentCov(weights, points, state, r, c), g);
    MeanIsExact(state, root, columns, points, weights, u, 0.0);
    CovarianceIsExact(state, root, columns, points, weights, u, 0.0, v, 0.0);
    FormOfUnits(n, r, Gram(columns, n), c);
  }

  lemma PointsAreMany(points: seq<Vector>, state: Vector, root: real, columns: seq<Vector>)
    requires ArePoints(points, state, root, columns)
    ensures |points| == 2 * |state| + 1 && |columns| == |state|
  {
  }

  // The two generators together, as the filter uses them.
  method GenerateSigma(state: Vector, root: real, columns: seq<Vector>, ghost cov: (int, int) -> real)
    returns (points: seq<Vector>, weights: seq<real>)
    requires |columns| == |state| && root * root == 3.0
    requires forall r, c :: 0 <= r < |state| && 0 <= c < |state| ==> cov(r, c) == Gram(columns, |state|)(r, c)
    ensures |points| == |weights| == 2 * |state| + 1
    ensures Total(2 * |state| + 1, (k: int) => At(weights, k)) == 1.0
    ensures forall r: nat :: r < |state| ==> Total(2 * |state| + 1, ComponentMean(weights, points, r)) == At(state, r)
    ensures forall r: nat, c: nat :: r < |state| && c < |state| ==>
      Total(2 * |state| + 1, ComponentCov(weights, points, state, r, c)) == cov(r, c)
  {
    hide Total, ComponentMean, ComponentCov, Gram, At;
    points := GenerateSigmaPoints(state, root, columns);
    weights := GenerateSigmaWeights(|state|);
    WeightsSumToOne(weights, |state|);
    forall r: nat, c: nat | r < |state| && c < |state|
      ensures Total(2 * |state| + 1, ComponentMean(weights, points, r)) == At(state, r)
      ensures Total(2 * |state| + 1, ComponentCov(weights, points, state, r, c)) == cov(r, c)
    {
      SigmaPointsMatchMoments(state, root, columns, points, weights, cov, r, c);
    }
    forall r: nat | r < |state|
      ensures Total(2 * |state| + 1, ComponentMean(weights, points, r)) == At(state, r)
    {
      SigmaPointsMatchMoments(state, root, columns, points, weights, cov, r, r);
    }
  }
}
