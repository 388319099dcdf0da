/** What the loops of src/logreg.c compute, over the reals, and what a training step does to the model. */
module Regression {
  /** Xs[i * len + j] */
  function Elem(xs: seq<real>, len: nat, i: nat, j: nat): real {
    if i * len + j < |xs| then xs[i * len + j] else 0.0
  }

  lemma Grows(x: nat, y: nat, z: nat)
    requires x <= y
    ensures x * z <= y * z
  {
  }

  lemma InRow(n: nat, len: nat, i: nat, j: nat)
    requires i < n && j < len
    ensures i * len + j < n * len
  {
    Grows(i + 1, n, len);
    assert (i + 1) * len == i * len + len;
  }

  // ---------- what the loops compute ----------

  /** The first j terms of the linear sum of row i. */
  function LinSum(w: seq<real>, xs: seq<real>, i: nat, j: nat): real
    requires j <= |w|
  {
    if j == 0 then 0.0 else LinSum(w, xs, i, j - 1) + Product(w, xs, i, j - 1)
  }

  function Product(w: seq<real>, xs: seq<real>, i: nat, j: nat): real
    requires j < |w|
  {
    w[j] * Elem(xs, |w|, i, j)
  }

  function Prediction(w: seq<real>, bias: real, sigmoid: real -> real, xs: seq<real>, i: nat): real {
    sigmoid(LinSum(w, xs, i, |w|) + bias)
  }

  /** What row i adds to the j-th delta; the one behind the weights is the bias's. */
  function Delta(len: nat, rate: real, xs: seq<real>, y: int, p: real, i: nat, j: nat): real {
    if j < len then rate * (p - y as real) * Elem(xs, len, i, j) else rate * (p - y as real)
  }

  /** The j-th delta after the first n rows. */
  function DeltaSum(len: nat, rate: real, xs: seq<real>, ys: seq<int>, ps: seq<real>, n: nat, j: nat): real
    requires n <= |ys| && n <= |ps|
  {
    if n == 0 then 0.0 else DeltaSum(len, rate, xs, ys, ps, n - 1, j) + Delta(len, rate, xs, ys[n - 1], ps[n - 1], n - 1, j)
  }

  function Predictions(w: seq<real>, bias: real, sigmoid: real -> real, xs: seq<real>, n: nat): (r: seq<real>)
    ensures |r| == n
  {
    seq(n, i requires 0 <= i < n => Prediction(w, bias, sigmoid, xs, i))
  }

  function DeltaSums(len: nat, rate: real, xs: seq<real>, ys: seq<int>, ps: seq<real>, n: nat): (r: seq<real>)
    requires n <= |ys| && n <= |ps|
    ensures |r| == len + 1
  {
    seq(len + 1, j requires 0 <= j <= len => DeltaSum(len, rate, xs, ys, ps, n, j))
  }

  // ---------- the linear sum ----------

  lemma Distribute(a: real, b: real, c: real, x: real)
    ensures (a + c * b) * x == a * x + c * (b * x)
  {
  }

  lemma Split(c: real, a: real, b: real)
    ensures c * (a + b) == c * a + c * b
  {
  }

  /** The linear sum is linear in the weights. */
  lemma {:induction false} LinSumLinear(w: seq<real>, v: seq<real>, c: real, u: seq<real>, xs: seq<real>, i: nat, j: nat)
    requires |w| == |v| == |u| && j <= |u| && forall k: nat :: k < j ==> u[k] == w[k] + c * v[k]
    ensures LinSum(u, xs, i, j) == LinSum(w, xs, i, j) + c * LinSum(v, xs, i, j)
  {
    if j > 0 {
      LinSumLinear(w, v, c, u, xs, i, j - 1);
      Distribute(w[j - 1], v[j - 1], c, Elem(xs, |u|, i, j - 1));
      Split(c, LinSum(v, xs, i, j - 1), Product(v, xs, i, j - 1));
      hide Elem;
    }
  }

  /** Weights that are zero but for the k-th, which is one, give the k-th element of the row; and all zero, zero. */
  lemma {:induction false} LinSumUnit(w: seq<real>, xs: seq<real>, i: nat, j: nat, k: nat)
    requires j <= |w| && forall l: nat :: l < j ==> w[l] == if l == k then 1.0 else 0.0
    ensures LinSum(w, xs, i, j) == if k < j then Elem(xs, |w|, i, k) else 0.0
  {
    if j > 0 { LinSumUnit(w, xs, i, j - 1, k); }
  }

  /** Without weights the prediction is that of the bias. */
  lemma PredictionOfBias(w: seq<real>, bias: real, sigmoid: real -> real, xs: seq<real>, i: nat)
    requires forall l: nat :: l < |w| ==> w[l] == 0.0
    ensures Prediction(w, bias, sigmoid, xs, i) == sigmoid(bias)
  {
    LinSumUnit(w, xs, i, |w|, |w|);
  }

  /** Row i by itself. */
  function Row(xs: seq<real>, len: nat, i: nat): (x: seq<real>)
    ensures |x| == len
  {
    seq(len, j requires 0 <= j < len => Elem(xs, len, i, j))
  }

  lemma {:induction false} LinSumRow(w: seq<real>, xs: seq<real>, i: nat, j: nat)
    requires j <= |w|
    ensures LinSum(w, xs, i, j) == LinSum(w, Row(xs, |w|, i), 0, j)
  {
    if j > 0 {
      LinSumRow(w, xs, i, j - 1);
      assert Elem(Row(xs, |w|, i), |w|, 0, j - 1) == Elem(xs, |w|, i, j - 1);
    }
  }

  /** The linear sum of a row x with a bias: what the sigmoid is applied to. */
  function Score(w: seq<real>, bias: real, x: seq<real>): real { LinSum(w, x, 0, |w|) + bias }

  lemma PredictionScore(w: seq<real>, bias: real, sigmoid: real -> real, xs: seq<real>, i: nat)
    ensures Prediction(w, bias, sigmoid, xs, i) == sigmoid(Score(w, bias, Row(xs, |w|, i)))
  {
    LinSumRow(w, xs, i, |w|);
  }

  function Dot(a: seq<real>, b: seq<real>): real
    requires |a| == |b|
  {
    LinSum(a, b, 0, |a|)
  }

  /** It is linear in the second argument too. */
  lemma {:induction false} DotLinear(w: seq<real>, a: seq<real>, c: real, b: seq<real>, u: seq<real>, j: nat)
    requires |w| == |a| == |b| == |u| && j <= |w| && forall k: nat :: k < j ==> u[k] == a[k] + c * b[k]
    ensures LinSum(w, u, 0, j) == LinSum(w, a, 0, j) + c * LinSum(w, b, 0, j)
  {
    if j > 0 {
      DotLinear(w, a, c, b, u, j - 1);
      Distribute(a[j - 1], b[j - 1], c, w[j - 1]);
      Split(c, LinSum(w, b, 0, j - 1), Product(w, b, 0, j - 1));
    }
  }

  // ---------- a training step ----------

  /** The moves d take the model (w, bias) to (w', bias'). */
  ghost predicate Moved(w: seq<real>, bias: real, d: seq<real>, w': seq<real>, bias': real) {
    && |d| == |w| + 1 && |w'| == |w| && bias' == bias - d[|w|]
    && forall j: nat :: j < |w| ==> w'[j] == w[j] - d[j]
  }

  /** How far such moves take the score of a row down. */
  function Along(d: seq<real>, x: seq<real>): real
    requires |d| == |x| + 1
  {
    Dot(d[..|x|], x) + d[|x|]
  }

  lemma ScoreMoves(w: seq<real>, bias: real, d: seq<real>, w': seq<real>, bias': real, x: seq<real>)
    requires Moved(w, bias, d, w', bias') && |x| == |w|
    ensures Score(w', bias', x) == Score(w, bias, x) - Along(d, x)
  {
    LinSumLinear(w, d[..|w|], -1.0, w', x, 0, |w|);
  }

  /** The rows pull at the score of x, each by its error and by its likeness to x. */
  function Turned(len: nat, xs: seq<real>, ys: seq<int>, ps: seq<real>, x: seq<real>, n: nat): real
    requires n <= |ys| && n <= |ps| && |x| == len
  {
    if n == 0 then 0.0 else
    Turned(len, xs, ys, ps, x, n - 1) + (ps[n - 1] - ys[n - 1] as real) * (Dot(Row(xs, len, n - 1), x) + 1.0)
  }

  /** The moves after one more row, whose error is e. */
  lemma OneRow(len: nat, rate: real, xs: seq<real>, ys: seq<int>, ps: seq<real>, n: nat, e: real)
    requires 0 < n <= |ys| && n <= |ps| && e == ps[n - 1] - ys[n - 1] as real
    ensures var (a, d, c) := (DeltaSums(len, rate, xs, ys, ps, n - 1), DeltaSums(len, rate, xs, ys, ps, n), rate * e);
      && (forall j: nat :: j < len ==> d[..len][j] == a[..len][j] + c * Row(xs, len, n - 1)[j])
      && d[len] == a[len] + c
  {
    hide Elem;
  }

  function Mul(x: real, y: real): real { x * y }

  /** rate times a sum that has grown by e (g + v). */
  lemma Grown(rate: real, e: real, t: real, g: real, v: real)
    ensures Mul(rate, t + Mul(e, g + v)) == Mul(rate, t) + Mul(Mul(rate, e), g) + Mul(v, Mul(rate, e))
  {
    assert (rate * e) * g == rate * (e * g) && v * (rate * e) == rate * (e * v);
    assert e * (g + v) == e * g + e * v;
    Split(rate, t, e * g + e * v);
    Split(rate, e * g, e * v);
  }

  lemma AlongStep(a: seq<real>, c: real, row: seq<real>, d: seq<real>, x: seq<real>)
    requires |a| == |d| == |x| + 1 && |row| == |x| && d[|x|] == a[|x|] + c
    requires forall j: nat :: j < |x| ==> d[..|x|][j] == a[..|x|][j] + c * row[j]
    ensures Along(d, x) == Along(a, x) + Mul(c, Dot(row, x)) + Mul(1.0, c)
  {
    LinSumLinear(a[..|x|], row, c, d[..|x|], x, 0, |x|);
    hide LinSum;
  }

  lemma AlongZero(d: seq<real>, x: seq<real>)
    requires |d| == |x| + 1 && forall j: nat :: j < |d| ==> d[j] == 0.0
    ensures Along(d, x) == 0.0
  {
    LinSumUnit(d[..|x|], x, 0, |x|, |x|);
  }

  lemma AlongGrows(len: nat, rate: real, xs: seq<real>, ys: seq<int>, ps: seq<real>, x: seq<real>, n: nat, e: real)
    requires 0 < n <= |ys| && n <= |ps| && |x| == len && e == ps[n - 1] - ys[n - 1] as real
    ensures Along(DeltaSums(len, rate, xs, ys, ps, n), x) == Along(DeltaSums(len, rate, xs, ys, ps, n - 1), x)
      + Mul(Mul(rate, e), Dot(Row(xs, len, n - 1), x)) + Mul(1.0, Mul(rate, e))
  {
    var c, row := Mul(rate, e), Row(xs, len, n - 1);
    assert c == rate * e;
    hide *;
    OneRow(len, rate, xs, ys, ps, n, e);
    AlongStep(DeltaSums(len, rate, xs, ys, ps, n - 1), c, row, DeltaSums(len, rate, xs, ys, ps, n), x);
  }

  lemma {:induction false} AlongIs(len: nat, rate: real, xs: seq<real>, ys: seq<int>, ps: seq<real>, x: seq<real>, n: nat)
    requires n <= |ys| && n <= |ps| && |x| == len
    ensures Along(DeltaSums(len, rate, xs, ys, ps, n), x) == Mul(rate, Turned(len, xs, ys, ps, x, n))
  {
    if n == 0 {
      NoMoves(len, rate, xs, ys, ps);
      AlongZero(DeltaSums(len, rate, xs, ys, ps, 0), x);
    } else {
      hide *;
      var e := ps[n - 1] - ys[n - 1] as real;
      AlongGrows(len, rate, xs, ys, ps, x, n, e);
      AlongIs(len, rate, xs, ys, ps, x, n - 1);
      TurnedStep(len, xs, ys, ps, x, n, e);
      Grown(rate, e, Turned(len, xs, ys, ps, x, n - 1), Dot(Row(xs, len, n - 1), x), 1.0);
    }
  }

  lemma TurnedStep(len: nat, xs: seq<real>, ys: seq<int>, ps: seq<real>, x: seq<real>, n: nat, e: real)
    requires 0 < n <= |ys| && n <= |ps| && |x| == len && e == ps[n - 1] - ys[n - 1] as real
    ensures Turned(len, xs, ys, ps, x, n) == Turned(len, xs, ys, ps, x, n - 1) + Mul(e, Dot(Row(xs, len, n - 1), x) + 1.0)
  {
    hide Dot, Row;
  }

  lemma NoMoves(len: nat, rate: real, xs: seq<real>, ys: seq<int>, ps: seq<real>)
    ensures forall j: nat :: j <= len ==> DeltaSums(len, rate, xs, ys, ps, 0)[j] == 0.0
  {
  }

  /** A training step takes the score of every row x, of the batch or not, down by the rate times what the
      rows of the batch pull at it. */
  lemma EveryScoreTurns(w: seq<real>, bias: real, w': seq<real>, bias': real, rate: real,
                        xs: seq<real>, ys: seq<int>, ps: seq<real>, x: seq<real>)
    requires |ys| == |ps| && |x| == |w| && Moved(w, bias, DeltaSums(|w|, rate, xs, ys, ps, |ys|), w', bias')
    ensures Score(w', bias', x) == Score(w, bias, x) - rate * Turned(|w|, xs, ys, ps, x, |ys|)
  {
    ScoreMoves(w, bias, DeltaSums(|w|, rate, xs, ys, ps, |ys|), w', bias', x);
    AlongIs(|w|, rate, xs, ys, ps, x, |ys|);
  }

  /** When every prediction equals its label, nothing moves. */
  lemma {:induction false} NoErrorNoMove(len: nat, rate: real, xs: seq<real>, ys: seq<int>, ps: seq<real>, n: nat)
    requires n <= |ys| && n <= |ps| && forall i: nat :: i < n ==> ps[i] == ys[i] as real
    ensures forall j: nat :: j <= len ==> DeltaSums(len, rate, xs, ys, ps, n)[j] == 0.0
  {
    if n == 0 {
      NoMoves(len, rate, xs, ys, ps);
    } else {
      NoErrorNoMove(len, rate, xs, ys, ps, n - 1);
      OneRow(len, rate, xs, ys, ps, n, 0.0);
      var d := DeltaSums(len, rate, xs, ys, ps, n);
      forall j: nat | j <= len ensures d[j] == 0.0 { if j < len { assert d[j] == d[..len][j]; } }
    }
  }

  // ---------- the direction of a step ----------

  /** The changes of the scores of the rows, each weighted with the row's error. */
  function Pull(ps: seq<real>, ys: seq<int>, before: seq<real>, after: seq<real>, n: nat): real
    requires n <= |ps| && n <= |ys| && n <= |before| && n <= |after|
  {
    if n == 0 then 0.0 else
    Pull(ps, ys, before, after, n - 1) + (ps[n - 1] - ys[n - 1] as real) * (after[n - 1] - before[n - 1])
  }

  function Scores(w: seq<real>, bias: real, xs: seq<real>, n: nat): (r: seq<real>)
    ensures |r| == n
  {
    seq(n, i requires 0 <= i < n => Score(w, bias, Row(xs, |w|, i)))
  }

  function Sq(x: real): real { Mul(x, x) }

  /** The sum of the squares of the moves of the first n weights. */
  function SquaredMove(w: seq<real>, w': seq<real>, n: nat): real
    requires n <= |w| && n <= |w'|
  {
    if n == 0 then 0.0 else SquaredMove(w, w', n - 1) + Sq(w'[n - 1] - w[n - 1])
  }

  /** The same pull for moves v that need not be those of the step. */
  function Weighted(len: nat, xs: seq<real>, ys: seq<int>, ps: seq<real>, v: seq<real>, n: nat): real
    requires n <= |ys| && n <= |ps| && |v| == len + 1
  {
    if n == 0 then 0.0 else
    Weighted(len, xs, ys, ps, v, n - 1) + (ps[n - 1] - ys[n - 1] as real) * Along(v, Row(xs, len, n - 1))
  }

  /** v times the moves, the bias's included. */
  function Paired(v: seq<real>, d: seq<real>): real
    requires |v| == |d| > 0
  {
    Dot(v[..|v| - 1], d[..|v| - 1]) + v[|v| - 1] * d[|v| - 1]
  }

  lemma PairedStep(v: seq<real>, a: seq<real>, c: real, row: seq<real>, d: seq<real>)
    requires |v| == |a| == |d| == |row| + 1 && d[|row|] == a[|row|] + c
    requires forall j: nat :: j < |row| ==> d[..|row|][j] == a[..|row|][j] + c * row[j]
    ensures Paired(v, d) == Paired(v, a) + Mul(c, Dot(v[..|row|], row)) + Mul(v[|row|], c)
  {
    var len := |row|;
    DotLinear(v[..len], a[..len], c, row, d[..len], len);
    Split(v[len], a[len], c);
    hide LinSum;
  }

  lemma PairedZero(v: seq<real>, d: seq<real>)
    requires |v| == |d| > 0 && forall j: nat :: j < |d| ==> d[j] == 0.0
    ensures Paired(v, d) == 0.0
  {
    var len := |v| - 1;
    DotLinear(v[..len], d[..len], -1.0, d[..len], d[..len], len);
    hide LinSum;
  }

  lemma PairedGrows(len: nat, rate: real, xs: seq<real>, ys: seq<int>, ps: seq<real>, v: seq<real>, n: nat, e: real)
    requires 0 < n <= |ys| && n <= |ps| && |v| == len + 1 && e == ps[n - 1] - ys[n - 1] as real
    ensures Paired(v, DeltaSums(len, rate, xs, ys, ps, n)) == Paired(v, DeltaSums(len, rate, xs, ys, ps, n - 1))
      + Mul(Mul(rate, e), Dot(v[..len], Row(xs, len, n - 1))) + Mul(v[len], Mul(rate, e))
  {
    var c, row := Mul(rate, e), Row(xs, len, n - 1);
    assert c == rate * e;
    hide *;
    OneRow(len, rate, xs, ys, ps, n, e);
    PairedStep(v, DeltaSums(len, rate, xs, ys, ps, n - 1), c, row, DeltaSums(len, rate, xs, ys, ps, n));
  }

  lemma {:induction false} WeightedIs(len: nat, rate: real, xs: seq<real>, ys: seq<int>, ps: seq<real>, v: seq<real>, n: nat)
    requires n <= |ys| && n <= |ps| && |v| == len + 1
    ensures Mul(rate, Weighted(len, xs, ys, ps, v, n)) == Paired(v, DeltaSums(len, rate, xs, ys, ps, n))
  {
    if n == 0 {
      NoMoves(len, rate, xs, ys, ps);
      PairedZero(v, DeltaSums(len, rate, xs, ys, ps, 0));
    } else {
      hide *;
      var e := ps[n - 1] - ys[n - 1] as real;
      PairedGrows(len, rate, xs, ys, ps, v, n, e);
      WeightedIs(len, rate, xs, ys, ps, v, n - 1);
      WeightedStep(len, xs, ys, ps, v, n, e);
      Grown(rate, e, Weighted(len, xs, ys, ps, v, n - 1), Dot(v[..len], Row(xs, len, n - 1)), v[len]);
    }
  }

  lemma WeightedStep(len: nat, xs: seq<real>, ys: seq<int>, ps: seq<real>, v: seq<real>, n: nat, e: real)
    requires 0 < n <= |ys| && n <= |ps| && |v| == len + 1 && e == ps[n - 1] - ys[n - 1] as real
    ensures Weighted(len, xs, ys, ps, v, n) ==
      Weighted(len, xs, ys, ps, v, n - 1) + Mul(e, Dot(v[..len], Row(xs, len, n - 1)) + v[len])
  {
    hide Dot, Row;
  }

  lemma PullStep(ps: seq<real>, ys: seq<int>, before: seq<real>, after: seq<real>, n: nat, g: real)
    requires 0 < n <= |ps| && n <= |ys| && n <= |before| && n <= |after| && after[n - 1] - before[n - 1] == -g
    ensures Pull(ps, ys, before, after, n) ==
      Pull(ps, ys, before, after, n - 1) - Mul(ps[n - 1] - ys[n - 1] as real, g)
  {
    Negated(ps[n - 1] - ys[n - 1] as real, g);
  }

  lemma {:induction false} PullIs(w: seq<real>, bias: real, d: seq<real>, w': seq<real>, bias': real,
                                  xs: seq<real>, ys: seq<int>, ps: seq<real>, n: nat, k: nat)
    requires Moved(w, bias, d, w', bias') && k <= n <= |ys| && n <= |ps|
    ensures Pull(ps, ys, Scores(w, bias, xs, n), Scores(w', bias', xs, n), k) == -Weighted(|w|, xs, ys, ps, d, k)
  {
    if k > 0 {
      var row := Row(xs, |w|, k - 1);
      assert Scores(w, bias, xs, n)[k - 1] == Score(w, bias, row);
      assert Scores(w', bias', xs, n)[k - 1] == Score(w', bias', row);
      WeightedStep(|w|, xs, ys, ps, d, k, ps[k - 1] - ys[k - 1] as real);
      AlongMoves(w, bias, d, w', bias', row);
      hide Moved, Score, Scores, Pull, Weighted, Dot, Row, Mul;
      PullIs(w, bias, d, w', bias', xs, ys, ps, n, k - 1);
      PullStep(ps, ys, Scores(w, bias, xs, n), Scores(w', bias', xs, n), k, Dot(d[..|w|], row) + d[|w|]);
    }
  }

  lemma AlongMoves(w: seq<real>, bias: real, d: seq<real>, w': seq<real>, bias': real, x: seq<real>)
    requires Moved(w, bias, d, w', bias') && |x| == |w|
    ensures |d| == |w| + 1 && Score(w', bias', x) - Score(w, bias, x) == -(Dot(d[..|w|], x) + d[|w|])
  {
    ScoreMoves(w, bias, d, w', bias', x);
    hide Dot, Score, Moved;
  }

  lemma Negated(e: real, g: real)
    ensures e * -g == -(e * g)
  {
  }

  lemma {:induction false} DotSquares(w: seq<real>, bias: real, d: seq<real>, w': seq<real>, bias': real, n: nat)
    requires Moved(w, bias, d, w', bias') && n <= |w|
    ensures LinSum(d[..|w|], d[..|w|], 0, n) == SquaredMove(w, w', n)
  {
    if n > 0 {
      DotSquares(w, bias, d, w', bias', n - 1);
      assert w'[n - 1] - w[n - 1] == -d[n - 1];
      SameSquare(d[n - 1], w'[n - 1] - w[n - 1]);
    }
  }

  lemma PullPaired(w: seq<real>, bias: real, d: seq<real>, w': seq<real>, bias': real, rate: real,
                   xs: seq<real>, ys: seq<int>, ps: seq<real>, n: nat)
    requires n == |ys| == |ps| && d == DeltaSums(|w|, rate, xs, ys, ps, n) && Moved(w, bias, d, w', bias')
    ensures Mul(rate, Pull(ps, ys, Scores(w, bias, xs, n), Scores(w', bias', xs, n), n)) == -Paired(d, d)
  {
    hide *;
    PullIs(w, bias, d, w', bias', xs, ys, ps, n, n);
    WeightedIs(|w|, rate, xs, ys, ps, d, n);
    Opposite(rate, Weighted(|w|, xs, ys, ps, d, n));
  }

  lemma Opposite(rate: real, u: real)
    ensures Mul(rate, -u) == -Mul(rate, u)
  {
    Negated(rate, u);
  }

  /** A training step goes downhill: weighted with the errors, the scores of the rows change by minus the sum
      of the squares of all moves, divided by the rate. */
  lemma StepGoesDown(w: seq<real>, bias: real, w': seq<real>, bias': real, rate: real,
                     xs: seq<real>, ys: seq<int>, ps: seq<real>, n: nat)
    requires n == |ys| == |ps| && Moved(w, bias, DeltaSums(|w|, rate, xs, ys, ps, n), w', bias')
    ensures rate * Pull(ps, ys, Scores(w, bias, xs, n), Scores(w', bias', xs, n), n)
      == -(SquaredMove(w, w', |w|) + Sq(bias' - bias))
  {
    var d := DeltaSums(|w|, rate, xs, ys, ps, n);
    PullPaired(w, bias, d, w', bias', rate, xs, ys, ps, n);
    PairedSelf(w, bias, d, w', bias');
    hide Pull, Paired, SquaredMove, Scores, Moved, DeltaSums;
  }

  lemma PairedSelf(w: seq<real>, bias: real, d: seq<real>, w': seq<real>, bias': real)
    requires Moved(w, bias, d, w', bias')
    ensures |d| == |w| + 1 && Paired(d, d) == SquaredMove(w, w', |w|) + Sq(bias' - bias)
  {
    SameSquare(d[|w|], bias' - bias);
    DotSquares(w, bias, d, w', bias', |w|);
    hide LinSum, SquaredMove;
  }

  lemma SameSquare(x: real, y: real)
    requires y == -x
    ensures Sq(y) == Sq(x)
  {
  }

  lemma Square(x: real)
    ensures if x == 0.0 then Sq(x) == 0.0 else Sq(x) > 0.0
  {
    if x > 0.0 {
      SquarePositive(x);
    } else if x < 0.0 {
      SquareNegative(x);
    }
  }

  lemma SquareNegative(x: real)
    requires x < 0.0
    ensures Sq(x) > 0.0
  {
    SquarePositive(-x);
    SameSquare(-x, x);
  }

  lemma SquarePositive(x: real)
    requires x > 0.0
    ensures Sq(x) > 0.0
  {
    PositiveProduct(x, x);
  }

  lemma PositiveProduct(x: real, y: real)
    requires x > 0.0 && y > 0.0
    ensures Mul(x, y) > 0.0
  {
    assert x * y > 0.0;
  }

  lemma {:induction false} SquaredMoveSign(w: seq<real>, w': seq<real>, n: nat)
    requires n <= |w| && n <= |w'|
    ensures if w[..n] == w'[..n] then SquaredMove(w, w', n) == 0.0 else SquaredMove(w, w', n) > 0.0
  {
    hide Sq;
    if n > 0 {
      SquaredMoveSign(w, w', n - 1);
      Square(w'[n - 1] - w[n - 1]);
      assert w[..n] == w[..n - 1] + [w[n - 1]] && w'[..n] == w'[..n - 1] + [w'[n - 1]];
    }
  }

  lemma MoveSquares(w: seq<real>, bias: real, d: seq<real>, w': seq<real>, bias': real)
    requires Moved(w, bias, d, w', bias')
    ensures |w'| == |w|
    ensures var s := SquaredMove(w, w', |w|) + Sq(bias' - bias);
      if w' == w && bias' == bias then s == 0.0 else s > 0.0
  {
    hide SquaredMove, Sq;
    SquaredMoveSign(w, w', |w|);
    Square(bias' - bias);
    assert w[..|w|] == w && w'[..|w|] == w';
  }

  /** With a positive rate the scores move against the errors, or the model does not move at all. */
  lemma StepNeverClimbs(w: seq<real>, bias: real, w': seq<real>, bias': real, rate: real,
                        xs: seq<real>, ys: seq<int>, ps: seq<real>, n: nat)
    requires n == |ys| == |ps| && Moved(w, bias, DeltaSums(|w|, rate, xs, ys, ps, n), w', bias') && rate > 0.0
    ensures var pull := Pull(ps, ys, Scores(w, bias, xs, n), Scores(w', bias', xs, n), n);
      if w' == w && bias' == bias then pull == 0.0 else pull < 0.0
  {
    var d := DeltaSums(|w|, rate, xs, ys, ps, n);
    hide *;
    PullPaired(w, bias, d, w', bias', rate, xs, ys, ps, n);
    PairedSelf(w, bias, d, w', bias');
    MoveSquares(w, bias, d, w', bias');
    SignOfProduct(rate, Pull(ps, ys, Scores(w, bias, xs, n), Scores(w', bias', xs, n), n));
  }

  lemma SignOfProduct(rate: real, x: real)
    requires rate > 0.0
    ensures if x == 0.0 then Mul(rate, x) == 0.0 else if x > 0.0 then Mul(rate, x) > 0.0 else Mul(rate, x) < 0.0
  {
    if x < 0.0 {
      assert rate * -x > 0.0;
      Negated(rate, x);
    }
  }

  lemma {:induction false} DotSign(x: seq<real>, n: nat)
    requires n <= |x|
    ensures LinSum(x, x, 0, n) >= 0.0
  {
    if n > 0 {
      DotSign(x, n - 1);
      Square(x[n - 1]);
    }
  }

  /** A step takes the score of every row x, of the batch or not, down by the rate times what the rows of the
      batch pull at it. */
  ghost predicate TurnsScores(w: seq<real>, bias: real, w': seq<real>, bias': real, rate: real,
                              xs: seq<real>, ys: seq<int>, ps: seq<real>)
    requires |ys| == |ps|
  {
    forall x: seq<real> | |x| == |w| :: Score(w', bias', x) == Score(w, bias, x) - rate * Turned(|w|, xs, ys, ps, x, |ys|)
  }

  /** Weighted with the errors, the scores of the batch change by minus the squares of all moves over the rate;
      so with a positive rate they move against the errors, unless nothing moves. */
  ghost predicate Descends(w: seq<real>, bias: real, w': seq<real>, bias': real, rate: real,
                           xs: seq<real>, ys: seq<int>, ps: seq<real>)
    requires |ys| == |ps| && |w'| == |w|
  {
    var pull := Pull(ps, ys, Scores(w, bias, xs, |ys|), Scores(w', bias', xs, |ys|), |ys|);
    && rate * pull == -(SquaredMove(w, w', |w|) + Sq(bias' - bias))
    && (rate > 0.0 ==> if w' == w && bias' == bias then pull == 0.0 else pull < 0.0)
  }

  /** What a training step does, said of the scores; and without errors nothing moves. */
  ghost predicate StepsDown(w: seq<real>, bias: real, w': seq<real>, bias': real, rate: real,
                            xs: seq<real>, ys: seq<int>, ps: seq<real>)
    requires |ys| == |ps|
  {
    && |w'| == |w| && TurnsScores(w, bias, w', bias', rate, xs, ys, ps) && Descends(w, bias, w', bias', rate, xs, ys, ps)
    && ((forall i: nat :: i < |ys| ==> ps[i] == ys[i] as real) ==> w' == w && bias' == bias)
  }

  lemma StepTurns(w: seq<real>, bias: real, w': seq<real>, bias': real, rate: real,
                  xs: seq<real>, ys: seq<int>, ps: seq<real>)
    requires |ys| == |ps| && Moved(w, bias, DeltaSums(|w|, rate, xs, ys, ps, |ys|), w', bias')
    ensures TurnsScores(w, bias, w', bias', rate, xs, ys, ps)
  {
    hide Score, Turned, Moved, DeltaSums;
    forall x: seq<real> | |x| == |w|
      ensures Score(w', bias', x) == Score(w, bias, x) - rate * Turned(|w|, xs, ys, ps, x, |ys|)
    {
      EveryScoreTurns(w, bias, w', bias', rate, xs, ys, ps, x);
    }
  }

  lemma StepDescends(w: seq<real>, bias: real, w': seq<real>, bias': real, rate: real,
                     xs: seq<real>, ys: seq<int>, ps: seq<real>)
    requires |ys| == |ps| && Moved(w, bias, DeltaSums(|w|, rate, xs, ys, ps, |ys|), w', bias')
    ensures |w'| == |w| && Descends(w, bias, w', bias', rate, xs, ys, ps)
  {
    StepGoesDown(w, bias, w', bias', rate, xs, ys, ps, |ys|);
    if rate > 0.0 { StepNeverClimbs(w, bias, w', bias', rate, xs, ys, ps, |ys|); }
    hide Score, Scores, Pull, SquaredMove, Sq, DeltaSums;
  }

  lemma StillWhenRight(w: seq<real>, bias: real, w': seq<real>, bias': real, rate: real,
                       xs: seq<real>, ys: seq<int>, ps: seq<real>)
    requires |ys| == |ps| && Moved(w, bias, DeltaSums(|w|, rate, xs, ys, ps, |ys|), w', bias')
    requires forall i: nat :: i < |ys| ==> ps[i] == ys[i] as real
    ensures w' == w && bias' == bias
  {
    NoErrorNoMove(|w|, rate, xs, ys, ps, |ys|);
    hide DeltaSums;
    assert forall j: nat :: j < |w| ==> w'[j] == w[j];
  }

  lemma TrainStepsDown(w: seq<real>, bias: real, w': seq<real>, bias': real, rate: real,
                       xs: seq<real>, ys: seq<int>, ps: seq<real>)
    requires |ys| == |ps| && Moved(w, bias, DeltaSums(|w|, rate, xs, ys, ps, |ys|), w', bias')
    ensures StepsDown(w, bias, w', bias', rate, xs, ys, ps)
  {
    hide TurnsScores, Descends, Moved, DeltaSums;
    StepTurns(w, bias, w', bias', rate, xs, ys, ps);
    StepDescends(w, bias, w', bias', rate, xs, ys, ps);
    if forall i: nat :: i < |ys| ==> ps[i] == ys[i] as real { StillWhenRight(w, bias, w', bias', rate, xs, ys, ps); }
  }

  /** A batch pulls as its last row by itself does, added to the others. */
  lemma TurnedAdds(len: nat, xs: seq<real>, ys: seq<int>, ps: seq<real>, x: seq<real>, n: nat)
    requires 0 < n <= |ys| && n <= |ps| && |x| == len
    ensures Turned(len, xs, ys, ps, x, n) ==
      Turned(len, xs, ys, ps, x, n - 1) + Turned(len, Row(xs, len, n - 1), [ys[n - 1]], [ps[n - 1]], x, 1)
  {
    var row := Row(xs, len, n - 1);
    assert Row(row, len, 0) == row;
    assert Turned(len, row, [ys[n - 1]], [ps[n - 1]], x, 1) ==
      Turned(len, row, [ys[n - 1]], [ps[n - 1]], x, 0) + (ps[n - 1] - ys[n - 1] as real) * (Dot(row, x) + 1.0);
  }

  lemma TurnedOne(len: nat, xs: seq<real>, y: int, p: real, x: seq<real>, e: real)
    requires |x| == len && e == p - y as real
    ensures Turned(len, xs, [y], [p], x, 1) == Mul(e, Dot(Row(xs, len, 0), x) + 1.0)
  {
    hide Dot, Row;
    TurnedStep(len, xs, [y], [p], x, 1, e);
  }

  lemma ScoreTurns(w: seq<real>, bias: real, w': seq<real>, bias': real, rate: real,
                   xs: seq<real>, ys: seq<int>, ps: seq<real>, x: seq<real>)
    requires |ys| == |ps| && StepsDown(w, bias, w', bias', rate, xs, ys, ps) && |x| == |w|
    ensures Score(w', bias', x) == Score(w, bias, x) - Mul(rate, Turned(|w|, xs, ys, ps, x, |ys|))
  {
    hide Score, Descends, Turned;
  }

  /** A step on a single row takes the row's score against its error, by the sum of its squares and one. */
  lemma OneRowStep(w: seq<real>, bias: real, w': seq<real>, bias': real, rate: real, xs: seq<real>, y: int, p: real)
    requires StepsDown(w, bias, w', bias', rate, xs, [y], [p])
    ensures var x := Row(xs, |w|, 0);
      Score(w', bias', x) == Score(w, bias, x) - Mul(rate, Mul(p - y as real, Dot(x, x) + 1.0)) && Dot(x, x) >= 0.0
  {
    var x := Row(xs, |w|, 0);
    DotSign(x, |x|);
    assert Dot(x, x) >= 0.0;
    hide *;
    TurnedOne(|w|, xs, y, p, x, p - y as real);
    ScoreTurns(w, bias, w', bias', rate, xs, [y], [p], x);
  }
}
