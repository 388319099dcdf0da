/** Logistic regression of src/logreg.c over the reals: the loops, and the same work cut into jobs. */
module LogReg {
  import opened Wrappers
  import opened IndependentJobs
  import opened Regression

  // ---------- the predicting jobs ----------

  /** The local variables of lr_predict_one in a job. */
  datatype PredictLocals = PredictLocals(j: nat, sum: real)

  /** What the predicting jobs share: the model, the rows and the one array Ps they all write. */
  datatype PredictMemory = PredictMemory(w: seq<real>, bias: real, xs: seq<real>, ps: seq<real>, jobs: seq<PredictLocals>)

  /** lr_predict_t of row i, one pass of its loop or its last line, which writes Ps[i]. */
  function PredictStep(sigmoid: real -> real, i: nat, m: PredictMemory): PredictMemory {
    if i >= |m.jobs| || i >= |m.ps| then m else
    var l := m.jobs[i];
    if l.j < |m.w| then m.(jobs := m.jobs[i := PredictLocals(l.j + 1, l.sum + Product(m.w, m.xs, i, l.j))])
    else if l.j == |m.w| then m.(jobs := m.jobs[i := l.(j := l.j + 1)], ps := m.ps[i := sigmoid(l.sum + m.bias)])
    else m
  }

  function PredictJob(sigmoid: real -> real): (nat, PredictMemory) -> PredictMemory {
    (i: nat, m: PredictMemory) => PredictStep(sigmoid, i, m)
  }

  /** Job i writes its own place of Ps and its own variables, and nothing else. */
  lemma PredictWrites(sigmoid: real -> real, i: nat, m: PredictMemory)
    ensures var m' := PredictStep(sigmoid, i, m);
      && m'.w == m.w && m'.bias == m.bias && m'.xs == m.xs && |m'.ps| == |m.ps| && |m'.jobs| == |m.jobs|
      && (forall k: nat :: k < |m.ps| && k != i ==> m'.ps[k] == m.ps[k])
      && forall k: nat :: k < |m.jobs| && k != i ==> m'.jobs[k] == m.jobs[k]
  {
  }

  /** What job i writes depends on the model, the rows and its own variables, on nothing another job writes. */
  lemma PredictReads(sigmoid: real -> real, i: nat, m: PredictMemory, n: PredictMemory)
    requires m.w == n.w && m.bias == n.bias && m.xs == n.xs && |m.ps| == |n.ps| && |m.jobs| == |n.jobs|
    requires i < |m.jobs| && i < |m.ps| && m.jobs[i] == n.jobs[i]
    ensures var (m', n') := (PredictStep(sigmoid, i, m), PredictStep(sigmoid, i, n));
      && m'.jobs[i] == n'.jobs[i]
      && (m'.ps[i] == n'.ps[i] || (m'.ps == m.ps && n'.ps == n.ps))
  {
  }

  /** The places of the memory that job i reads or writes. */
  datatype PredictView = PredictView(w: seq<real>, bias: real, xs: seq<real>, places: nat, count: nat,
                                     p: real, locals: PredictLocals)

  function PredictSees(): (nat, PredictMemory) -> PredictView {
    (i: nat, m: PredictMemory) => PredictView(m.w, m.bias, m.xs, |m.ps|, |m.jobs|,
      if i < |m.ps| then m.ps[i] else 0.0, if i < |m.jobs| then m.jobs[i] else PredictLocals(0, 0.0))
  }

  lemma PredictJobsApart(sigmoid: real -> real)
    ensures WritesApart(PredictJob(sigmoid), PredictSees())
    ensures ReadsOwnView(PredictJob(sigmoid), PredictSees())
  {
    var (step, view) := (PredictJob(sigmoid), PredictSees());
    forall i: nat, k: nat, m | i != k ensures view(k, step(i, m)) == view(k, m) {
      PredictWrites(sigmoid, i, m);
    }
    forall i: nat, m, n | view(i, m) == view(i, n) ensures view(i, step(i, m)) == view(i, step(i, n)) {
      PredictWrites(sigmoid, i, m);
      PredictWrites(sigmoid, i, n);
      assert i < |m.ps| ==> m.ps[i] == view(i, m).p && n.ps[i] == view(i, n).p;
      if i < |m.jobs| && i < |m.ps| {
        assert m.jobs[i] == view(i, m).locals && n.jobs[i] == view(i, n).locals;
        PredictReads(sigmoid, i, m, n);
      }
    }
  }

  /** Job i by itself: after its loop and its last line Ps[i] is what the loop path computes. */
  lemma {:induction false} PredictAlone(sigmoid: real -> real, i: nat, m: PredictMemory, n: nat)
    requires i < |m.jobs| && i < |m.ps| && m.jobs[i] == PredictLocals(0, 0.0)
    ensures var m' := Alone(i, m, n, PredictJob(sigmoid));
      && m'.w == m.w && m'.bias == m.bias && m'.xs == m.xs && |m'.jobs| == |m.jobs| && |m'.ps| == |m.ps|
      && if n <= |m.w| then m'.jobs[i] == PredictLocals(n, LinSum(m.w, m.xs, i, n))
         else m'.jobs[i].j == |m.w| + 1 && m'.ps[i] == Prediction(m.w, m.bias, sigmoid, m.xs, i)
  {
    hide Product;
    if n > 0 {
      PredictAlone(sigmoid, i, m, n - 1);
      assert Alone(i, m, n, PredictJob(sigmoid)) == PredictStep(sigmoid, i, Alone(i, m, n - 1, PredictJob(sigmoid)));
    }
  }

  // ---------- the training jobs ----------

  /** What the training jobs share, `ps` the predictions of all rows; and for each job its loop variable
      and the array it allocates. */
  datatype TrainMemory = TrainMemory(len: nat, rate: real, xs: seq<real>, ys: seq<int>, ps: seq<real>,
                                     jobs: seq<nat>, deltas: seq<seq<real>>)

  /** lr_train_t_ of row i, one pass of its loop or its last assignment. */
  function TrainStep(i: nat, m: TrainMemory): TrainMemory {
    if i >= |m.jobs| || i >= |m.deltas| || i >= |m.ys| || i >= |m.ps| then m else
    var j := m.jobs[i];
    if j > m.len || j >= |m.deltas[i]| then m else
    var delta := Delta(m.len, m.rate, m.xs, m.ys[i], m.ps[i], i, j);
    m.(jobs := m.jobs[i := j + 1], deltas := m.deltas[i := m.deltas[i][j := m.deltas[i][j] + delta]])
  }

  function TrainJob(): (nat, TrainMemory) -> TrainMemory {
    (i: nat, m: TrainMemory) => TrainStep(i, m)
  }

  /** Job i writes its own array and its own variable, and nothing else: not the predictions. */
  lemma TrainWrites(i: nat, m: TrainMemory)
    ensures var m' := TrainStep(i, m);
      && m' == m.(jobs := m'.jobs, deltas := m'.deltas) && |m'.jobs| == |m.jobs| && |m'.deltas| == |m.deltas|
      && (forall k: nat :: k < |m.jobs| && k != i ==> m'.jobs[k] == m.jobs[k])
      && forall k: nat :: k < |m.deltas| && k != i ==> m'.deltas[k] == m.deltas[k]
  {
  }

  /** What job i writes depends on what no training job writes and on its own places. */
  lemma TrainReads(i: nat, m: TrainMemory, n: TrainMemory)
    requires n == m.(jobs := n.jobs, deltas := n.deltas) && |m.jobs| == |n.jobs| && |m.deltas| == |n.deltas|
    requires i < |m.jobs| && i < |m.deltas| && m.jobs[i] == n.jobs[i] && m.deltas[i] == n.deltas[i]
    ensures TrainStep(i, m).jobs[i] == TrainStep(i, n).jobs[i] && TrainStep(i, m).deltas[i] == TrainStep(i, n).deltas[i]
  {
  }

  /** The places of the memory that job i reads or writes. */
  datatype TrainView = TrainView(shared: TrainMemory, jobs: nat, arrays: nat, j: nat, deltas: seq<real>)

  function TrainSees(): (nat, TrainMemory) -> TrainView {
    (i: nat, m: TrainMemory) => TrainView(m.(jobs := [], deltas := []), |m.jobs|, |m.deltas|,
      if i < |m.jobs| then m.jobs[i] else 0, if i < |m.deltas| then m.deltas[i] else [])
  }

  lemma TrainJobsApart()
    ensures WritesApart(TrainJob(), TrainSees()) && ReadsOwnView(TrainJob(), TrainSees())
  {
    var (step, view) := (TrainJob(), TrainSees());
    forall i: nat, k: nat, m | i != k ensures view(k, step(i, m)) == view(k, m) {
      TrainWrites(i, m);
    }
    forall i: nat, m, n | view(i, m) == view(i, n) ensures view(i, step(i, m)) == view(i, step(i, n)) {
      TrainWrites(i, m);
      TrainWrites(i, n);
      if i < |m.jobs| && i < |m.deltas| {
        assert m.jobs[i] == view(i, m).j && n.jobs[i] == view(i, n).j;
        assert m.deltas[i] == view(i, m).deltas && n.deltas[i] == view(i, n).deltas;
        assert m.(jobs := [], deltas := []) == n.(jobs := [], deltas := []);
        TrainReads(i, m, n);
      }
    }
  }

  /** Job i by itself: its array ends as the deltas of its row. */
  lemma {:induction false} TrainAlone(i: nat, m: TrainMemory, n: nat)
    requires i < |m.jobs| && i < |m.deltas| && i < |m.ys| && i < |m.ps|
    requires m.jobs[i] == 0 && |m.deltas[i]| == m.len + 1 && forall j: nat :: j <= m.len ==> m.deltas[i][j] == 0.0
    ensures var m' := Alone(i, m, n, TrainJob());
      && m' == m.(jobs := m'.jobs, deltas := m'.deltas) && |m'.jobs| == |m.jobs| && |m'.deltas| == |m.deltas|
      && m'.jobs[i] == (if n <= m.len then n else m.len + 1) && |m'.deltas[i]| == m.len + 1
      && forall j: nat :: j <= m.len ==>
           m'.deltas[i][j] == if j < m'.jobs[i] then Delta(m.len, m.rate, m.xs, m.ys[i], m.ps[i], i, j) else 0.0
  {
    if n > 0 { TrainAlone(i, m, n - 1); }
  }

  // ---------- the model as an object ----------

  /** The largest absolute value among the first n, or zero. */
  function MaxAbs(d: seq<real>, n: nat): real
    requires n <= |d|
  {
    if n == 0 then 0.0 else
    var m, x := MaxAbs(d, n - 1), if d[n - 1] < 0.0 then -d[n - 1] else d[n - 1];
    if x > m then x else m
  }

  lemma {:induction false} MaxAbsIs(d: seq<real>, n: nat)
    requires n <= |d|
    ensures var r := MaxAbs(d, n);
      && r >= 0.0 && (forall j: nat :: j < n ==> -r <= d[j] <= r)
      && (r == 0.0 || exists j: nat :: j < n && (d[j] == r || d[j] == -r))
  {
    if n > 0 {
      MaxAbsIs(d, n - 1);
      assert MaxAbs(d, n) == MaxAbs(d, n - 1) || MaxAbs(d, n) == d[n - 1] || MaxAbs(d, n) == -d[n - 1];
    }
  }

  /** A schedule of n jobs in which each takes at least `steps` steps. */
  ghost predicate Completes(schedule: seq<nat>, n: nat, steps: nat) {
    && (forall k: nat :: k < |schedule| ==> schedule[k] < n)
    && forall i: nat :: i < n ==> StepsOf(i, schedule) >= steps
  }

  class LogReg {
    const weights: array<real>
    const rate: real
    const sigmoid: real -> real
    var bias: real

    constructor (weights: array<real>, bias: real, rate: real, sigmoid: real -> real)
      ensures this.weights == weights && this.bias == bias && this.rate == rate && this.sigmoid == sigmoid
    {
      this.weights, this.bias, this.rate, this.sigmoid := weights, bias, rate, sigmoid;
    }

    /** lr_predict_one on row i. */
    method PredictOne(xs: seq<real>, i: nat) returns (p: real)
      requires (i + 1) * weights.Length <= |xs|
      ensures p == Prediction(weights[..], bias, sigmoid, xs, i)
    {
      var linSum := 0.0;
      for j := 0 to weights.Length
        invariant linSum == LinSum(weights[..], xs, i, j)
      {
        InRow(i + 1, weights.Length, i, j);
        linSum := linSum + weights[j] * xs[i * weights.Length + j];
      }
      p := sigmoid(linSum + bias);
    }

    /** lr_predict without a scheduler. */
    method PredictLoop(xs: seq<real>, batchSz: nat) returns (ps: array<real>)
      requires |xs| == batchSz * weights.Length
      ensures fresh(ps) && ps[..] == Predictions(weights[..], bias, sigmoid, xs, batchSz)
    {
      ps := new real[batchSz];
      for i := 0 to batchSz
        invariant forall k: nat :: k < i ==> ps[k] == Prediction(weights[..], bias, sigmoid, xs, k)
      {
        Grows(i + 1, batchSz, weights.Length);
        ps[i] := PredictOne(xs, i);
      }
    }

    /** The memory the predicting jobs share. */
    ghost function PredictShared(xs: seq<real>, ps: array<real>, jobs: array<PredictLocals>): PredictMemory
      reads this`bias, weights, ps, jobs
    {
      PredictMemory(weights[..], bias, xs, ps[..], jobs[..])
    }

    /** lr_predict with a scheduler: one job a row, all of them writing into Ps. The schedule is the order in
        which their steps are executed; it is complete once every job is. */
    method PredictJobs(xs: seq<real>, batchSz: nat, schedule: seq<nat>) returns (ps: array<real>)
      requires |xs| == batchSz * weights.Length && Completes(schedule, batchSz, weights.Length + 1)
      ensures fresh(ps) && ps[..] == Predictions(weights[..], bias, sigmoid, xs, batchSz)
    {
      ps := new real[batchSz];
      var jobs := new PredictLocals[batchSz](_ => PredictLocals(0, 0.0));
      ghost var start, step := PredictShared(xs, ps, jobs), PredictJob(sigmoid);
      for k := 0 to |schedule|
        invariant PredictShared(xs, ps, jobs) == Run(start, schedule[..k], step)
      {
        assert schedule[..k + 1][..k] == schedule[..k];
        PredictJobStep(xs, ps, jobs, schedule[k]);
      }
      assert schedule[..|schedule|] == schedule;
      PredictDone(sigmoid, start, schedule, PredictShared(xs, ps, jobs));
    }

    /** One step of lr_predict_t. */
    method PredictJobStep(xs: seq<real>, ps: array<real>, jobs: array<PredictLocals>, i: nat)
      requires i < jobs.Length == ps.Length && |xs| == jobs.Length * weights.Length && ps != weights
      modifies jobs, ps
      ensures PredictShared(xs, ps, jobs) == PredictStep(sigmoid, i, old(PredictShared(xs, ps, jobs)))
    {
      var l := jobs[i];
      ghost var m := PredictShared(xs, ps, jobs);
      hide Product;
      if l.j < weights.Length {
        var term := WeightedTerm(xs, i, l.j, jobs.Length);
        jobs[i] := PredictLocals(l.j + 1, l.sum + term);
        assert jobs[..] == PredictStep(sigmoid, i, m).jobs;
      } else if l.j == weights.Length {
        jobs[i] := l.(j := l.j + 1);
        ps[i] := sigmoid(l.sum + bias);
        assert jobs[..] == PredictStep(sigmoid, i, m).jobs && ps[..] == PredictStep(sigmoid, i, m).ps;
      }
    }

    /** weights[j] * Xs[i * weights_len + j] */
    method WeightedTerm(xs: seq<real>, i: nat, j: nat, n: nat) returns (term: real)
      requires i < n && j < weights.Length && |xs| == n * weights.Length
      ensures term == Product(weights[..], xs, i, j)
    {
      InRow(n, weights.Length, i, j);
      var x := xs[i * weights.Length + j];
      assert x == Elem(xs, |weights[..]|, i, j);
      hide Elem;
      term := weights[j] * x;
    }

    /** The deltas without a scheduler. */
    method DeltasLoop(xs: seq<real>, ys: seq<int>, ps: array<real>) returns (deltas: array<real>)
      requires |xs| == |ys| * weights.Length && ps.Length == |ys|
      ensures fresh(deltas) && deltas[..] == DeltaSums(weights.Length, rate, xs, ys, ps[..], |ys|)
    {
      var len := weights.Length;
      deltas := new real[len + 1](_ => 0.0);
      for i := 0 to |ys|
        invariant fresh(deltas) && deltas[..] == DeltaSums(len, rate, xs, ys, ps[..], i)
      {
        AddRow(deltas, xs, ys, ps, i);
      }
    }

    /** One row of that loop. */
    method AddRow(deltas: array<real>, xs: seq<real>, ys: seq<int>, ps: array<real>, i: nat)
      requires |xs| == |ys| * weights.Length && ps.Length == |ys| && i < |ys|
      requires deltas.Length == weights.Length + 1 && deltas != ps && deltas != weights
      modifies deltas
      ensures forall j: nat :: j < deltas.Length ==>
        deltas[j] == old(deltas[j]) + Delta(weights.Length, rate, xs, ys[i], ps[i], i, j)
    {
      var len := weights.Length;
      for j := 0 to len
        invariant forall k: nat :: k < j ==> deltas[k] == old(deltas[k]) + Delta(len, rate, xs, ys[i], ps[i], i, k)
        invariant forall k: nat :: j <= k <= len ==> deltas[k] == old(deltas[k])
      {
        InRow(|ys|, len, i, j);
        deltas[j] := deltas[j] + rate * (ps[i] - ys[i] as real) * xs[i * len + j];
      }
      deltas[len] := deltas[len] + rate * (ps[i] - ys[i] as real);
    }

    /** The memory the training jobs share. */
    ghost function TrainShared(xs: seq<real>, ys: seq<int>, ps: array<real>, jobs: array<nat>,
                               arrays: array<seq<real>>): TrainMemory
      reads ps, jobs, arrays
    {
      TrainMemory(weights.Length, rate, xs, ys, ps[..], jobs[..], arrays[..])
    }

    /** The training jobs, executed in the order of the schedule. Each returns the array it has allocated. */
    method RunTrainJobs(xs: seq<real>, ys: seq<int>, ps: array<real>, schedule: seq<nat>) returns (arrays: array<seq<real>>)
      requires |xs| == |ys| * weights.Length && ps.Length == |ys| && Completes(schedule, |ys|, weights.Length + 1)
      ensures fresh(arrays) && arrays.Length == |ys|
      ensures forall i: nat :: i < |ys| ==> |arrays[i]| == weights.Length + 1
      ensures forall i: nat, j: nat :: i < |ys| && j <= weights.Length ==>
        arrays[i][j] == Delta(weights.Length, rate, xs, ys[i], ps[i], i, j)
    {
      var len := weights.Length;
      var jobs := new nat[|ys|](_ => 0);
      arrays := new seq<real>[|ys|](_ => seq(len + 1, _ => 0.0));
      ghost var start, step := TrainShared(xs, ys, ps, jobs, arrays), TrainJob();
      for k := 0 to |schedule|
        invariant TrainShared(xs, ys, ps, jobs, arrays) == Run(start, schedule[..k], step)
      {
        assert schedule[..k + 1][..k] == schedule[..k];
        TrainJobStep(xs, ys, ps, jobs, arrays, schedule[k]);
      }
      assert schedule[..|schedule|] == schedule;
      TrainDone(start, schedule, TrainShared(xs, ys, ps, jobs, arrays));
    }

    /** The deltas with a scheduler: the arrays are added up in the order of the rows once all jobs have
        completed, for which js_get_return_val waits. */
    method DeltasJobs(xs: seq<real>, ys: seq<int>, ps: array<real>, schedule: seq<nat>) returns (deltas: array<real>)
      requires |xs| == |ys| * weights.Length && ps.Length == |ys| && Completes(schedule, |ys|, weights.Length + 1)
      ensures fresh(deltas) && deltas[..] == DeltaSums(weights.Length, rate, xs, ys, ps[..], |ys|)
    {
      var len := weights.Length;
      ghost var p := ps[..];
      var arrays := RunTrainJobs(xs, ys, ps, schedule);
      ghost var end := arrays[..];
      deltas := new real[len + 1](_ => 0.0);
      for i := 0 to |ys|
        invariant fresh(deltas) && deltas[..] == DeltaSums(len, rate, xs, ys, p, i) && arrays[..] == end
      {
        assert end[i] == arrays[i];
        AddReturned(deltas, arrays[i]);
      }
    }

    /** One step of lr_train_t_. */
    method TrainJobStep(xs: seq<real>, ys: seq<int>, ps: array<real>, jobs: array<nat>, arrays: array<seq<real>>, i: nat)
      requires i < jobs.Length == arrays.Length == |ys| == ps.Length && |xs| == |ys| * weights.Length
      modifies jobs, arrays
      ensures TrainShared(xs, ys, ps, jobs, arrays) == TrainStep(i, old(TrainShared(xs, ys, ps, jobs, arrays)))
    {
      var j, len := jobs[i], weights.Length;
      ghost var m := TrainShared(xs, ys, ps, jobs, arrays);
      hide Delta;
      if j <= len && j < |arrays[i]| {
        var delta := OwnDelta(xs, ys, ps, i, j);
        AddOwn(jobs, arrays, i, delta);
        assert jobs[..] == TrainStep(i, m).jobs && arrays[..] == TrainStep(i, m).deltas;
      }
    }

    /** What lr_train_t_ adds to the j-th place of its array: in its loop, or after it for the bias. */
    method OwnDelta(xs: seq<real>, ys: seq<int>, ps: array<real>, i: nat, j: nat) returns (delta: real)
      requires i < |ys| == ps.Length && |xs| == |ys| * weights.Length && j <= weights.Length
      ensures delta == Delta(weights.Length, rate, xs, ys[i], ps[i], i, j)
    {
      delta := rate * (ps[i] - ys[i] as real);
      if j < weights.Length {
        InRow(|ys|, weights.Length, i, j);
        var x := xs[i * weights.Length + j];
        assert x == Elem(xs, weights.Length, i, j);
        hide Elem;
        delta := delta * x;
      }
    }

    /** A job's assignment to its own array. */
    method AddOwn(jobs: array<nat>, arrays: array<seq<real>>, i: nat, delta: real)
      requires i < jobs.Length == arrays.Length && jobs[i] < |arrays[i]|
      modifies jobs, arrays
      ensures jobs[..] == old(jobs[..])[i := old(jobs[i]) + 1]
      ensures arrays[..] == old(arrays[..])[i := old(arrays[i])[old(jobs[i]) := old(arrays[i])[old(jobs[i])] + delta]]
    {
      var j := jobs[i];
      arrays[i] := arrays[i][j := arrays[i][j] + delta];
      jobs[i] := j + 1;
    }

    /** The master adds the deltas a job has returned. */
    method AddReturned(deltas: array<real>, returned: seq<real>)
      requires |returned| == deltas.Length
      modifies deltas
      ensures forall j: nat :: j < deltas.Length ==> deltas[j] == old(deltas[j]) + returned[j]
    {
      for j := 0 to deltas.Length
        invariant forall k: nat :: k < j ==> deltas[k] == old(deltas[k]) + returned[k]
        invariant forall k: nat :: j <= k < deltas.Length ==> deltas[k] == old(deltas[k])
      {
        deltas[j] := deltas[j] + returned[j];
      }
    }

    /** lr_predict: the same predictions with a scheduler, in whatever order the jobs run, and without. */
    method Predict(xs: seq<real>, batchSz: nat, schedule: Option<seq<nat>>) returns (ps: array<real>)
      requires |xs| == batchSz * weights.Length
      requires schedule.Some? ==> Completes(schedule.value, batchSz, weights.Length + 1)
      ensures fresh(ps) && ps[..] == Predictions(weights[..], bias, sigmoid, xs, batchSz)
    {
      match schedule
      case None => ps := PredictLoop(xs, batchSz);
      case Some(s) => ps := PredictJobs(xs, batchSz, s);
    }

    /** lr_train: the same weights, bias and result with a scheduler, in whatever order the jobs run, and
        without. The weights and the bias move by the sums of the deltas; the result is the largest move of
        a weight, the bias left out. */
    method Train(xs: seq<real>, ys: seq<int>, predicting: Option<seq<nat>>, training: Option<seq<nat>>)
      returns (maxDelta: real)
      requires |xs| == |ys| * weights.Length
      requires predicting.Some? ==> Completes(predicting.value, |ys|, weights.Length + 1)
      requires training.Some? ==> Completes(training.value, |ys|, weights.Length + 1)
      modifies this`bias, weights
      ensures var ps := Predictions(old(weights[..]), old(bias), sigmoid, xs, |ys|);
        var d := DeltaSums(weights.Length, rate, xs, ys, ps, |ys|);
        && (forall j: nat :: j < weights.Length ==> weights[j] == old(weights[j]) - d[j])
        && bias == old(bias) - d[weights.Length]
        && maxDelta == MaxAbs(d, weights.Length)
      ensures StepsDown(old(weights[..]), old(bias), weights[..], bias, rate, xs, ys,
                        Predictions(old(weights[..]), old(bias), sigmoid, xs, |ys|))
    {
      ghost var w, b := weights[..], bias;
      hide StepsDown, Predictions, DeltaSums;
      var ps := Predict(xs, |ys|, predicting);
      ghost var p := ps[..];
      var deltas;
      match training {
        case None => deltas := DeltasLoop(xs, ys, ps);
        case Some(s) => deltas := DeltasJobs(xs, ys, ps, s);
      }
      maxDelta := UpdateWeights(deltas);
      TrainStepsDown(w, b, weights[..], bias, rate, xs, ys, p);
    }

    /** The last loop of lr_train. */
    method UpdateWeights(deltas: array<real>) returns (maxDelta: real)
      requires deltas.Length == weights.Length + 1 && deltas != weights
      modifies this`bias, weights
      ensures forall j: nat :: j < weights.Length ==> weights[j] == old(weights[j]) - deltas[j]
      ensures bias == old(bias) - deltas[weights.Length] && maxDelta == MaxAbs(deltas[..], weights.Length)
    {
      maxDelta := 0.0;
      for j := 0 to weights.Length
        invariant maxDelta == MaxAbs(deltas[..], j) && bias == old(bias)
        invariant forall k: nat :: k < j ==> weights[k] == old(weights[k]) - deltas[k]
        invariant forall k: nat :: j <= k < weights.Length ==> weights[k] == old(weights[k])
      {
        var x := if deltas[j] < 0.0 then -deltas[j] else deltas[j];
        if x > maxDelta {
          maxDelta := x;
        }
        weights[j] := weights[j] - deltas[j];
      }
      bias := bias - deltas[weights.Length];
    }
  }

  /** Completed predicting jobs have left the predictions of the loop in Ps, in whatever order they ran. */
  lemma PredictDone(sigmoid: real -> real, start: PredictMemory, schedule: seq<nat>, end: PredictMemory)
    requires |start.jobs| == |start.ps| && Completes(schedule, |start.ps|, |start.w| + 1)
    requires forall i: nat :: i < |start.jobs| ==> start.jobs[i] == PredictLocals(0, 0.0)
    requires end == Run(start, schedule, PredictJob(sigmoid)) && |end.ps| == |start.ps|
    ensures end.ps == Predictions(start.w, start.bias, sigmoid, start.xs, |start.ps|)
  {
    PredictJobsApart(sigmoid);
    forall i: nat | i < |end.ps| ensures end.ps[i] == Prediction(start.w, start.bias, sigmoid, start.xs, i) {
      AnyOrder(start, schedule, PredictJob(sigmoid), PredictSees(), i);
      PredictAlone(sigmoid, i, start, StepsOf(i, schedule));
      assert end.ps[i] == PredictSees()(i, end).p;
    }
  }

  /** Completed training jobs have left the deltas of their rows, in whatever order they ran. */
  lemma TrainDone(start: TrainMemory, schedule: seq<nat>, end: TrainMemory)
    requires |start.jobs| == |start.deltas| == |start.ys| == |start.ps| && Completes(schedule, |start.ys|, start.len + 1)
    requires forall i: nat :: i < |start.jobs| ==> start.jobs[i] == 0 && start.deltas[i] == seq(start.len + 1, _ => 0.0)
    requires end == Run(start, schedule, TrainJob()) && |end.deltas| == |start.deltas|
    ensures forall i: nat :: i < |end.deltas| ==> |end.deltas[i]| == start.len + 1
    ensures forall i: nat, j: nat :: i < |end.deltas| && j <= start.len ==>
      end.deltas[i][j] == Delta(start.len, start.rate, start.xs, start.ys[i], start.ps[i], i, j)
  {
    TrainJobsApart();
    forall i: nat | i < |end.deltas|
      ensures |end.deltas[i]| == start.len + 1
      ensures forall j: nat :: j <= start.len ==>
        end.deltas[i][j] == Delta(start.len, start.rate, start.xs, start.ys[i], start.ps[i], i, j)
    {
      AnyOrder(start, schedule, TrainJob(), TrainSees(), i);
      TrainAlone(i, start, StepsOf(i, schedule));
      assert end.deltas[i] == TrainSees()(i, end).deltas;
    }
  }
}
