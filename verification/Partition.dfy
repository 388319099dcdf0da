/** The forest of src/spec_to_specs.c is exactly the smallest equivalence its merges generate. */
module Partition {
  import opened SpecForest

  type Pairs = set<(Id, Id)>

  predicate Linked(e: Pairs, x: Id, y: Id) { (x, y) in e || (y, x) in e }

  predicate IsPath(e: Pairs, w: seq<Id>, x: Id, y: Id) {
    w != [] && w[0] == x && w[|w| - 1] == y && forall i: nat :: i < |w| - 1 ==> Linked(e, w[i], w[i + 1])
  }

  /** x and y are related by the smallest equivalence containing the pairs. */
  ghost predicate Connected(e: Pairs, x: Id, y: Id) {
    exists w :: IsPath(e, w, x, y)
  }

  lemma ConnectedReflexive(e: Pairs, x: Id)
    ensures Connected(e, x, x)
  {
    assert IsPath(e, [x], x, x);
  }

  lemma ConnectedSymmetric(e: Pairs, x: Id, y: Id)
    requires Connected(e, x, y)
    ensures Connected(e, y, x)
  {
    var w :| IsPath(e, w, x, y);
    var v := seq(|w|, i requires 0 <= i < |w| => w[|w| - 1 - i]);
    forall i: nat | i < |v| - 1 ensures Linked(e, v[i], v[i + 1]) {
      assert Linked(e, w[|w| - 2 - i], w[|w| - 2 - i + 1]);
    }
    assert IsPath(e, v, y, x);
  }

  lemma ConnectedTransitive(e: Pairs, x: Id, y: Id, z: Id)
    requires Connected(e, x, y) && Connected(e, y, z)
    ensures Connected(e, x, z)
  {
    var v :| IsPath(e, v, x, y);
    var w :| IsPath(e, w, y, z);
    var u := v + w[1..];
    forall i: nat | i < |u| - 1 ensures Linked(e, u[i], u[i + 1]) {
      if i >= |v| - 1 { assert Linked(e, w[i - (|v| - 1)], w[i - (|v| - 1) + 1]); }
    }
    assert IsPath(e, u, x, z);
  }

  lemma ConnectedContains(e: Pairs, x: Id, y: Id)
    requires (x, y) in e
    ensures Connected(e, x, y)
  {
    assert IsPath(e, [x, y], x, y);
  }

  /** It is the smallest: any equivalence on a set of ids that contains the pairs contains it there. */
  lemma {:induction false} ConnectedLeast(e: Pairs, dom: set<Id>, r: (Id, Id) -> bool, w: seq<Id>, x: Id, y: Id)
    requires forall a, b :: (a, b) in e ==> a in dom && b in dom && r(a, b)
    requires forall a :: a in dom ==> r(a, a)
    requires forall a, b :: a in dom && b in dom && r(a, b) ==> r(b, a)
    requires forall a, b, c :: a in dom && b in dom && c in dom && r(a, b) && r(b, c) ==> r(a, c)
    requires IsPath(e, w, x, y) && x in dom
    ensures y in dom && r(x, y)
    decreases |w|
  {
    if |w| > 1 {
      assert Linked(e, w[0], w[1]);
      forall i: nat | i < |w[1..]| - 1 ensures Linked(e, w[1..][i], w[1..][i + 1]) {
        assert Linked(e, w[i + 1], w[i + 1 + 1]);
      }
      ConnectedLeast(e, dom, r, w[1..], w[1], y);
    }
  }

  lemma ConnectedGrows(e: Pairs, p: (Id, Id), x: Id, y: Id)
    requires Connected(e, x, y)
    ensures Connected(e + {p}, x, y)
  {
    var w :| IsPath(e, w, x, y);
    assert IsPath(e + {p}, w, x, y);
  }

  // ---------- exactness ----------

  ghost predicate Same(f: Forest, x: Id, y: Id)
    requires Climbs(f)
  {
    x in f.parent && y in f.parent && RootOf(f, x) == RootOf(f, y)
  }

  /** Pairs of one class are connected by the merges, and the merged pairs are of one class. */
  ghost predicate Explained(f: Forest, e: Pairs)
    requires Climbs(f)
  {
    && (forall a, b :: (a, b) in e ==> Same(f, a, b))
    && (forall x, y :: Same(f, x, y) ==> Connected(e, x, y))
  }

  /** Then two ids have one representative exactly when the merges connect them. */
  lemma ExplainedExact(f: Forest, e: Pairs, x: Id, y: Id)
    requires Climbs(f) && Explained(f, e) && x in f.parent && y in f.parent
    ensures RootOf(f, x) == RootOf(f, y) <==> Connected(e, x, y)
  {
    if Connected(e, x, y) {
      var w :| IsPath(e, w, x, y);
      ConnectedLeast(e, f.parent.Keys, (a, b) => Climbs(f) && Same(f, a, b), w, x, y);
    } else {
      assert !Same(f, x, y);
    }
  }

  lemma AddExplained(f: Forest, e: Pairs, x: Id)
    requires Inv(f) && Explained(f, e) && x !in f.parent
    ensures Inv(Add(f, x)) && Explained(Add(f, x), e)
  {
    AddInv(f, x);
    var g := Add(f, x);
    forall a, b | Same(g, a, b) ensures Connected(e, a, b) {
      if a == x || b == x { ConnectedReflexive(e, x); } else { assert Same(f, a, b); }
    }
    forall a, b | (a, b) in e ensures Same(g, a, b) { assert Same(f, a, b); }
  }

  lemma MergeExplained(f: Forest, e: Pairs, a: Id, b: Id)
    requires Inv(f) && Explained(f, e) && a in f.parent && b in f.parent
    ensures Inv(Merge(f, a, b)) && Explained(Merge(f, a, b), e + {(a, b)})
  {
    MergeInv(f, a, b);
    var g := Merge(f, a, b);
    forall x, y | Same(g, x, y) ensures Connected(e + {(a, b)}, x, y) {
      MergeJoins(f, a, b, x, y);
      ViaMerge(f, e, a, b, x, y);
    }
    forall x, y | (x, y) in e + {(a, b)} ensures Same(g, x, y) {
      assert (x, y) != (a, b) ==> Same(f, x, y);
      MergeJoins(f, a, b, x, y);
    }
  }

  lemma ViaMerge(f: Forest, e: Pairs, a: Id, b: Id, x: Id, y: Id)
    requires Climbs(f) && Explained(f, e) && a in f.parent && b in f.parent && x in f.parent && y in f.parent
    requires SameAfter(f, RootOf(f, a), RootOf(f, b), x, y)
    ensures Connected(e + {(a, b)}, x, y)
  {
    var e' := e + {(a, b)};
    if RootOf(f, x) == RootOf(f, y) {
      assert Same(f, x, y);
      ConnectedGrows(e, (a, b), x, y);
    } else {
      ConnectedContains(e', a, b);
      var c, d := if RootOf(f, x) == RootOf(f, a) then a else b, if RootOf(f, x) == RootOf(f, a) then b else a;
      if c == b { ConnectedSymmetric(e', a, b); }
      assert Same(f, x, c) && Same(f, d, y);
      ConnectedGrows(e, (a, b), x, c);
      ConnectedGrows(e, (a, b), d, y);
      ConnectedTransitive(e', x, c, d);
      ConnectedTransitive(e', x, d, y);
    }
  }

  lemma SplitExplained(f: Forest, e: Pairs, x: Id)
    requires Inv(f) && Explained(f, e) && x in f.parent
    ensures Inv(Split(f, x)) && Explained(Split(f, x), e)
  {
    SplitInv(f, x);
    SplitKeeps(f, x);
    assert forall a, b :: Same(Split(f, x), a, b) <==> Same(f, a, b);
  }

  // ---------- runs ----------

  datatype Op = AddId(id: Id) | MergeIds(id1: Id, id2: Id) | Find(id: Id)

  ghost predicate Enabled(f: Forest, op: Op) {
    match op
    case AddId(x) => x !in f.parent
    case MergeIds(a, b) => a in f.parent && b in f.parent
    case Find(x) => x in f.parent
  }

  ghost function Perform(f: Forest, op: Op): Forest
    requires Climbs(f) && Enabled(f, op)
  {
    match op
    case AddId(x) => Add(f, x)
    case MergeIds(a, b) => Merge(f, a, b)
    case Find(x) => Split(f, x)
  }

  function Merged(ops: seq<Op>): Pairs {
    set i: nat | i < |ops| && ops[i].MergeIds? :: (ops[i].id1, ops[i].id2)
  }

  const EMPTY := Forest(map[], map[], map[], map[], 0)

  /** fs are the forests before, between and after the operations. */
  ghost predicate Run(fs: seq<Forest>, ops: seq<Op>) {
    && |fs| == |ops| + 1 && fs[0] == EMPTY
    && forall i: nat :: i < |ops| ==>
         StepsTo(fs[i], ops[i], fs[i + 1])
  }

  ghost predicate StepsTo(f: Forest, op: Op, g: Forest) {
    Climbs(f) ==> Enabled(f, op) && g == Perform(f, op)
  }

  lemma {:induction false} RunExplained(fs: seq<Forest>, ops: seq<Op>)
    requires Run(fs, ops)
    ensures Inv(fs[|ops|]) && Explained(fs[|ops|], Merged(ops))
  {
    if ops == [] {
    } else {
      var n := |ops| - 1;
      forall i: nat | i < n ensures StepsTo(fs[..|ops|][i], ops[..n][i], fs[..|ops|][i + 1]) {
        assert StepsTo(fs[i], ops[i], fs[i + 1]);
      }
      RunExplained(fs[..|ops|], ops[..n]);
      var f, e := fs[n], Merged(ops[..n]);
      assert f == fs[..|ops|][n] && StepsTo(f, ops[n], fs[n + 1]);
      StepExplained(f, e, ops[n]);
      assert Merged(ops) == e + Pair(ops[n]);
    }
  }

  function Pair(op: Op): Pairs { if op.MergeIds? then {(op.id1, op.id2)} else {} }

  lemma StepExplained(f: Forest, e: Pairs, op: Op)
    requires Inv(f) && Explained(f, e) && Enabled(f, op)
    ensures Inv(Perform(f, op)) && Explained(Perform(f, op), e + Pair(op))
  {
    match op
    case AddId(x) => AddExplained(f, e, x); assert e + {} == e;
    case MergeIds(a, b) => MergeExplained(f, e, a, b);
    case Find(x) => SplitExplained(f, e, x); assert e + {} == e;
  }

  /** After any adds, merges and searches: two ids have one representative exactly when the smallest
      equivalence containing the merged pairs relates them; the chain above an id is logarithmic in its
      clique; and the list of its representative is its class. */
  lemma RunIsExact(fs: seq<Forest>, ops: seq<Op>, x: Id, y: Id)
    requires Run(fs, ops) && x in fs[|ops|].parent && y in fs[|ops|].parent
    ensures Inv(fs[|ops|])
    ensures RootOf(fs[|ops|], x) == RootOf(fs[|ops|], y) <==> Connected(Merged(ops), x, y)
    ensures y in fs[|ops|].clique[RootOf(fs[|ops|], x)] <==> Connected(Merged(ops), x, y)
    ensures Pow2(Depth(fs[|ops|], x)) <= |fs[|ops|].clique[RootOf(fs[|ops|], x)]|
  {
    RunExplained(fs, ops);
    var f := fs[|ops|];
    ExplainedExact(f, Merged(ops), x, y);
    LogarithmicChains(f, x);
    assert ListAt(f, RootOf(f, x));
    assert y in f.clique[RootOf(f, x)] <==> InClass(f, y, RootOf(f, x));
  }
}
