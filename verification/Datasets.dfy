/** merge_set and shuffle_dataset of src/main.c: arrays filled in the order of a unique random draw. */
module Datasets {
  import opened Collections
  import opened UniqueRand

  /** order is a permutation of the indices below n. */
  ghost predicate IsOrder(order: seq<int>, n: nat) {
    && |order| == n && Distinct(order) && forall v :: v in order <==> 0 <= v < n
  }

  /** The elements of s in the given order. */
  function Gathered<T>(s: seq<T>, order: seq<int>): (r: seq<T>)
    requires forall k: nat :: k < |order| ==> 0 <= order[k] < |s|
    ensures |r| == |order|
  {
    seq(|order|, k requires 0 <= k < |order| => s[order[k]])
  }

  /** The order without its largest index, n - 1, which stands at k. */
  lemma WithoutLast(order: seq<int>, n: nat) returns (k: nat, rest: seq<int>)
    requires n > 0 && IsOrder(order, n)
    ensures k < n && order[k] == n - 1 && rest == order[..k] + order[k + 1..] && IsOrder(rest, n - 1)
  {
    assert n - 1 in order;
    k :| k < n && order[k] == n - 1;
    rest := order[..k] + order[k + 1..];
    assert order == order[..k] + [order[k]] + order[k + 1..];
    forall v ensures v in rest <==> 0 <= v < n - 1 {
      assert v in order <==> v in rest || v == n - 1;
    }
  }

  /** One element put into a sequence at k. */
  lemma Inserted<T>(g: seq<T>, h: seq<T>, k: nat)
    requires k < |g| && h == g[..k] + g[k + 1..]
    ensures multiset(g) == multiset(h) + multiset{g[k]}
  {
    assert g == g[..k] + [g[k]] + g[k + 1..];
  }

  lemma LastOff<T>(s: seq<T>)
    requires s != []
    ensures multiset(s) == multiset(s[..|s| - 1]) + multiset{s[|s| - 1]}
  {
    assert s == s[..|s| - 1] + [s[|s| - 1]];
  }

  /** What the shorter order reads off the shorter sequence. */
  lemma GatheredWithout<T>(s: seq<T>, order: seq<int>, k: nat, rest: seq<int>)
    requires s != [] && k < |order| && rest == order[..k] + order[k + 1..]
    requires forall i: nat :: i < |order| ==> 0 <= order[i] < |s|
    requires forall i: nat :: i < |rest| ==> 0 <= rest[i] < |s| - 1
    ensures var g := Gathered(s, order);
      Gathered(s[..|s| - 1], rest) == g[..k] + g[k + 1..]
  {
    var g, h := Gathered(s, order), Gathered(s[..|s| - 1], rest);
    forall i: nat | i < |h| ensures h[i] == (g[..k] + g[k + 1..])[i] {
      assert rest[i] == if i < k then order[i] else order[i + 1];
    }
  }

  lemma OrderBounds(order: seq<int>, n: nat)
    requires IsOrder(order, n)
    ensures |order| == n && forall k: nat :: k < |order| ==> 0 <= order[k] < n
  {
    assert forall k: nat :: k < |order| ==> order[k] in order;
  }

  lemma GatheredStep<T>(s: seq<T>, order: seq<int>, k: nat, rest: seq<int>)
    requires s != [] && k < |order| && rest == order[..k] + order[k + 1..] && order[k] == |s| - 1
    requires forall i: nat :: i < |order| ==> 0 <= order[i] < |s|
    requires forall i: nat :: i < |rest| ==> 0 <= rest[i] < |s| - 1
    requires multiset(Gathered(s[..|s| - 1], rest)) == multiset(s[..|s| - 1])
    ensures multiset(Gathered(s, order)) == multiset(s)
  {
    GatheredWithout(s, order, k, rest);
    GatheredAt(s, order, k);
    hide Gathered;
    Inserted(Gathered(s, order), Gathered(s[..|s| - 1], rest), k);
    LastOff(s);
  }

  /** An order of all indices only moves the elements. */
  lemma {:induction false} GatheredPermutes<T>(s: seq<T>, order: seq<int>)
    requires IsOrder(order, |s|)
    ensures (forall k: nat :: k < |order| ==> 0 <= order[k] < |s|) && multiset(Gathered(s, order)) == multiset(s)
  {
    OrderBounds(order, |s|);
    if s == [] {
      assert Gathered(s, order) == s;
    } else {
      var k, rest := WithoutLast(order, |s|);
      OrderBounds(rest, |s| - 1);
      hide IsOrder, Gathered;
      GatheredPermutes(s[..|s| - 1], rest);
      GatheredStep(s, order, k, rest);
    }
  }

  lemma GatheredAt<T>(s: seq<T>, order: seq<int>, k: nat)
    requires k < |order| && forall i: nat :: i < |order| ==> 0 <= order[i] < |s|
    ensures Gathered(s, order)[k] == s[order[k]]
  {
  }

  /** What ur_get returns over a whole range is such an order. */
  lemma DrawsAreOrder(n: nat, draws: seq<nat>)
    requires n >= 2 && |draws| == n
    ensures IsOrder(Results(Range(0, n - 1), n, draws, -1), n)
  {
    hide Results, Range, Distinct;
    AllDrawn(Range(0, n - 1), draws, -1);
    RangeMembers(0, n - 1, Results(Range(0, n - 1), n, draws, -1));
  }

  /** The part of an array filled so far, when r[i] took source[i] for every i below k. */
  ghost predicate FilledUpTo<T>(out: seq<T>, source: seq<T>, r: seq<int>, k: nat)
    requires k <= |r| && k <= |source|
  {
    forall i: nat :: i < k ==> 0 <= r[i] < |out| && out[r[i]] == source[i]
  }

  /** When every slot has been filled once, the array holds exactly the source. */
  lemma FilledPermutes<T>(out: seq<T>, source: seq<T>, r: seq<int>)
    requires |out| == |source| && IsOrder(r, |out|) && FilledUpTo(out, source, r, |r|)
    ensures multiset(out) == multiset(source)
  {
    GatheredPermutes(out, r);
    assert Gathered(out, r) == source;
  }

  lemma FillOne<T>(out: seq<T>, source: seq<T>, r: seq<int>, k: nat)
    requires |out| == |source| && IsOrder(r, |out|) && k < |r| && FilledUpTo(out, source, r, k)
    ensures 0 <= r[k] < |out| && FilledUpTo(out[r[k] := source[k]], source, r, k + 1)
  {
    assert r[k] in r;
  }

  /** r lists what ur returns for these draws, from the i-th on. */
  ghost predicate Ahead(ur: URand, draws: seq<nat>, r: seq<int>, i: nat)
    requires ur.Valid()
    reads ur, ur.values
  {
    |r| == |draws| && i <= |r| && r[i..] == ur.Next(draws[i..])
  }

  method Draw(ur: URand, draws: seq<nat>, i: nat, ghost r: seq<int>) returns (x: int)
    requires ur.Valid() && i < |draws| && Ahead(ur, draws, r, i)
    modifies ur, ur.values
    ensures ur.Valid() && x == r[i] && Ahead(ur, draws, r, i + 1)
  {
    assert draws[i..] == [draws[i]] + draws[i + 1..];
    x := ur.Get(draws[i]);
    assert x == r[i..][0] && r[i..][1..] == r[i + 1..];
  }

  method Start(n: nat, draws: seq<nat>) returns (ur: URand, ghost r: seq<int>)
    requires n >= 2 && |draws| == n
    ensures fresh(ur) && fresh(ur.values) && ur.Valid() && Ahead(ur, draws, r, 0)
    ensures r == Results(Range(0, n - 1), n, draws, -1) && IsOrder(r, n)
  {
    hide Results, Range, IsOrder;
    DrawsAreOrder(n, draws);
    ur := new URand(0, n - 1);
    r := ur.Next(draws);
    WholeTail(draws);
    WholeTail(r);
  }

  lemma WholeTail<T>(s: seq<T>)
    ensures s[0..] == s
  {
  }

  /** The pairs merge_set takes, in the order it takes them. */
  function Source<T>(setSz: nat, similarSz: nat, similar: seq<T>, different: seq<T>): (r: seq<T>)
    requires if similarSz <= setSz then similarSz <= |similar| && setSz - similarSz <= |different| else setSz <= |similar|
    ensures |r| == setSz
  {
    if similarSz <= setSz then similar[..similarSz] + different[..setSz - similarSz] else similar[..setSz]
  }

  /** merge_set: every slot of the set is filled exactly once, so it is a permutation of the similar pairs
      and the different pairs that fill it up. The size is at least 2, as ur_create asserts. */
  method MergeSet<T>(set_: array<T>, similarSz: nat, similar: seq<T>, different: seq<T>, draws: seq<nat>)
    requires set_.Length >= 2 && |draws| == set_.Length
    requires if similarSz <= set_.Length then similarSz <= |similar| && set_.Length - similarSz <= |different|
             else set_.Length <= |similar|
    modifies set_
    ensures multiset(set_[..]) == multiset(Source(set_.Length, similarSz, similar, different))
    ensures FilledUpTo(set_[..], Source(set_.Length, similarSz, similar, different),
                       Results(Range(0, set_.Length - 1), set_.Length, draws, -1), set_.Length)
  {
    var n := set_.Length;
    ghost var source := Source(n, similarSz, similar, different);
    ghost var r;
    var ur;
    ur, r := Start(n, draws);
    assert FilledUpTo(set_[..], source, r, 0);
    hide Results, Range, IsOrder, Ahead, Source, FilledUpTo;
    for i := 0 to n
      invariant ur.Valid() && fresh(ur) && fresh(ur.values) && Ahead(ur, draws, r, i)
      invariant FilledUpTo(set_[..], source, r, i)
    {
      FillOne(set_[..], source, r, i);
      SourceAt(n, similarSz, similar, different, i);
      var x := Draw(ur, draws, i, r);
      set_[x] := if i < similarSz then similar[i] else different[i - similarSz];
    }
    FilledPermutes(set_[..], source, r);
  }

  lemma SourceAt<T>(setSz: nat, similarSz: nat, similar: seq<T>, different: seq<T>, i: nat)
    requires if similarSz <= setSz then similarSz <= |similar| && setSz - similarSz <= |different| else setSz <= |similar|
    requires i < setSz
    ensures Source(setSz, similarSz, similar, different)[i] == if i < similarSz then similar[i] else different[i - similarSz]
  {
  }

  /** out lists the elements of s in the given order. */
  ghost predicate InOrder<T>(s: seq<T>, order: seq<int>, out: seq<T>) {
    |out| == |order| && forall k: nat :: k < |order| ==> 0 <= order[k] < |s| && out[k] == s[order[k]]
  }

  lemma Target<T>(s: seq<T>, r: seq<int>) returns (target: seq<T>)
    requires IsOrder(r, |s|)
    ensures InOrder(s, r, target) && multiset(target) == multiset(s) && |target| == |s| == |r|
  {
    GatheredPermutes(s, r);
    target := Gathered(s, r);
  }

  lemma InOrderAt<T>(s: seq<T>, r: seq<int>, target: seq<T>, k: nat)
    requires InOrder(s, r, target) && k < |target|
    ensures 0 <= r[k] < |s| && target[k] == s[r[k]]
  {
  }

  ghost predicate Agree<T>(out: seq<T>, target: seq<T>, i: nat) {
    |out| == |target| && forall k: nat :: k < i && k < |out| ==> out[k] == target[k]
  }

  lemma AgreeOne<T>(out: seq<T>, target: seq<T>, i: nat)
    requires Agree(out, target, i) && i < |target|
    ensures i < |out| && Agree(out[i := target[i]], target, i + 1)
  {
  }

  lemma AgreeAll<T>(out: seq<T>, target: seq<T>)
    requires Agree(out, target, |target|)
    ensures out == target
  {
  }

  /** shuffle_dataset returns the pairs in the drawn order. */
  method ShuffleDataset<T(0)>(pairs: seq<T>, draws: seq<nat>) returns (shuffled: array<T>)
    requires |pairs| >= 2 && |draws| == |pairs|
    ensures fresh(shuffled) && multiset(shuffled[..]) == multiset(pairs)
    ensures InOrder(pairs, Results(Range(0, |pairs| - 1), |pairs|, draws, -1), shuffled[..])
  {
    var n := |pairs|;
    shuffled := new T[n];
    ghost var r;
    var ur;
    ur, r := Start(n, draws);
    ghost var target := Target(pairs, r);
    assert Agree(shuffled[..], target, 0);
    hide *;
    for i := 0 to n
      invariant ur.Valid() && fresh(ur) && fresh(ur.values) && ur.values != shuffled && Ahead(ur, draws, r, i)
      invariant Agree(shuffled[..], target, i)
    {
      InOrderAt(pairs, r, target, i);
      AgreeOne(shuffled[..], target, i);
      var x := Draw(ur, draws, i, r);
      shuffled[i] := pairs[x];
    }
    AgreeAll(shuffled[..], target);
  }
}
