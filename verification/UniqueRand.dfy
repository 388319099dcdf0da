/** src/unique_rand.c: values of a range drawn in any order without replacement. */
module UniqueRand {
  import opened Collections

  /** The values of a fresh or reset generator. */
  function Range(min: int, max: int): (r: seq<int>)
    requires max >= min
    ensures |r| == max - min + 1 && forall i: nat :: i < |r| ==> r[i] == min + i
  {
    seq(max - min + 1, i => min + i)
  }

  function Swap<T>(s: seq<T>, i: nat, j: nat): (r: seq<T>)
    requires i < |s| && j < |s|
    ensures |r| == |s| && multiset(r) == multiset(s)
  {
    s[i := s[j]][j := s[i]]
  }

  /** The values after one ur_get that drew the number `draw`: the chosen one goes behind the rest. */
  function Drawn(values: seq<int>, length: nat, draw: nat): (r: seq<int>)
    requires 0 < length <= |values|
    ensures |r| == |values|
  {
    Swap(values, draw % length, length - 1)
  }

  /** What successive ur_gets return, whatever the numbers drawn. */
  function Results(values: seq<int>, length: nat, draws: seq<nat>, none: int): (r: seq<int>)
    requires length <= |values|
    ensures |r| == |draws|
    decreases |draws|
  {
    if draws == [] then []
    else if length == 0 then [none] + Results(values, 0, draws[1..], none)
    else var v := Drawn(values, length, draws[0]); [v[length - 1]] + Results(v, length - 1, draws[1..], none)
  }

  lemma DrawnFront(values: seq<int>, length: nat, draw: nat)
    requires 0 < length <= |values|
    ensures var v := Drawn(values, length, draw);
      multiset{v[length - 1]} + multiset(v[..length - 1]) == multiset(values[..length])
  {
    var v := Drawn(values, length, draw);
    assert v[..length] == Swap(values[..length], draw % length, length - 1);
    assert v[..length] == v[..length - 1] + [v[length - 1]];
  }

  lemma Headed(x: int, rest: seq<int>, n: nat)
    requires 0 < n <= |rest| + 1
    ensures multiset(([x] + rest)[..n]) == multiset{x} + multiset(rest[..n - 1])
  {
    assert ([x] + rest)[..n] == [x] + rest[..n - 1];
  }

  /** The draws up to the end of the values return exactly the values left, the later ones `none`. */
  lemma {:induction false} ResultsPermute(values: seq<int>, length: nat, draws: seq<nat>, none: int)
    requires length <= |values| && length <= |draws|
    ensures multiset(Results(values, length, draws, none)[..length]) == multiset(values[..length])
    ensures forall k: nat :: length <= k < |draws| ==> Results(values, length, draws, none)[k] == none
    decreases |draws|
  {
    if length == 0 {
      assert Results(values, length, draws, none)[..0] == values[..0];
      if draws != [] { ResultsPermute(values, 0, draws[1..], none); }
    } else {
      var v := Drawn(values, length, draws[0]);
      DrawnFront(values, length, draws[0]);
      var rest := Results(v, length - 1, draws[1..], none);
      assert Results(values, length, draws, none) == [v[length - 1]] + rest;
      hide Drawn, Results;
      ResultsPermute(v, length - 1, draws[1..], none);
      Headed(v[length - 1], rest, length);
    }
  }

  lemma {:induction false} RangeMembers(min: int, max: int, s: seq<int>)
    requires max >= min && multiset(s) == multiset(Range(min, max))
    ensures Distinct(s) && |s| == max - min + 1 && forall v :: v in s <==> min <= v <= max
  {
    assert |multiset(s)| == |multiset(Range(min, max))|;
    forall v ensures v in s <==> min <= v <= max {
      assert v in multiset(s) <==> v in multiset(Range(min, max));
      if min <= v <= max { assert Range(min, max)[v - min] == v; }
    }
    forall i: nat, j: nat | i < j < |s| ensures s[i] != s[j] {
      if s[i] == s[j] {
        TwiceIn(s, i, j);
        RangeOnce(min, max, s[i]);
      }
    }
  }

  lemma TwiceIn(s: seq<int>, i: nat, j: nat)
    requires i < j < |s| && s[i] == s[j]
    ensures multiset(s)[s[i]] >= 2
  {
    assert s == s[..i] + [s[i]] + s[i + 1..j] + [s[j]] + s[j + 1..];
  }

  lemma {:induction false} RangeOnce(min: int, max: int, v: int)
    requires max >= min
    ensures multiset(Range(min, max))[v] <= 1
    decreases max - min
  {
    var r := Range(min, max);
    if max == min {
      assert r == [min];
    } else {
      RangeOnce(min, max - 1, v);
      assert r == Range(min, max - 1) + [max];
      assert max !in Range(min, max - 1);
    }
  }

  lemma HeadAndTail(t: seq<int>)
    requires t != []
    ensures multiset(t) == multiset{t[0]} + multiset(t[1..])
  {
    assert t == [t[0]] + t[1..];
  }

  lemma ModSmall(k: nat, n: nat)
    requires k < n
    ensures k % n == k
  {
  }

  lemma Cancel(x: int, a: multiset<int>, b: multiset<int>)
    requires multiset{x} + a == multiset{x} + b
    ensures a == b
  {
    assert a == (multiset{x} + a) - multiset{x} && b == (multiset{x} + b) - multiset{x};
  }

  lemma SameLength(s: seq<int>, t: seq<int>)
    requires multiset(s) == multiset(t)
    ensures |s| == |t|
  {
    assert |multiset(s)| == |multiset(t)|;
  }

  /** A draw that returns the first of t and leaves the others. */
  lemma DrawFirst(values: seq<int>, length: nat, t: seq<int>) returns (k: nat)
    requires 0 < length <= |values| && t != [] && multiset(t) == multiset(values[..length])
    ensures var v := Drawn(values, length, k);
      v[length - 1] == t[0] && multiset(t[1..]) == multiset(v[..length - 1])
  {
    var s := values[..length];
    assert t[0] in multiset(t) && t[0] in multiset(s);
    k :| k < length && s[k] == t[0];
    var v := Drawn(values, length, k);
    ModSmall(k, length);
    assert v[length - 1] == t[0];
    hide Drawn;
    DrawnFront(values, length, k);
    HeadAndTail(t);
    Cancel(t[0], multiset(t[1..]), multiset(v[..length - 1]));
  }

  /** Any order of the values left is what some draws return. */
  lemma {:induction false} EveryOrderDrawn(values: seq<int>, length: nat, t: seq<int>, none: int) returns (draws: seq<nat>)
    requires length <= |values| && multiset(t) == multiset(values[..length])
    ensures |draws| == |t| == length && Results(values, length, draws, none) == t
    decreases length
  {
    SameLength(t, values[..length]);
    draws := [];
    if length > 0 {
      var k := DrawFirst(values, length, t);
      hide Drawn;
      var rest := EveryOrderDrawn(Drawn(values, length, k), length - 1, t[1..], none);
      draws := [k] + rest;
      assert draws[1..] == rest;
    }
  }

  /** Between resets ur_get returns each value of min..max exactly once, and then min - 1 for ever. */
  lemma EachValueOnce(min: int, max: int, draws: seq<nat>)
    requires max > min && |draws| >= max - min + 1
    ensures var n := max - min + 1; var r := Results(Range(min, max), n, draws, min - 1);
      && Distinct(r[..n]) && (forall v :: v in r[..n] <==> min <= v <= max)
      && forall k: nat :: n <= k < |r| ==> r[k] == min - 1
  {
    var n := max - min + 1;
    hide Results, Distinct;
    ResultsPermute(Range(min, max), n, draws, min - 1);
    assert Range(min, max)[..n] == Range(min, max);
    RangeMembers(min, max, Results(Range(min, max), n, draws, min - 1)[..n]);
  }

  /** Every permutation of min..max is what ur_get returns for some draws. */
  lemma EveryPermutationDrawn(min: int, max: int, t: seq<int>) returns (draws: seq<nat>)
    requires max > min && multiset(t) == multiset(Range(min, max))
    ensures |draws| == max - min + 1 && Results(Range(min, max), max - min + 1, draws, min - 1) == t
  {
    var n := max - min + 1;
    assert Range(min, max)[..n] == Range(min, max);
    hide Results, Range;
    draws := EveryOrderDrawn(Range(min, max), n, t, min - 1);
  }

  /** As many draws as values return all of them. */
  lemma AllDrawn(values: seq<int>, draws: seq<nat>, none: int)
    requires |draws| == |values|
    ensures multiset(Results(values, |values|, draws, none)) == multiset(values)
  {
    ResultsPermute(values, |values|, draws, none);
    var r := Results(values, |values|, draws, none);
    hide Results;
    assert r[..|values|] == r && values[..|values|] == values;
  }

  class URand {
    const min: int
    const max: int
    const values: array<int>
    var length: nat

    ghost predicate Valid()
      reads this, values
    {
      max > min && values.Length == max - min + 1 && length <= values.Length
    }

    /** What the next calls of ur_get will return if these are the numbers drawn. */
    ghost function Next(draws: seq<nat>): seq<int>
      requires Valid()
      reads this, values
    {
      Results(values[..], length, draws, min - 1)
    }

    constructor (min: int, max: int)
      requires max > min
      ensures Valid() && fresh(values) && this.min == min && this.max == max
      ensures length == values.Length && values[..] == Range(min, max)
    {
      this.min, this.max := min, max;
      length := max - min + 1;
      values := new int[max - min + 1];
      new;
      Fill();
    }

    /** The loop of ur_create and ur_reset. */
    method Fill()
      requires Valid()
      modifies values
      ensures values[..] == Range(min, max)
    {
      for i := 0 to values.Length
        invariant forall k: nat :: k < i ==> values[k] == min + k
      {
        values[i] := i + min;
      }
    }

    method Reset()
      requires Valid()
      modifies this, values
      ensures Valid() && length == values.Length && values[..] == Range(min, max)
    {
      length := max - min + 1;
      Fill();
    }

    /** ur_get. `draw` is the number rand_r returns. */
    method Get(draw: nat) returns (r: int)
      requires Valid()
      modifies this, values
      ensures Valid() && length == if old(length) > 0 then old(length) - 1 else 0
      ensures forall draws: seq<nat> :: old(Next([draw] + draws)) == [r] + Next(draws)
    {
      ghost var before, n := values[..], length;
      if length > 0 {
        var i := draw % length;
        length := length - 1;
        values[i], values[length] := values[length], values[i];
        r := values[length];
        assert values[..] == Drawn(before, n, draw);
      } else {
        r := min - 1;
      }
      forall draws: seq<nat> ensures Results(before, n, [draw] + draws, min - 1) == [r] + Next(draws) {
        assert ([draw] + draws)[1..] == draws;
      }
    }
  }
}
