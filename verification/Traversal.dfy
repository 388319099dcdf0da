/** The order in which htab_iterate_r visits the occupied buckets (src/hash.c:164-178). */
module Traversal {
  import opened Collections
  import opened Wrappers
  import opened ProbeTable

  /** The occupied buckets from index i on, in the order they are visited. */
  function Visits<K, V>(b: seq<Bucket<K, V>>, i: nat := 0): seq<nat>
    decreases |b| - i
  {
    if i >= |b| then [] else if b[i].Occupied? then [i] + Visits(b, i + 1) else Visits(b, i + 1)
  }

  lemma {:induction false} VisitsExactly<K, V>(b: seq<Bucket<K, V>>, i: nat)
    ensures forall s: nat :: s in Visits(b, i) <==> i <= s < |b| && b[s].Occupied?
    ensures forall m: nat, n: nat :: m < n < |Visits(b, i)| ==> Visits(b, i)[m] < Visits(b, i)[n]
    decreases |b| - i
  {
    if i < |b| {
      VisitsExactly(b, i + 1);
      if b[i].Occupied? {
        var rest := Visits(b, i + 1);
        assert forall n: nat :: n < |rest| ==> rest[n] in rest;
      }
    }
  }

  /** Burying or rewriting a bucket before i does not change what is still to be visited. */
  lemma {:induction false} VisitsAhead<K, V>(b: seq<Bucket<K, V>>, b': seq<Bucket<K, V>>, i: nat)
    requires |b'| == |b| && forall s: nat :: i <= s < |b| ==> b'[s].Occupied? == b[s].Occupied?
    ensures Visits(b', i) == Visits(b, i)
    decreases |b| - i
  {
    if i < |b| {
      VisitsAhead(b, b', i + 1);
    }
  }

  /** A full traversal visits as many buckets as the table has entries: buf_load. */
  lemma {:induction false} VisitsCount<K(!new), V>(b: seq<Bucket<K, V>>, i: nat)
    requires i <= |b| && UniqueKeys(b[i..])
    ensures |Visits(b, i)| == |Abs(b[i..])|
    decreases |b| - i
  {
    if i == |b| {
      assert Abs(b[i..]) == map[] by {
        assert forall s: nat, k :: !Holds(b[i..], s, k);
      }
    } else {
      AbsSuffix(b, i);
      VisitsCount(b, i + 1);
    }
  }

  lemma AbsSuffix<K(!new), V>(b: seq<Bucket<K, V>>, i: nat)
    requires i < |b| && UniqueKeys(b[i..])
    ensures UniqueKeys(b[i + 1..])
    ensures b[i].Occupied? ==> b[i].key !in Abs(b[i + 1..]) && Abs(b[i..]) == Abs(b[i + 1..])[b[i].key := b[i].val]
    ensures !b[i].Occupied? ==> Abs(b[i..]) == Abs(b[i + 1..])
  {
    assert b[i..][1..] == b[i + 1..];
    AbsCons(b[i..]);
  }

  /** The map of a non-empty sequence of buckets is that of its first bucket and the rest. */
  lemma AbsCons<K(!new), V>(c: seq<Bucket<K, V>>)
    requires UniqueKeys(c) && c != []
    ensures UniqueKeys(c[1..])
    ensures c[0].Occupied? ==> c[0].key !in Abs(c[1..]) && Abs(c) == Abs(c[1..])[c[0].key := c[0].val]
    ensures !c[0].Occupied? ==> Abs(c) == Abs(c[1..])
  {
    var d := c[1..];
    TailUnique(c);
    forall k | k in Abs(d) ensures k in Abs(c) && Abs(c)[k] == Abs(d)[k] && (c[0].Occupied? ==> k != c[0].key) {
      var s: nat :| Holds(d, s, k);
      assert d[s] == c[s + 1] && Holds(c, s + 1, k);
      assert Abs(c)[c[s + 1].key] == c[s + 1].val && Abs(d)[d[s].key] == d[s].val;
    }
    forall k | k in Abs(c) ensures k in Abs(d) || (c[0].Occupied? && c[0].key == k && Abs(c)[k] == c[0].val) {
      var s: nat :| Holds(c, s, k);
      if s > 0 { assert c[s] == d[s - 1] && Holds(d, s - 1, k); }
    }
    if c[0].Occupied? { assert Holds(c, 0, c[0].key); }
  }

  lemma TailUnique<K(!new), V>(c: seq<Bucket<K, V>>)
    requires UniqueKeys(c) && c != []
    ensures UniqueKeys(c[1..])
  {
    var d := c[1..];
    forall s: nat, t: nat | s < |d| && t < |d| && d[s].Occupied? && d[t].Occupied? && d[s].key == d[t].key ensures s == t {
      assert c[s + 1] == d[s] && c[t + 1] == d[t];
    }
  }

  /** What htab_iterate_r has answered from bucket n on. */
  ghost predicate Pending<K, V>(b: seq<Bucket<K, V>>, n: nat, entry: Option<nat>, state: nat) {
    Visits(b, n) == if entry.Some? then [entry.value] + Visits(b, state) else []
  }

  lemma PendingSkips<K, V>(b: seq<Bucket<K, V>>, n: nat, entry: Option<nat>, state: nat)
    requires Pending(b, n, entry, state)
    ensures entry.Some? ==> n <= entry.value < |b| && b[entry.value].Occupied?
    ensures forall t: nat :: n <= t < |b| && (entry.Some? ==> t < entry.value) ==> !b[t].Occupied?
  {
    VisitsExactly(b, n);
    if entry.Some? { assert entry.value in Visits(b, n); }
    forall t: nat | n <= t < |b| && b[t].Occupied? ensures entry.Some? && entry.value <= t { FirstVisit(b, n, t); }
  }

  lemma FirstVisit<K, V>(b: seq<Bucket<K, V>>, n: nat, t: nat)
    requires n <= t < |b| && b[t].Occupied?
    ensures Visits(b, n) != [] && Visits(b, n)[0] <= t
  {
    VisitsExactly(b, n);
    var v := Visits(b, n);
    assert t in v;
    var j: nat :| j < |v| && v[j] == t;
    assert j > 0 ==> v[0] < v[j];
  }

  /** The keys a traversal hands out, in order. */
  ghost function KeysVisited<K, V>(b: seq<Bucket<K, V>>, i: nat := 0): (keys: seq<K>)
    ensures |keys| == |Visits(b, i)|
    decreases |b| - i
  {
    if i >= |b| then [] else if b[i].Occupied? then [b[i].key] + KeysVisited(b, i + 1) else KeysVisited(b, i + 1)
  }

  lemma {:induction false} PendingKeys<K, V>(b: seq<Bucket<K, V>>, n: nat, entry: Option<nat>, state: nat)
    requires Pending(b, n, entry, state) && (entry.Some? ==> state == entry.value + 1)
    ensures entry.Some? ==> entry.value < |b| && b[entry.value].Occupied?
    ensures KeysVisited(b, n) == if entry.Some? then [b[entry.value].key] + KeysVisited(b, state) else []
    decreases |b| - n
  {
    PendingSkips(b, n, entry, state);
    if n < |b| {
      if b[n].Occupied? {
        assert Visits(b, n)[0] == n;
      } else {
        PendingKeys(b, n + 1, entry, state);
      }
    }
  }

  /** Each stored key exactly once. */
  lemma {:induction false} KeysOnce<K(!new), V>(b: seq<Bucket<K, V>>, i: nat)
    requires i <= |b| && UniqueKeys(b[i..])
    ensures Distinct(KeysVisited(b, i)) && forall k :: k in KeysVisited(b, i) <==> k in Abs(b[i..])
    decreases |b| - i
  {
    if i == |b| {
      assert forall s: nat, k :: !Holds(b[i..], s, k);
    } else {
      AbsSuffix(b, i);
      KeysOnce(b, i + 1);
    }
  }
}
