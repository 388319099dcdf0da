/** What the merge sort of src/lists.c computes, on sequences, and what a stable sort is. */
module StableSort {
  import opened Collections

  type Cmp<!T> = (T, T) -> int

  /** x may stand before y. */
  predicate Le<T>(c: Cmp<T>, x: T, y: T) { c(y, x) >= 0 }

  predicate Tied<T>(c: Cmp<T>, x: T, y: T) { Le(c, x, y) && Le(c, y, x) }

  /** The comparator orders these elements as a total preorder. */
  ghost predicate Orders<T>(c: Cmp<T>, s: seq<T>) {
    && (forall x, y :: x in s && y in s ==> Le(c, x, y) || Le(c, y, x))
    && (forall x, y, z :: x in s && y in s && z in s && Le(c, x, y) && Le(c, y, z) ==> Le(c, x, z))
  }

  ghost predicate Sorted<T>(c: Cmp<T>, s: seq<T>) {
    forall i: nat, j: nat :: i < j < |s| ==> Le(c, s[i], s[j])
  }

  /** The elements tied with x, in their order. */
  function TiedWith<T>(c: Cmp<T>, s: seq<T>, x: T): seq<T> {
    if s == [] then [] else (if Tied(c, s[0], x) then [s[0]] else []) + TiedWith(c, s[1..], x)
  }

  /** r holds the elements of s, sorted, and those that tie are in the order s has them in. */
  ghost predicate IsStableSort<T>(c: Cmp<T>, s: seq<T>, r: seq<T>) {
    && multiset(r) == multiset(s) && Sorted(c, r)
    && forall x :: x in s ==> TiedWith(c, r, x) == TiedWith(c, s, x)
  }

  function Reverse<T>(s: seq<T>): (r: seq<T>)
    ensures |r| == |s| && forall i: nat :: i < |s| ==> r[i] == s[|s| - 1 - i]
  {
    if s == [] then [] else Reverse(s[1..]) + [s[0]]
  }

  /** ll_sort_merge: a tie goes to the second list. */
  function Merge<T>(c: Cmp<T>, a: seq<T>, b: seq<T>): (r: seq<T>)
    ensures multiset(r) == multiset(a) + multiset(b) && |r| == |a| + |b|
    decreases |a| + |b|
  {
    if b == [] then a
    else if a == [] then b
    else if c(a[0], b[0]) < 0 then assert a == [a[0]] + a[1..]; [a[0]] + Merge(c, a[1..], b)
    else assert b == [b[0]] + b[1..]; [b[0]] + Merge(c, a, b[1..])
  }

  /** ll_sort */
  function Sort<T>(c: Cmp<T>, s: seq<T>): (r: seq<T>)
    ensures multiset(r) == multiset(s) && |r| == |s|
    decreases |s|
  {
    if |s| <= 1 then s else
    assert s == s[..|s| / 2] + s[|s| / 2..];
    Merge(c, Sort(c, s[..|s| / 2]), Sort(c, s[|s| / 2..]))
  }

  lemma SortMember<T>(c: Cmp<T>, s: seq<T>, x: T)
    ensures x in Sort(c, s) <==> x in s
  {
    assert multiset(Sort(c, s)) == multiset(s);
    hide Sort;
    assert x in multiset(Sort(c, s)) <==> x in multiset(s);
  }

  lemma {:induction false} TiedMember<T>(c: Cmp<T>, s: seq<T>, x: T, y: T)
    ensures y in TiedWith(c, s, x) <==> y in s && Tied(c, y, x)
  {
    if s != [] { TiedMember(c, s[1..], x, y); }
  }

  lemma SameMembers<T>(s: seq<T>, t: seq<T>)
    requires multiset(s) == multiset(t)
    ensures forall x :: x in s <==> x in t
  {
    forall x ensures x in s <==> x in t { assert x in multiset(s) <==> x in multiset(t); }
  }

  lemma MergeMember<T>(c: Cmp<T>, a: seq<T>, b: seq<T>, x: T)
    ensures x in Merge(c, a, b) <==> x in a || x in b
  {
    assert x in multiset(Merge(c, a, b)) <==> x in multiset(a) + multiset(b);
  }

  ghost predicate Among<T>(s: seq<T>, u: seq<T>) {
    forall y :: y in s ==> y in u
  }

  lemma Total<T>(c: Cmp<T>, u: seq<T>, x: T, y: T)
    requires Orders(c, u) && x in u && y in u
    ensures Le(c, x, y) || Le(c, y, x)
  {
  }

  lemma Transitive<T>(c: Cmp<T>, u: seq<T>, x: T, y: T, z: T)
    requires Orders(c, u) && x in u && y in u && z in u
    ensures Le(c, x, y) && Le(c, y, z) ==> Le(c, x, z)
  {
  }

  lemma SortedTail<T>(c: Cmp<T>, s: seq<T>)
    requires Sorted(c, s) && s != []
    ensures Sorted(c, s[1..]) && forall y :: y in s[1..] ==> Le(c, s[0], y)
  {
  }

  lemma {:induction false} MergeSorted<T>(c: Cmp<T>, a: seq<T>, b: seq<T>, u: seq<T>)
    requires Orders(c, u) && Among(a, u) && Among(b, u) && Sorted(c, a) && Sorted(c, b)
    ensures Sorted(c, Merge(c, a, b))
    decreases |a| + |b|
  {
    if a != [] && b != [] {
      var h, a', b' := a[0], a[1..], b;
      if c(a[0], b[0]) >= 0 { h, a', b' := b[0], a, b[1..]; }
      SortedTail(c, a);
      SortedTail(c, b);
      hide Orders, Sorted;
      assert (forall y :: y in a' ==> y in a) && forall y :: y in b' ==> y in b;
      MergeSorted(c, a', b', u);
      forall y | y in Merge(c, a', b') ensures Le(c, h, y) {
        MergeMember(c, a', b', y);
        FirstIsLeast(c, a, b, u, y);
      }
      Prepended(c, h, Merge(c, a', b'));
    }
  }

  lemma FirstIsLeast<T>(c: Cmp<T>, a: seq<T>, b: seq<T>, u: seq<T>, y: T)
    requires a != [] && b != [] && Orders(c, u) && Among(a, u) && Among(b, u)
    requires Sorted(c, a) && Sorted(c, b) && (y in a || y in b)
    ensures Le(c, if c(a[0], b[0]) < 0 then a[0] else b[0], y)
  {
    var h := if c(a[0], b[0]) < 0 then a[0] else b[0];
    SortedTail(c, a);
    SortedTail(c, b);
    assert a[0] in u && b[0] in u && y in u;
    Total(c, u, a[0], b[0]);
    Total(c, u, y, y);
    Transitive(c, u, h, a[0], y);
    Transitive(c, u, h, b[0], y);
    hide Orders, Sorted;
    Total(c, u, h, h);
  }

  lemma Prepended<T>(c: Cmp<T>, h: T, s: seq<T>)
    requires Sorted(c, s) && forall y :: y in s ==> Le(c, h, y)
    ensures Sorted(c, [h] + s)
  {
  }

  function OneIf<T>(p: bool, y: T): seq<T> { if p then [y] else [] }

  lemma TiedCons<T>(c: Cmp<T>, y: T, s: seq<T>, x: T)
    ensures TiedWith(c, [y] + s, x) == OneIf(Tied(c, y, x), y) + TiedWith(c, s, x)
  {
    assert ([y] + s)[1..] == s;
  }

  lemma Regroup<T>(a: seq<T>, b: seq<T>, d: seq<T>)
    ensures a + (b + d) == (a + b) + d
  {
  }

  lemma Headed<T>(s: seq<T>)
    requires s != []
    ensures s == [s[0]] + s[1..]
  {
  }

  lemma {:induction false} TiedConcat<T>(c: Cmp<T>, a: seq<T>, b: seq<T>, x: T)
    ensures TiedWith(c, a + b, x) == TiedWith(c, a, x) + TiedWith(c, b, x)
  {
    if a == [] {
      assert a + b == b;
    } else {
      var y, rest, head := a[0], a[1..], OneIf(Tied(c, a[0], x), a[0]);
      Headed(a);
      TiedCons(c, y, rest, x);
      TiedCons(c, y, rest + b, x);
      Regroup([y], rest, b);
      TiedConcat(c, rest, b, x);
      Regroup(head, TiedWith(c, rest, x), TiedWith(c, b, x));
    }
  }

  lemma {:induction false} ReverseConcat<T>(a: seq<T>, b: seq<T>)
    ensures Reverse(a + b) == Reverse(b) + Reverse(a)
  {
  }

  lemma TiedOne<T>(c: Cmp<T>, y: T, x: T)
    ensures TiedWith(c, [y], x) == OneIf(Tied(c, y, x), y)
  {
    assert [y][1..] == [];
  }

  lemma {:induction false} TiedReverse<T>(c: Cmp<T>, s: seq<T>, x: T)
    ensures TiedWith(c, Reverse(s), x) == Reverse(TiedWith(c, s, x))
  {
    if s != [] {
      var y, rest, head := s[0], s[1..], OneIf(Tied(c, s[0], x), s[0]);
      assert Reverse(s) == Reverse(rest) + [y] && Reverse(head) == head;
      Headed(s);
      TiedOne(c, y, x);
      hide Tied, TiedWith, Reverse, OneIf;
      TiedReverse(c, rest, x);
      TiedConcat(c, Reverse(rest), [y], x);
      TiedCons(c, y, rest, x);
      ReverseConcat(head, TiedWith(c, rest, x));
    }
  }

  /** A merge puts the tied elements of the second list before those of the first. */
  lemma {:induction false} MergeTied<T>(c: Cmp<T>, a: seq<T>, b: seq<T>, u: seq<T>, x: T)
    requires Orders(c, u) && Among(a, u) && Among(b, u) && x in u && Sorted(c, a) && Sorted(c, b)
    ensures TiedWith(c, Merge(c, a, b), x) == TiedWith(c, b, x) + TiedWith(c, a, x)
    decreases |a| + |b|
  {
    if a != [] && b != [] {
      SortedTail(c, a);
      SortedTail(c, b);
      Headed(a);
      Headed(b);
      if c(a[0], b[0]) < 0 {
        assert Merge(c, a, b) == [a[0]] + Merge(c, a[1..], b);
        if Tied(c, a[0], x) { NoneTied(c, a, b, u, x); }
        hide Orders, Sorted, Merge, TiedWith;
        MergeTied(c, a[1..], b, u, x);
        TiedCons(c, a[0], Merge(c, a[1..], b), x);
        TiedCons(c, a[0], a[1..], x);
        Swapped(OneIf(Tied(c, a[0], x), a[0]), TiedWith(c, b, x), TiedWith(c, a[1..], x));
      } else {
        assert Merge(c, a, b) == [b[0]] + Merge(c, a, b[1..]);
        hide Orders, Sorted, Merge, TiedWith;
        MergeTied(c, a, b[1..], u, x);
        TiedCons(c, b[0], Merge(c, a, b[1..]), x);
        TiedCons(c, b[0], b[1..], x);
        Regroup(OneIf(Tied(c, b[0], x), b[0]), TiedWith(c, b[1..], x), TiedWith(c, a, x));
      }
    }
  }

  lemma Swapped<T>(h: seq<T>, b: seq<T>, a: seq<T>)
    requires h == [] || b == []
    ensures h + (b + a) == b + (h + a)
  {
  }

  lemma NoneTied<T>(c: Cmp<T>, a: seq<T>, b: seq<T>, u: seq<T>, x: T)
    requires Orders(c, u) && Among(a, u) && Among(b, u) && x in u && Sorted(c, b)
    requires a != [] && b != [] && c(a[0], b[0]) < 0 && Tied(c, a[0], x)
    ensures TiedWith(c, b, x) == []
  {
    SortedTail(c, b);
    var t := TiedWith(c, b, x);
    if t != [] {
      var y := t[0];
      TiedMember(c, b, x, y);
      assert y in b && a[0] in u && b[0] in u && y in u;
      Total(c, u, y, y);
      hide Orders, Sorted;
      assert Le(c, b[0], y);
      Transitive(c, u, b[0], y, x);
      Transitive(c, u, b[0], x, a[0]);
      assert false;
    }
  }

  lemma {:induction false} SortSorted<T>(c: Cmp<T>, s: seq<T>, u: seq<T>)
    requires Orders(c, u) && Among(s, u)
    ensures Sorted(c, Sort(c, s))
    decreases |s|
  {
    if |s| > 1 {
      var a, b := s[..|s| / 2], s[|s| / 2..];
      assert Sort(c, s) == Merge(c, Sort(c, a), Sort(c, b));
      hide Orders, Sorted, Sort;
      SortSorted(c, a, u);
      SortSorted(c, b, u);
      SameMembers(Sort(c, a), a);
      SameMembers(Sort(c, b), b);
      MergeSorted(c, Sort(c, a), Sort(c, b), u);
    }
  }

  lemma {:induction false} SortTied<T>(c: Cmp<T>, s: seq<T>, u: seq<T>, x: T)
    requires Orders(c, u) && Among(s, u) && x in u
    ensures TiedWith(c, Sort(c, s), x) == TiedWith(c, Reverse(s), x)
    decreases |s|
  {
    if |s| <= 1 {
      assert Reverse(s) == s;
    } else {
      var a, b := s[..|s| / 2], s[|s| / 2..];
      assert s == a + b && Sort(c, s) == Merge(c, Sort(c, a), Sort(c, b));
      hide Orders, Sorted, Sort;
      SortTied(c, a, u, x);
      SortTied(c, b, u, x);
      SortSorted(c, a, u);
      SortSorted(c, b, u);
      SameMembers(Sort(c, a), a);
      SameMembers(Sort(c, b), b);
      MergeTied(c, Sort(c, a), Sort(c, b), u, x);
      ReverseConcat(a, b);
      TiedConcat(c, Reverse(b), Reverse(a), x);
    }
  }

  lemma {:induction false} ReverseMembers<T>(s: seq<T>)
    ensures multiset(Reverse(s)) == multiset(s)
  {
    if s != [] {
      ReverseMembers(s[1..]);
      assert s == [s[0]] + s[1..];
    }
  }

  /** For any total preorder, ll_sort is the stable sort of its reversed input. */
  lemma SortIsStable<T>(c: Cmp<T>, s: seq<T>)
    requires Orders(c, s)
    ensures IsStableSort(c, Reverse(s), Sort(c, s))
  {
    SortSorted(c, s, s);
    forall x | x in s ensures TiedWith(c, Sort(c, s), x) == TiedWith(c, Reverse(s), x) { SortTied(c, s, s, x); }
    ReverseMembers(s);
    SameMembers(Reverse(s), s);
  }

  /** There is only one stable sort of a sequence. */
  lemma {:induction false} StableSortUnique<T>(c: Cmp<T>, r: seq<T>, t: seq<T>, u: seq<T>)
    requires Orders(c, u) && Among(r, u) && Sorted(c, r) && Sorted(c, t) && multiset(r) == multiset(t)
    requires forall x :: x in u ==> TiedWith(c, r, x) == TiedWith(c, t, x)
    ensures r == t
  {
    SameMembers(r, t);
    if r == [] {
      assert |multiset(t)| == 0;
    } else {
      SameHead(c, r, t, u);
      SortedTail(c, r);
      SortedTail(c, t);
      hide Orders, Sorted, Tied;
      SameTail(r, t);
      forall x | x in u ensures TiedWith(c, r[1..], x) == TiedWith(c, t[1..], x) {
        if Tied(c, r[0], x) {
          assert TiedWith(c, r[1..], x) == TiedWith(c, r, x)[1..];
          assert TiedWith(c, t[1..], x) == TiedWith(c, t, x)[1..];
        } else {
          assert TiedWith(c, r, x) == TiedWith(c, r[1..], x) && TiedWith(c, t, x) == TiedWith(c, t[1..], x);
        }
      }
      StableSortUnique(c, r[1..], t[1..], u);
    }
  }

  lemma SameTail<T>(r: seq<T>, t: seq<T>)
    requires r != [] && t != [] && r[0] == t[0] && multiset(r) == multiset(t)
    ensures multiset(r[1..]) == multiset(t[1..])
  {
    assert r == [r[0]] + r[1..] && t == [t[0]] + t[1..];
    assert multiset(r[1..]) == multiset(r) - multiset{r[0]} && multiset(t[1..]) == multiset(t) - multiset{r[0]};
  }

  lemma SameHead<T>(c: Cmp<T>, r: seq<T>, t: seq<T>, u: seq<T>)
    requires Orders(c, u) && Among(r, u) && Sorted(c, r) && Sorted(c, t) && r != []
    requires forall x :: x in r <==> x in t
    requires forall x :: x in u ==> TiedWith(c, r, x) == TiedWith(c, t, x)
    ensures t != [] && r[0] == t[0]
  {
    assert r[0] in t && t[0] in r && r[0] in u && t[0] in u;
    SortedTail(c, r);
    SortedTail(c, t);
    Total(c, u, r[0], r[0]);
    hide Orders, Sorted;
    assert Le(c, r[0], t[0]) && Le(c, t[0], r[0]);
    assert TiedWith(c, r, r[0])[0] == r[0];
    assert TiedWith(c, t, r[0])[0] == t[0];
  }

  /** Hence ll_sort is that one, whatever way it is computed; and after ll_reverse it is the stable sort
      of the input itself. */
  lemma SortIsTheStableSort<T>(c: Cmp<T>, s: seq<T>, r: seq<T>)
    requires Orders(c, s)
    ensures IsStableSort(c, Reverse(s), r) <==> r == Sort(c, s)
    ensures IsStableSort(c, s, r) <==> r == Sort(c, Reverse(s))
  {
    ReverseMembers(s);
    SameMembers(Reverse(s), s);
    StableIff(c, s, Reverse(s), r);
    assert Reverse(Reverse(s)) == s;
    StableIff(c, Reverse(s), s, r);
  }

  lemma StableIff<T>(c: Cmp<T>, s: seq<T>, back: seq<T>, r: seq<T>)
    requires Orders(c, s) && back == Reverse(s) && forall x :: x in back <==> x in s
    ensures IsStableSort(c, back, r) <==> r == Sort(c, s)
  {
    SortIsStable(c, s);
    if IsStableSort(c, back, r) {
      SameMembers(r, back);
      StableSortUnique(c, r, Sort(c, s), s);
    }
  }

  lemma {:induction false} TiedDistinct<T>(c: Cmp<T>, s: seq<T>, x: T)
    requires Distinct(s)
    ensures Distinct(TiedWith(c, s, x))
  {
    if s != [] {
      TiedDistinct(c, s[1..], x);
      TiedMember(c, s[1..], x, s[0]);
      assert s[0] !in s[1..];
    }
  }

  lemma TwoTied<T>(c: Cmp<T>, s: seq<T>, i: nat, j: nat)
    requires Orders(c, s) && Distinct(s) && i < j < |s| && Tied(c, s[i], s[j])
    ensures Reverse(TiedWith(c, s, s[i])) != TiedWith(c, s, s[i])
  {
    var t := TiedWith(c, s, s[i]);
    TiedDistinct(c, s, s[i]);
    TiedMember(c, s, s[i], s[i]);
    TiedMember(c, s, s[i], s[j]);
    Total(c, s, s[i], s[i]);
    assert s[i] in t && s[j] in t;
    assert Reverse(t)[0] == t[|t| - 1];
  }

  ghost predicate NoTies<T>(c: Cmp<T>, s: seq<T>) {
    forall i: nat, j: nat :: i < j < |s| ==> !Tied(c, s[i], s[j])
  }

  lemma NoTiesAt<T>(c: Cmp<T>, s: seq<T>, i: nat, j: nat)
    requires NoTies(c, s) && i < |s| && j < |s| && Tied(c, s[i], s[j])
    ensures i == j
  {
  }

  lemma AloneTied<T>(c: Cmp<T>, s: seq<T>, i: nat)
    requires Orders(c, s) && Distinct(s) && i < |s|
    requires NoTies(c, s)
    ensures TiedWith(c, s, s[i]) == [s[i]]
  {
    var t := TiedWith(c, s, s[i]);
    TiedDistinct(c, s, s[i]);
    TiedMember(c, s, s[i], s[i]);
    Total(c, s, s[i], s[i]);
    hide Orders, Distinct, NoTies;
    assert s[i] in t;
    forall y | y in t ensures y == s[i] {
      TiedMember(c, s, s[i], y);
      var k: nat :| k < |s| && s[k] == y;
      NoTiesAt(c, s, k, i);
    }
    OneMember(t, s[i]);
  }

  lemma OneMember<T>(t: seq<T>, x: T)
    requires Distinct(t) && x in t && forall y :: y in t ==> y == x
    ensures t == [x]
  {
    assert t[0] in t && t[|t| - 1] in t;
    DistinctAt(t, 0, |t| - 1);
  }

  lemma DistinctAt<T>(t: seq<T>, i: nat, j: nat)
    requires Distinct(t) && i < |t| && j < |t| && t[i] == t[j]
    ensures i == j
  {
  }

  /** ll_sort itself is stable exactly when no two nodes tie. */
  lemma StableIffNoTies<T>(c: Cmp<T>, s: seq<T>)
    requires Orders(c, s) && Distinct(s)
    ensures IsStableSort(c, s, Sort(c, s)) <==> NoTies(c, s)
  {
    SortIsStable(c, s);
    ReverseMembers(s);
    SameMembers(Reverse(s), s);
    if i: nat, j: nat :| i < j < |s| && Tied(c, s[i], s[j]) {
      TiedReverse(c, s, s[i]);
      TwoTied(c, s, i, j);
    } else {
      forall i: nat | i < |s| ensures TiedWith(c, s, s[i]) == [s[i]] { AloneTied(c, s, i); }
      forall x | x in s ensures TiedWith(c, s, x) == Reverse(TiedWith(c, s, x)) {
        var i: nat :| i < |s| && s[i] == x;
        assert Reverse([x]) == [x];
      }
      forall x | x in s ensures TiedWith(c, Sort(c, s), x) == TiedWith(c, s, x) { TiedReverse(c, s, x); }
    }
  }
}
