/** The sets of src/spec_to_specs.c as values: parents by id, and for each representative the size and
    the list of its clique. `Sts` keeps the same in linked objects. */
module SpecForest {
  import opened Collections

  type Id = string

  /** `rank` and `top` are not in the code: a rank bounds the height below an id and grows along the chain
      of parents, and `top` bounds all ranks, so the chains end. */
  datatype Forest = Forest(parent: map<Id, Id>, size: map<Id, nat>, clique: map<Id, seq<Id>>, rank: map<Id, nat>, top: nat)

  predicate IsRoot(f: Forest, x: Id)
    requires x in f.parent
  {
    f.parent[x] == x
  }

  ghost predicate ClimbsAt(f: Forest, x: Id)
    requires x in f.parent && x in f.rank
  {
    && f.parent[x] in f.parent && f.parent[x] in f.rank
    && f.rank[x] <= f.top
    && (!IsRoot(f, x) ==> f.rank[x] < f.rank[f.parent[x]])
  }

  ghost predicate Climbs(f: Forest) {
    && f.parent.Keys == f.size.Keys == f.clique.Keys == f.rank.Keys
    && forall x {:trigger ClimbsAt(f, x)} :: x in f.parent ==> ClimbsAt(f, x)
  }

  /** The parent, with what climbing says of it. */
  ghost function Par(f: Forest, x: Id): (p: Id)
    requires Climbs(f) && x in f.parent
    ensures p == f.parent[x] && p in f.parent && f.rank[x] <= f.top && f.rank[p] <= f.top
    ensures !IsRoot(f, x) ==> f.rank[x] < f.rank[p]
  {
    assert ClimbsAt(f, x);
    assert ClimbsAt(f, f.parent[x]);
    f.parent[x]
  }

  /** The representative findRoot leads to. */
  ghost function RootOf(f: Forest, x: Id): (r: Id)
    requires Climbs(f) && x in f.parent
    ensures r in f.parent && IsRoot(f, r)
    decreases f.top - f.rank[x]
  {
    if IsRoot(f, x) then x else RootOf(f, Par(f, x))
  }

  /** The number of parent links from x to its representative. */
  ghost function Depth(f: Forest, x: Id): nat
    requires Climbs(f) && x in f.parent
    decreases f.top - f.rank[x]
  {
    if IsRoot(f, x) then 0 else 1 + Depth(f, Par(f, x))
  }

  // ---------- findRoot ----------

  /** One step of path splitting: x's parent becomes its grandparent. */
  ghost function Shorten(f: Forest, x: Id): (g: Forest)
    requires Climbs(f) && x in f.parent
    ensures g.parent.Keys == f.parent.Keys
  {
    f.(parent := f.parent[x := Par(f, Par(f, x))])
  }

  lemma ShortenClimbs(f: Forest, x: Id)
    requires Climbs(f) && x in f.parent
    ensures Climbs(Shorten(f, x))
    ensures forall y :: y in f.parent ==> (IsRoot(Shorten(f, x), y) <==> IsRoot(f, y))
  {
    var g := Shorten(f, x);
    forall y | y in g.parent ensures ClimbsAt(g, y) && (IsRoot(g, y) <==> IsRoot(f, y)) {
      var p := Par(f, y);
      var q := Par(f, p);
    }
  }

  lemma {:induction false} ShortenKeeps(f: Forest, x: Id, y: Id)
    requires Climbs(f) && x in f.parent && y in f.parent && Climbs(Shorten(f, x))
    ensures RootOf(Shorten(f, x), y) == RootOf(f, y)
    ensures Depth(Shorten(f, x), y) <= Depth(f, y)
    decreases f.top - f.rank[y]
  {
    ShortenClimbs(f, x);
    if !IsRoot(f, y) {
      var p := Par(f, y);
      ShortenKeeps(f, x, p);
      if y == x && !IsRoot(f, p) {
        ShortenKeeps(f, x, Par(f, p));
      }
    }
  }

  /** findRoot from x shortens at x and goes on from its old parent. */
  ghost function Split(f: Forest, x: Id): Forest
    requires Climbs(f) && x in f.parent
    decreases f.top - f.rank[x]
  {
    if IsRoot(f, x) then f else
      (ShortenClimbs(f, x); Split(Shorten(f, x), Par(f, x)))
  }

  /** Path splitting changes nobody's representative, lengthens nobody's chain, and touches only parents. */
  lemma {:induction false} SplitKeeps(f: Forest, x: Id)
    requires Climbs(f) && x in f.parent
    ensures Climbs(Split(f, x)) && Split(f, x) == f.(parent := Split(f, x).parent)
    ensures Split(f, x).parent.Keys == f.parent.Keys
    ensures forall y :: y in f.parent ==> RootOf(Split(f, x), y) == RootOf(f, y) && Depth(Split(f, x), y) <= Depth(f, y)
    ensures forall y :: y in f.parent ==> (IsRoot(Split(f, x), y) <==> IsRoot(f, y))
    decreases f.top - f.rank[x]
  {
    if !IsRoot(f, x) {
      ShortenClimbs(f, x);
      SplitKeeps(Shorten(f, x), Par(f, x));
      forall y | y in f.parent
        ensures RootOf(Split(f, x), y) == RootOf(f, y) && Depth(Split(f, x), y) <= Depth(f, y)
      {
        ShortenKeeps(f, x, y);
      }
    }
  }

  // ---------- the invariant ----------

  function Pow2(n: nat): nat { if n == 0 then 1 else 2 * Pow2(n - 1) }

  lemma {:induction false} Pow2Grows(m: nat, n: nat)
    requires m <= n
    ensures 1 <= Pow2(m) <= Pow2(n)
    decreases n
  {
    if n > m { Pow2Grows(m, n - 1); } else if n > 0 { Pow2Grows(m - 1, n - 1); }
  }

  ghost predicate InClass(f: Forest, y: Id, r: Id)
    requires Climbs(f)
  {
    y in f.parent && RootOf(f, y) == r
  }

  /** A representative lists its class, each id once, and its size is the list's length; nobody else has a list. */
  ghost predicate ListAt(f: Forest, r: Id)
    requires Climbs(f) && r in f.parent
  {
    if IsRoot(f, r)
    then && f.size[r] == |f.clique[r]| && Distinct(f.clique[r])
         && forall y {:trigger InClass(f, y, r)} {:trigger y in f.clique[r]} :: y in f.clique[r] <==> InClass(f, y, r)
    else f.clique[r] == []
  }

  ghost predicate Lists(f: Forest)
    requires Climbs(f)
  {
    forall r {:trigger ListAt(f, r)} :: r in f.parent ==> ListAt(f, r)
  }

  ghost predicate Balanced(f: Forest)
    requires Climbs(f)
  {
    forall r {:trigger BalancedAt(f, r)} :: r in f.parent ==> BalancedAt(f, r)
  }

  ghost predicate BalancedAt(f: Forest, r: Id)
    requires r in f.parent && r in f.rank && r in f.size
  {
    IsRoot(f, r) ==> Pow2(f.rank[r]) <= f.size[r]
  }

  ghost predicate Inv(f: Forest) {
    Climbs(f) && Lists(f) && Balanced(f)
  }

  lemma {:induction false} DepthUnderRank(f: Forest, x: Id)
    requires Climbs(f) && x in f.parent
    ensures Depth(f, x) + f.rank[x] <= f.rank[RootOf(f, x)]
    decreases f.top - f.rank[x]
  {
    if !IsRoot(f, x) {
      DepthUnderRank(f, Par(f, x));
    }
  }

  /** The chain from x has at most log2 of the size of its clique links. */
  lemma LogarithmicChains(f: Forest, x: Id)
    requires Inv(f) && x in f.parent
    ensures Pow2(Depth(f, x)) <= f.size[RootOf(f, x)] == |f.clique[RootOf(f, x)]|
  {
    assert ListAt(f, RootOf(f, x)) && BalancedAt(f, RootOf(f, x));
    DepthUnderRank(f, x);
    Pow2Grows(Depth(f, x), f.rank[RootOf(f, x)]);
  }

  /** What findRoot at x owes to the call it makes on x's old parent. */
  lemma ShortenStep(f: Forest, x: Id)
    requires Climbs(f) && x in f.parent && !IsRoot(f, x) && Climbs(Shorten(f, x))
    ensures Split(f, x) == Split(Shorten(f, x), Par(f, x))
    ensures RootOf(Shorten(f, x), Par(f, x)) == RootOf(f, x)
    ensures Depth(Shorten(f, x), Par(f, x)) + 1 == Depth(f, x)
  {
    ShortenBelow(f, x, Par(f, x));
  }

  /** Shortening at x leaves alone every id above it. */
  lemma {:induction false} ShortenBelow(f: Forest, x: Id, y: Id)
    requires Climbs(f) && x in f.parent && y in f.parent && Climbs(Shorten(f, x)) && f.rank[y] > f.rank[x]
    ensures RootOf(Shorten(f, x), y) == RootOf(f, y) && Depth(Shorten(f, x), y) == Depth(f, y)
    decreases f.top - f.rank[y]
  {
    ShortenClimbs(f, x);
    if !IsRoot(f, y) { ShortenBelow(f, x, Par(f, y)); }
  }

  lemma ShortenInv(f: Forest, x: Id)
    requires Inv(f) && x in f.parent
    ensures Inv(Shorten(f, x))
  {
    ShortenClimbs(f, x);
    var g := Shorten(f, x);
    forall r | r in g.parent ensures ListAt(g, r) && BalancedAt(g, r) {
      assert ListAt(f, r) && BalancedAt(f, r);
      forall y ensures InClass(g, y, r) <==> InClass(f, y, r) {
        if y in f.parent { ShortenKeeps(f, x, y); }
      }
    }
  }

  lemma SplitInv(f: Forest, x: Id)
    requires Inv(f) && x in f.parent
    ensures Inv(Split(f, x))
  {
    SplitKeeps(f, x);
    var g := Split(f, x);
    assert forall y, r :: InClass(g, y, r) <==> InClass(f, y, r);
    forall r | r in g.parent ensures ListAt(g, r) && BalancedAt(g, r) {
      assert ListAt(f, r) && BalancedAt(f, r);
    }
  }

  // ---------- sts_add ----------

  function Add(f: Forest, x: Id): Forest {
    Forest(f.parent[x := x], f.size[x := 1], f.clique[x := [x]], f.rank[x := 0], f.top)
  }

  lemma {:induction false} AddKeepsRoot(f: Forest, x: Id, y: Id)
    requires Climbs(f) && x !in f.parent && y in f.parent && Climbs(Add(f, x))
    ensures RootOf(Add(f, x), y) == RootOf(f, y)
    decreases f.top - f.rank[y]
  {
    if !IsRoot(f, y) {
      AddKeepsRoot(f, x, Par(f, y));
    }
  }

  lemma AddClimbs(f: Forest, x: Id)
    requires Climbs(f) && x !in f.parent
    ensures Climbs(Add(f, x))
  {
    forall y | y in Add(f, x).parent ensures ClimbsAt(Add(f, x), y) {
      if y != x { assert ClimbsAt(f, y); }
    }
  }

  lemma AddInv(f: Forest, x: Id)
    requires Inv(f) && x !in f.parent
    ensures Inv(Add(f, x)) && RootOf(Add(f, x), x) == x
    ensures forall y :: y in f.parent ==> RootOf(Add(f, x), y) == RootOf(f, y)
  {
    AddClimbs(f, x);
    forall y | y in f.parent ensures RootOf(Add(f, x), y) == RootOf(f, y) {
      AddKeepsRoot(f, x, y);
    }
    AddLists(f, x);
    var g := Add(f, x);
    forall r | r in g.parent ensures BalancedAt(g, r) {
      if r != x { assert BalancedAt(f, r); }
    }
  }

  lemma AddLists(f: Forest, x: Id)
    requires Inv(f) && x !in f.parent && Climbs(Add(f, x))
    requires forall y :: y in f.parent ==> RootOf(Add(f, x), y) == RootOf(f, y)
    ensures Lists(Add(f, x))
  {
    var g := Add(f, x);
    assert RootOf(g, x) == x;
    forall r | r in g.parent ensures ListAt(g, r) {
      if r == x {
        forall y ensures y in g.clique[x] <==> InClass(g, y, x) { }
      } else {
        assert ListAt(f, r);
        forall y ensures y in g.clique[r] <==> InClass(g, y, r) {
          assert y in f.clique[r] ==> InClass(f, y, r);
          assert y != x ==> (InClass(g, y, r) <==> InClass(f, y, r));
        }
      }
    }
  }

  // ---------- sts_merge ----------

  function Raised(f: Forest, win: Id, lose: Id): nat
    requires win in f.rank && lose in f.rank
  {
    if f.rank[lose] < f.rank[win] then f.rank[win] else f.rank[lose] + 1
  }

  /** The union of two classes given by their representatives: `lose` goes under `win`. */
  function Link(f: Forest, win: Id, lose: Id): Forest
    requires win in f.size && lose in f.size && win in f.clique && lose in f.clique && win in f.rank && lose in f.rank
  {
    Forest(f.parent[lose := win],
           f.size[win := f.size[win] + f.size[lose]],
           f.clique[win := f.clique[win] + f.clique[lose]][lose := []],
           f.rank[win := Raised(f, win, lose)],
           if f.top < Raised(f, win, lose) then Raised(f, win, lose) else f.top)
  }

  /** What sts_merge does once it has both representatives: the smaller class goes under the larger. */
  function Unite(f: Forest, ra: Id, rb: Id): Forest
    requires Climbs(f) && ra in f.parent && rb in f.parent
  {
    if ra == rb then f else if f.size[ra] < f.size[rb] then Link(f, rb, ra) else Link(f, ra, rb)
  }

  ghost function Merge(f: Forest, a: Id, b: Id): Forest
    requires Climbs(f) && a in f.parent && b in f.parent
  {
    SplitKeeps(f, a);
    SplitKeeps(Split(f, a), b);
    Unite(Split(Split(f, a), b), RootOf(f, a), RootOf(f, b))
  }

  ghost predicate Linkable(f: Forest, win: Id, lose: Id) {
    && Climbs(f) && win in f.parent && lose in f.parent && win != lose
    && IsRoot(f, win) && IsRoot(f, lose)
  }

  lemma {:induction false} LinkRoots(f: Forest, win: Id, lose: Id, y: Id)
    requires Linkable(f, win, lose) && y in f.parent && Climbs(Link(f, win, lose))
    ensures RootOf(Link(f, win, lose), y) == if RootOf(f, y) == lose then win else RootOf(f, y)
    decreases f.top - f.rank[y]
  {
    if !IsRoot(f, y) {
      LinkRoots(f, win, lose, Par(f, y));
    }
  }

  lemma LinkClimbs(f: Forest, win: Id, lose: Id)
    requires Linkable(f, win, lose)
    ensures Climbs(Link(f, win, lose))
  {
    var g := Link(f, win, lose);
    forall y | y in g.parent ensures ClimbsAt(g, y) {
      var p := Par(f, y);
    }
  }

  lemma LinkInv(f: Forest, win: Id, lose: Id)
    requires Inv(f) && Linkable(f, win, lose) && f.size[win] >= f.size[lose]
    ensures Inv(Link(f, win, lose))
  {
    var g := Link(f, win, lose);
    LinkClimbs(f, win, lose);
    forall y | y in f.parent ensures RootOf(g, y) == if RootOf(f, y) == lose then win else RootOf(f, y) {
      LinkRoots(f, win, lose, y);
    }
    LinkLists(f, win, lose);
    LinkBalanced(f, win, lose);
  }

  lemma LinkBalanced(f: Forest, win: Id, lose: Id)
    requires Inv(f) && Linkable(f, win, lose) && f.size[win] >= f.size[lose] && Climbs(Link(f, win, lose))
    ensures Balanced(Link(f, win, lose))
  {
    var g := Link(f, win, lose);
    forall r | r in g.parent ensures BalancedAt(g, r) {
      assert BalancedAt(f, r) && BalancedAt(f, lose);
    }
  }

  lemma Appended(a: seq<Id>, b: seq<Id>)
    requires Distinct(a) && Distinct(b) && forall y :: y in a ==> y !in b
    ensures Distinct(a + b)
  {
    forall i: nat, j: nat | i < j < |a + b| ensures (a + b)[i] != (a + b)[j] {
      if i < |a| <= j {
        assert a[i] in a && b[j - |a|] in b;
      }
    }
  }

  lemma LinkLists(f: Forest, win: Id, lose: Id)
    requires Inv(f) && Linkable(f, win, lose) && Climbs(Link(f, win, lose))
    requires forall y :: y in f.parent ==>
      RootOf(Link(f, win, lose), y) == if RootOf(f, y) == lose then win else RootOf(f, y)
    ensures Lists(Link(f, win, lose))
  {
    var g := Link(f, win, lose);
    assert ListAt(f, win) && ListAt(f, lose);
    forall y | y in f.clique[win] ensures y !in f.clique[lose] {
      assert InClass(f, y, win) && !InClass(f, y, lose);
    }
    Appended(f.clique[win], f.clique[lose]);
    forall r | r in g.parent ensures ListAt(g, r) {
      LinkListAt(f, win, lose, r);
    }
  }

  lemma LinkListAt(f: Forest, win: Id, lose: Id, r: Id)
    requires Climbs(f) && Linkable(f, win, lose) && Climbs(Link(f, win, lose)) && r in f.parent
    requires ListAt(f, r) && ListAt(f, win) && ListAt(f, lose) && Distinct(f.clique[win] + f.clique[lose])
    requires forall y :: y in f.parent ==>
      RootOf(Link(f, win, lose), y) == if RootOf(f, y) == lose then win else RootOf(f, y)
    ensures ListAt(Link(f, win, lose), r)
  {
    var g := Link(f, win, lose);
    if r != lose && IsRoot(g, r) {
      assert g.clique[r] == if r == win then f.clique[win] + f.clique[lose] else f.clique[r];
      forall y ensures y in g.clique[r] <==> InClass(g, y, r) {
        assert y in f.clique[r] <==> InClass(f, y, r);
        assert y in f.clique[lose] <==> InClass(f, y, lose);
        if y in f.parent {
          assert RootOf(g, y) == if RootOf(f, y) == lose then win else RootOf(f, y);
        }
      }
    }
  }

  /** The class of y after the classes of ra and rb are made one. */
  ghost predicate SameAfter(f: Forest, ra: Id, rb: Id, x: Id, y: Id)
    requires Climbs(f) && x in f.parent && y in f.parent
  {
    var rx, ry := RootOf(f, x), RootOf(f, y);
    rx == ry || (rx == ra && ry == rb) || (rx == rb && ry == ra)
  }

  lemma UniteInv(f: Forest, ra: Id, rb: Id)
    requires Inv(f) && ra in f.parent && rb in f.parent && IsRoot(f, ra) && IsRoot(f, rb)
    ensures Inv(Unite(f, ra, rb)) && Unite(f, ra, rb).parent.Keys == f.parent.Keys
  {
    if ra == rb {
    } else if f.size[ra] < f.size[rb] {
      LinkInv(f, rb, ra);
    } else {
      LinkInv(f, ra, rb);
    }
  }

  lemma UniteRoot(f: Forest, ra: Id, rb: Id, y: Id)
    requires Climbs(f) && ra in f.parent && rb in f.parent && IsRoot(f, ra) && IsRoot(f, rb) && y in f.parent
    requires Climbs(Unite(f, ra, rb))
    ensures RootOf(Unite(f, ra, rb), y) == Renamed(f, ra, rb, RootOf(f, y))
  {
    if ra == rb {
    } else if f.size[ra] < f.size[rb] {
      LinkRoots(f, rb, ra, y);
    } else {
      LinkRoots(f, ra, rb, y);
    }
  }

  /** The representative that r's class has after the classes of ra and rb are made one. */
  function Renamed(f: Forest, ra: Id, rb: Id, r: Id): Id
    requires ra in f.size && rb in f.size
  {
    if r != ra && r != rb then r else if f.size[ra] < f.size[rb] then rb else ra
  }

  /** sts_merge keeps the invariant. */
  lemma MergeInv(f: Forest, a: Id, b: Id)
    requires Inv(f) && a in f.parent && b in f.parent
    ensures Inv(Merge(f, a, b)) && Merge(f, a, b).parent.Keys == f.parent.Keys
  {
    SplitInv(f, a);
    SplitKeeps(f, a);
    SplitInv(Split(f, a), b);
    SplitKeeps(Split(f, a), b);
    UniteInv(Split(Split(f, a), b), RootOf(f, a), RootOf(f, b));
  }

  lemma SplitTwice(f: Forest, a: Id, b: Id, y: Id) returns (g: Forest)
    requires Climbs(f) && a in f.parent && b in f.parent && y in f.parent
    ensures Climbs(Split(f, a)) && b in Split(f, a).parent && g == Split(Split(f, a), b) && Climbs(g)
    ensures g.parent.Keys == f.parent.Keys && g.size == f.size && RootOf(Split(f, a), b) == RootOf(f, b)
    ensures RootOf(g, y) == RootOf(f, y) && IsRoot(g, RootOf(f, a)) && IsRoot(g, RootOf(f, b))
  {
    SplitKeeps(f, a);
    SplitKeeps(Split(f, a), b);
    g := Split(Split(f, a), b);
  }

  lemma MergeRoot(f: Forest, a: Id, b: Id, y: Id)
    requires Climbs(f) && a in f.parent && b in f.parent && y in f.parent
    requires Climbs(Merge(f, a, b)) && y in Merge(f, a, b).parent
    ensures RootOf(Merge(f, a, b), y) == Renamed(f, RootOf(f, a), RootOf(f, b), RootOf(f, y))
  {
    var g := SplitTwice(f, a, b, y);
    UniteRoot(g, RootOf(f, a), RootOf(f, b), y);
  }

  /** It makes exactly the classes of its two ids one. */
  lemma MergeJoins(f: Forest, a: Id, b: Id, x: Id, y: Id)
    requires Inv(f) && a in f.parent && b in f.parent && x in f.parent && y in f.parent
    ensures Inv(Merge(f, a, b)) && x in Merge(f, a, b).parent && y in Merge(f, a, b).parent
    ensures RootOf(Merge(f, a, b), x) == RootOf(Merge(f, a, b), y) <==> SameAfter(f, RootOf(f, a), RootOf(f, b), x, y)
  {
    MergeInv(f, a, b);
    MergeRoot(f, a, b, x);
    MergeRoot(f, a, b, y);
  }
}
