/** The pairs init_similar_pairs lists: every two members of one clique, once (src/spec_to_specs.c:250-274). */
module SimilarPairs {
  import opened Collections
  import opened SpecForest

  /** The pairs of a with each id behind it. */
  function Row(a: Id, rest: seq<Id>): (r: seq<(Id, Id)>)
    ensures |r| == |rest|
  {
    if rest == [] then [] else [(a, rest[0])] + Row(a, rest[1..])
  }

  /** The two nested loops over one list. */
  function PairsOf(c: seq<Id>): seq<(Id, Id)> {
    if c == [] then [] else Row(c[0], c[1..]) + PairsOf(c[1..])
  }

  /** The loop over the entries in the order the table hands them out. */
  function AllPairs(f: Forest, order: seq<Id>): seq<(Id, Id)>
    requires forall x :: x in order ==> x in f.parent && x in f.clique
  {
    if order == [] then [] else
    (if IsRoot(f, order[0]) then PairsOf(f.clique[order[0]]) else []) + AllPairs(f, order[1..])
  }

  predicate Matches(p: (Id, Id), x: Id, y: Id) { p == (x, y) || p == (y, x) }

  /** How often x and y are listed together, in either order. */
  function Times(s: seq<(Id, Id)>, x: Id, y: Id): nat {
    if s == [] then 0 else (if Matches(s[0], x, y) then 1 else 0) + Times(s[1..], x, y)
  }

  lemma {:induction false} TimesConcat(s: seq<(Id, Id)>, t: seq<(Id, Id)>, x: Id, y: Id)
    ensures Times(s + t, x, y) == Times(s, x, y) + Times(t, x, y)
  {
    if s == [] {
      assert s + t == t;
    } else {
      assert (s + t)[1..] == s[1..] + t;
      TimesConcat(s[1..], t, x, y);
    }
  }

  lemma {:induction false} TimesRow(a: Id, rest: seq<Id>, x: Id, y: Id)
    requires Distinct(rest) && a !in rest && x != y
    ensures Times(Row(a, rest), x, y) == if (a == x && y in rest) || (a == y && x in rest) then 1 else 0
  {
    if rest != [] {
      TimesRow(a, rest[1..], x, y);
      assert Row(a, rest)[1..] == Row(a, rest[1..]);
      assert rest[0] !in rest[1..];
    }
  }

  lemma {:induction false} TimesPairsOf(c: seq<Id>, x: Id, y: Id)
    requires Distinct(c) && x != y
    ensures Times(PairsOf(c), x, y) == if x in c && y in c then 1 else 0
  {
    if c != [] {
      assert c[0] !in c[1..];
      TimesConcat(Row(c[0], c[1..]), PairsOf(c[1..]), x, y);
      TimesRow(c[0], c[1..], x, y);
      TimesPairsOf(c[1..], x, y);
    }
  }

  lemma {:induction false} TimesAllPairs(f: Forest, order: seq<Id>, x: Id, y: Id)
    requires Inv(f) && x in f.parent && y in f.parent && x != y
    requires Distinct(order) && forall z :: z in order ==> z in f.parent && z in f.clique
    ensures Times(AllPairs(f, order), x, y) ==
      if RootOf(f, x) == RootOf(f, y) && RootOf(f, x) in order then 1 else 0
  {
    if order != [] {
      var r := order[0];
      assert r !in order[1..];
      TimesAllPairs(f, order[1..], x, y);
      if IsRoot(f, r) {
        assert ListAt(f, r);
        assert x in f.clique[r] <==> InClass(f, x, r);
        assert y in f.clique[r] <==> InClass(f, y, r);
        TimesConcat(PairsOf(f.clique[r]), AllPairs(f, order[1..]), x, y);
        TimesPairsOf(f.clique[r], x, y);
      } else {
        assert [] + AllPairs(f, order[1..]) == AllPairs(f, order[1..]);
      }
    }
  }

  /** Each id of the structure, once: what a traversal of its table yields. */
  ghost predicate Enumerates(order: seq<Id>, f: Forest) {
    Distinct(order) && forall x :: x in order <==> x in f.parent
  }

  /** Two different ids are listed together exactly once if one clique holds them, and never otherwise. */
  lemma EachPairOnce(f: Forest, order: seq<Id>, x: Id, y: Id)
    requires Inv(f) && Enumerates(order, f) && x in f.parent && y in f.parent && x != y
    ensures Times(AllPairs(f, order), x, y) == if RootOf(f, x) == RootOf(f, y) then 1 else 0
  {
    TimesAllPairs(f, order, x, y);
  }

  lemma {:induction false} PairsOfMembers(c: seq<Id>, p: (Id, Id))
    requires Distinct(c) && p in PairsOf(c)
    ensures p.0 in c && p.1 in c && p.0 != p.1
  {
    assert c[0] !in c[1..];
    if p in Row(c[0], c[1..]) {
      RowMembers(c[0], c[1..], p);
    } else {
      PairsOfMembers(c[1..], p);
    }
  }

  lemma {:induction false} RowMembers(a: Id, rest: seq<Id>, p: (Id, Id))
    requires p in Row(a, rest)
    ensures p.0 == a && p.1 in rest
  {
    if p != (a, rest[0]) { RowMembers(a, rest[1..], p); }
  }

  /** Nothing is listed with itself or with an id of another clique. */
  lemma {:induction false} OnlyCliquePairs(f: Forest, order: seq<Id>, p: (Id, Id))
    requires Inv(f) && (forall z :: z in order ==> z in f.parent && z in f.clique) && p in AllPairs(f, order)
    ensures p.0 != p.1 && p.0 in f.parent && p.1 in f.parent && RootOf(f, p.0) == RootOf(f, p.1)
  {
    var r := order[0];
    if IsRoot(f, r) && p in PairsOf(f.clique[r]) {
      assert ListAt(f, r);
      PairsOfMembers(f.clique[r], p);
      assert InClass(f, p.0, r) && InClass(f, p.1, r);
    } else {
      OnlyCliquePairs(f, order[1..], p);
    }
  }

  /** Twice the number of pairs of a clique of k. */
  lemma {:induction false} PairsOfCount(c: seq<Id>)
    ensures 2 * |PairsOf(c)| == |c| * (|c| - 1)
  {
    if c != [] { PairsOfCount(c[1..]); }
  }

  function SumOfChoices(f: Forest, order: seq<Id>): nat
    requires forall x :: x in order ==> x in f.parent && x in f.clique
  {
    if order == [] then 0 else
    (if IsRoot(f, order[0]) then |f.clique[order[0]]| * (|f.clique[order[0]]| - 1) else 0) + SumOfChoices(f, order[1..])
  }

  /** The number of pairs is the sum of k(k-1)/2 over the cliques. */
  lemma {:induction false} AllPairsCount(f: Forest, order: seq<Id>)
    requires forall x :: x in order ==> x in f.parent && x in f.clique
    ensures 2 * |AllPairs(f, order)| == SumOfChoices(f, order)
  {
    if order != [] {
      AllPairsCount(f, order[1..]);
      PairsOfCount(f.clique[order[0]]);
    }
  }
}
