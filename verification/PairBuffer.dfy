/** The growing array of pairs that callers of init_similar_pairs hand in by reference. */
module PairBuffer {
  import opened Collections
  import opened SpecForest
  import opened SimilarPairs

  const MATCHES_CHUNK_SIZE: nat := 1000

  datatype Pair = Pair(spec1: Id, spec2: Id, relation: int)

  function Positive(s: seq<(Id, Id)>): (r: seq<Pair>)
    ensures |r| == |s|
  {
    seq(|s|, k requires 0 <= k < |s| => Pair(s[k].0, s[k].1, 1))
  }

  // ---------- what a list of pairs says ----------

  predicate OfTwo(p: Pair, x: Id, y: Id) {
    (p.spec1 == x && p.spec2 == y) || (p.spec1 == y && p.spec2 == x)
  }

  /** How many of the pairs are of x and y, in either order. */
  function Listings(l: seq<Pair>, x: Id, y: Id): nat {
    if l == [] then 0 else (if OfTwo(l[0], x, y) then 1 else 0) + Listings(l[1..], x, y)
  }

  /** The pairs are of two ids each, all similar. */
  ghost predicate TwoSimilar(l: seq<Pair>) {
    forall p :: p in l ==> p.spec1 != p.spec2 && p.relation == 1
  }

  /** The pairs of one list of ids: any two of its members once, no others, k(k-1)/2 in all. */
  ghost predicate PairsWithin(c: seq<Id>, l: seq<Pair>) {
    && (forall x, y :: x != y ==> Listings(l, x, y) == if x in c && y in c then 1 else 0)
    && TwoSimilar(l) && 2 * |l| == |c| * (|c| - 1)
  }

  /** The pairs of a whole structure: two different ids once if one set holds both, and never otherwise;
      nothing but its ids; and the sum of k(k-1)/2 over its sets in all. */
  ghost predicate ExactPairs(f: Forest, order: seq<Id>, l: seq<Pair>) {
    && Inv(f) && Enumerates(order, f) && (forall x :: x in order ==> x in f.clique)
    && (forall x, y :: x in f.parent && y in f.parent && x != y ==>
          Listings(l, x, y) == if RootOf(f, x) == RootOf(f, y) then 1 else 0)
    && (forall p :: p in l ==> p.spec1 in f.parent && p.spec2 in f.parent)
    && TwoSimilar(l) && 2 * |l| == SumOfChoices(f, order)
  }

  lemma {:induction false} PositiveListings(s: seq<(Id, Id)>, x: Id, y: Id)
    ensures Listings(Positive(s), x, y) == Times(s, x, y)
  {
    if s != [] {
      assert Positive(s)[1..] == Positive(s[1..]);
      PositiveListings(s[1..], x, y);
    }
  }

  lemma PairsWithinList(c: seq<Id>)
    requires Distinct(c)
    ensures PairsWithin(c, Positive(PairsOf(c)))
  {
    var s := PairsOf(c);
    forall x, y | x != y ensures Listings(Positive(s), x, y) == if x in c && y in c then 1 else 0 {
      PositiveListings(s, x, y);
      TimesPairsOf(c, x, y);
    }
    forall p | p in Positive(s) ensures p.spec1 != p.spec2 && p.relation == 1 {
      var k: nat :| k < |s| && Positive(s)[k] == p;
      PairsOfMembers(c, s[k]);
    }
    PairsOfCount(c);
  }

  lemma SimilarIsExact(f: Forest, order: seq<Id>)
    requires Inv(f) && Enumerates(order, f) && forall x :: x in order ==> x in f.parent && x in f.clique
    ensures ExactPairs(f, order, Positive(AllPairs(f, order)))
  {
    var s := AllPairs(f, order);
    forall x, y | x in f.parent && y in f.parent && x != y
      ensures Listings(Positive(s), x, y) == if RootOf(f, x) == RootOf(f, y) then 1 else 0
    {
      PositiveListings(s, x, y);
      EachPairOnce(f, order, x, y);
    }
    forall p | p in Positive(s)
      ensures p.spec1 != p.spec2 && p.relation == 1 && p.spec1 in f.parent && p.spec2 in f.parent
    {
      var k: nat :| k < |s| && Positive(s)[k] == p;
      OnlyCliquePairs(f, order, s[k]);
    }
    AllPairsCount(f, order);
  }

  class PairBuffer {
    var pairs: array<Pair>
    var chunks: nat
    var counter: nat

    ghost predicate Valid()
      reads this
    {
      pairs.Length == chunks * MATCHES_CHUNK_SIZE && counter <= pairs.Length
    }

    ghost function Listed(): seq<Pair>
      requires Valid()
      reads this, pairs
    {
      pairs[..counter]
    }

    constructor ()
      ensures Valid() && Listed() == [] && fresh(pairs)
    {
      pairs := new Pair[0];
      chunks, counter := 0, 0;
    }

    /** The body of the two loops: one more chunk when the array is full, then the pair. */
    method Append(a: Id, b: Id)
      requires Valid()
      modifies this, pairs
      ensures Valid() && Listed() == old(Listed()) + [Pair(a, b, 1)]
      ensures pairs == old(pairs) || fresh(pairs)
    {
      if counter + 1 > chunks * MATCHES_CHUNK_SIZE {
        chunks := chunks + 1;
        var bigger := new Pair[chunks * MATCHES_CHUNK_SIZE](i requires 0 <= i reads this, pairs =>
          if i < pairs.Length then pairs[i] else Pair("", "", 0));
        assert bigger[..counter] == pairs[..counter];
        pairs := bigger;
      }
      pairs[counter] := Pair(a, b, 1);
      counter := counter + 1;
    }
  }
}
