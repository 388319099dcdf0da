/** init_similar_pairs: the pairs of every clique, read off the linked lists (src/spec_to_specs.c:250-274). */
module PairListing {
  import opened Collections
  import opened SpecForest
  import opened CliqueLists
  import opened SimilarPairs
  import opened PairBuffer
  import opened Sts
  import opened Wrappers
  import opened ProbeTable
  import opened Traversal
  import opened TableLoops
  import HashTable

  ghost predicate LinkAt(ns: seq<StrNode>, j: nat)
    requires j < |ns|
    reads ns[j]
  {
    ns[j].next == if j + 1 < |ns| then ns[j + 1] else null
  }

  /** The nodes are linked in this order, and the last is the end. */
  ghost predicate IsList(ns: seq<StrNode>)
    reads ns
  {
    forall j: nat {:trigger LinkAt(ns, j)} :: j < |ns| ==> LinkAt(ns, j)
  }

  ghost function Ids(ns: seq<StrNode>): (r: seq<Id>)
    ensures |r| == |ns| && forall j: nat :: j < |ns| ==> r[j] == ns[j].data
  {
    seq(|ns|, j requires 0 <= j < |ns| => ns[j].data)
  }

  lemma RowCons(c: seq<Id>, i: nat, j: nat)
    requires i < |c| && j < |c|
    ensures Positive(Row(c[i], c[j..])) == [Pair(c[i], c[j], 1)] + Positive(Row(c[i], c[j + 1..]))
  {
    assert c[j..][1..] == c[j + 1..];
  }

  lemma PairsCons(c: seq<Id>, i: nat)
    requires i < |c|
    ensures Positive(PairsOf(c[i..])) == Positive(Row(c[i], c[i + 1..])) + Positive(PairsOf(c[i + 1..]))
  {
    assert c[i..][1..] == c[i + 1..];
  }

  lemma NoPairs(c: seq<Id>, x: Id)
    ensures Positive(PairsOf(c[|c|..])) == [] && Positive(Row(x, c[|c|..])) == [] && c[0..] == c
  {
  }

  /** The inner loop of init_similar_pairs: a node's id with every id behind it. */
  method PairsFrom(first: StrNode, out: PairBuffer, ghost ns: seq<StrNode>, ghost i: nat)
    requires IsList(ns) && i < |ns| && first == ns[i] && out.Valid()
    modifies out, out.pairs
    ensures out.Valid() && (out.pairs == old(out.pairs) || fresh(out.pairs))
    ensures out.Listed() == old(out.Listed()) + Positive(Row(Ids(ns)[i], Ids(ns)[i + 1..]))
  {
    hide Positive, Row;
    ghost var c, before := Ids(ns), out.Listed();
    NoPairs(c, c[i]);
    assert LinkAt(ns, i);
    var b := first.next;
    ghost var j := i + 1;
    while b != null
      invariant out.Valid() && (out.pairs == old(out.pairs) || fresh(out.pairs))
      invariant i < j <= |ns| && b == if j < |ns| then ns[j] else null
      invariant out.Listed() + Positive(Row(c[i], c[j..])) == before + Positive(Row(c[i], c[i + 1..]))
      decreases |ns| - j
    {
      assert LinkAt(ns, j);
      RowCons(c, i, j);
      ghost var l := out.Listed();
      out.Append(first.data, b.data);
      Regroup(l, [Pair(c[i], c[j], 1)], Positive(Row(c[i], c[j + 1..])));
      b := b.next;
      j := j + 1;
    }
  }

  /** The outer loop: every node of the list in turn. */
  method PairsLoop(head: StrNode?, out: PairBuffer, ghost ns: seq<StrNode>)
    requires IsList(ns) && head == (if ns == [] then null else ns[0]) && out.Valid()
    modifies out, out.pairs
    ensures out.Valid() && (out.pairs == old(out.pairs) || fresh(out.pairs))
    ensures out.Listed() == old(out.Listed()) + Positive(PairsOf(Ids(ns)))
  {
    hide Positive, Row, PairsOf;
    ghost var c, before := Ids(ns), out.Listed();
    NoPairs(c, "");
    var a := head;
    ghost var i: nat := 0;
    while a != null
      invariant out.Valid() && (out.pairs == old(out.pairs) || fresh(out.pairs))
      invariant i <= |ns| && a == if i < |ns| then ns[i] else null
      invariant out.Listed() + Positive(PairsOf(c[i..])) == before + Positive(PairsOf(c))
      decreases |ns| - i
    {
      assert LinkAt(ns, i);
      PairsCons(c, i);
      ghost var l := out.Listed();
      PairsFrom(a, out, ns, i);
      Regroup(l, Positive(Row(c[i], c[i + 1..])), Positive(PairsOf(c[i + 1..])));
      a := a.next;
      i := i + 1;
    }
  }

  /** The two loops over one list: in `PairsWithin`, what the list of pairs then says of it. */
  method PairsOfList(head: StrNode?, out: PairBuffer, ghost ns: seq<StrNode>)
    requires IsList(ns) && head == (if ns == [] then null else ns[0]) && out.Valid()
    modifies out, out.pairs
    ensures out.Valid() && (out.pairs == old(out.pairs) || fresh(out.pairs))
    ensures out.Listed() == old(out.Listed()) + Positive(PairsOf(Ids(ns)))
    ensures Distinct(Ids(ns)) ==> PairsWithin(Ids(ns), out.Listed()[|old(out.Listed())|..])
  {
    ghost var c := Ids(ns);
    hide PairsWithin, Positive, PairsOf, Distinct;
    if Distinct(c) { PairsWithinList(c); }
    PairsLoop(head, out, ns);
  }

  /** The j-th node of a representative's list, and the one after it. */
  lemma NodeInList(sts: Sts, r: Id, j: nat)
    requires sts.Valid() && r in sts.dict && IsRoot(sts.model, r) && j < |sts.model.clique[r]|
    ensures var c := sts.model.clique[r]; var node := sts.node;
      && c[j] in node && node[c[j]].data == c[j]
      && (if j + 1 < |c| then c[j + 1] in node && node[c[j]].next == node[c[j + 1]] else node[c[j]].next == null)
  {
    var c := sts.model.clique[r];
    assert ListAt(sts.model, r) && ThreadedAt(sts.model, sts.succ, r);
    assert c[j] in c && InClass(sts.model, c[j], r);
    assert NodeOk(sts.node[c[j]], c[j], sts.succ, sts.node);
    if j + 1 < |c| { assert c[j + 1] in c && InClass(sts.model, c[j + 1], r); }
  }

  /** The nodes of a representative's list, from `similar` to `similarTail`: one for each id of its clique. */
  lemma ListOf(sts: Sts, r: Id) returns (ns: seq<StrNode>)
    requires sts.Valid() && r in sts.dict && IsRoot(sts.model, r)
    ensures IsList(ns) && Ids(ns) == sts.model.clique[r] && Distinct(ns) && |ns| == sts.dict[r].similarLen > 0
    ensures ns[0] == sts.dict[r].similar && ns[|ns| - 1] == sts.dict[r].similarTail
  {
    var c := sts.model.clique[r];
    CliqueOfRoot(sts.model, r);
    forall j: nat | j < |c| ensures c[j] in sts.node { NodeInList(sts, r, j); }
    var n := sts.node;
    ns := seq(|c|, j requires 0 <= j < |c| && c[j] in n => n[c[j]]);
    forall j: nat | j < |ns| ensures LinkAt(ns, j) { NodeInList(sts, r, j); }
    forall j: nat | j < |ns| ensures ns[j].data == c[j] { NodeInList(sts, r, j); }
    assert ListAt(sts.model, r);
    forall i: nat, j: nat | i < j < |ns| ensures ns[i] != ns[j] { assert ns[i].data == c[i] && ns[j].data == c[j]; }
    assert EntryOk(sts.dict[r], r, sts.model, sts.node);
  }

  /** Any other entry has no list, and no node is in two lists. */
  lemma NoOtherLists(sts: Sts, x: Id, r: Id, s: Id, ns: seq<StrNode>, ms: seq<StrNode>, n: StrNode)
    requires sts.Valid() && x in sts.dict && x in sts.model.parent && r in sts.model.parent && s in sts.model.parent
    requires r in sts.model.clique && s in sts.model.clique && IsRoot(sts.model, r) && IsRoot(sts.model, s)
    requires Ids(ns) == sts.model.clique[r] && Ids(ms) == sts.model.clique[s] && n in ns && n in ms
    ensures !IsRoot(sts.model, x) ==> sts.dict[x].similar == null && sts.dict[x].similarTail == null
    ensures r == s
  {
    assert EntryOk(sts.dict[x], x, sts.model, sts.node) && ListAt(sts.model, x);
    assert ListAt(sts.model, r) && ListAt(sts.model, s);
    var i: nat :| i < |ns| && ns[i] == n;
    var j: nat :| j < |ms| && ms[j] == n;
    assert Ids(ns)[i] == n.data == Ids(ms)[j];
    assert InClass(sts.model, n.data, r) && InClass(sts.model, n.data, s);
  }

  /** Whether an entry is its own representative; the search shortens chains. */
  method IsRepresentative(sts: Sts, sp: SpecEntry, ghost out: PairBuffer, ghost x: Id)
    returns (found: bool, ghost ns: seq<StrNode>)
    requires sts.Valid() && x in sts.dict && sts.dict[x] == sp && out.Valid()
    modifies sts`model, sts.dict.Values`parent
    ensures out.Valid() && out.pairs == old(out.pairs) && out.Listed() == old(out.Listed())
    ensures sts.Valid() && SameSets(old(sts.model), sts.model) && x in old(sts.model).parent && x in old(sts.model).clique
    ensures found == IsRoot(old(sts.model), x)
    ensures found ==> IsList(ns) && Ids(ns) == old(sts.model).clique[x] && ns != [] && ns[0] == sp.similar
  {
    assert EntryOk(sp, x, sts.model, sts.node);
    SplitSameSets(sts.model, x);
    var root, _ := sts.FindRoot(sp);
    found := sp == root;
    ns := [];
    if found { ns := ListOf(sts, x); }
  }

  /** The list of a representative is listed; the structure stays as it is. */
  method ListNodes(sts: Sts, sp: SpecEntry, out: PairBuffer, ghost ns: seq<StrNode>)
    requires sts.Valid() && IsList(ns) && ns != [] && ns[0] == sp.similar && out.Valid()
    modifies out, out.pairs
    ensures sts.Valid() && sts.model == old(sts.model)
    ensures out.Valid() && (out.pairs == old(out.pairs) || fresh(out.pairs))
    ensures out.Listed() == old(out.Listed()) + Positive(PairsOf(Ids(ns)))
  {
    PairsOfList(sp.similar, out, ns);
    Untouched(sts);
  }

  twostate lemma Untouched(sts: Sts)
    requires old(sts.Valid()) && unchanged(sts) && unchanged(sts.dict.Values) && unchanged(sts.node.Values)
    ensures sts.Valid()
  {
  }

  /** The body of the loop over the entries. */
  method ListEntry(sts: Sts, sp: SpecEntry, ghost x: Id, out: PairBuffer)
    requires sts.Valid() && x in sts.dict && sts.dict[x] == sp && out.Valid()
    modifies sts`model, sts.dict.Values`parent, out, out.pairs
    ensures sts.Valid() && out.Valid() && (out.pairs == old(out.pairs) || fresh(out.pairs))
    ensures SameSets(old(sts.model), sts.model) && x in old(sts.model).parent && x in old(sts.model).clique
    ensures out.Listed() == old(out.Listed()) + PairsAt(old(sts.model), x)
  {
    hide Sts.Valid;
    var found, ns := IsRepresentative(sts, sp, out, x);
    if found {
      ListNodes(sts, sp, out, ns);
    }
  }

  ghost function PairsAt(f: Forest, x: Id): seq<Pair>
    requires x in f.parent && x in f.clique
  {
    if IsRoot(f, x) then Positive(PairsOf(f.clique[x])) else []
  }

  ghost predicate Known(order: seq<Id>, f: Forest) {
    forall x :: x in order ==> x in f.parent && x in f.clique
  }

  /** The pairs of every clique, with their relation, in the order of the entries. */
  ghost function Similar(f: Forest, order: seq<Id>): seq<Pair>
    requires Known(order, f)
  {
    Positive(AllPairs(f, order))
  }

  /** What is listed in the end when l is listed and the entries from k on are still to come. */
  ghost function Total(l: seq<Pair>, f: Forest, order: seq<Id>, k: nat): seq<Pair>
    requires Known(order, f) && k <= |order|
  {
    l + Positive(AllPairs(f, order[k..]))
  }

  lemma TotalStep(l: seq<Pair>, f: Forest, order: seq<Id>, k: nat)
    requires k < |order| && Known(order, f)
    ensures Total(l, f, order, k) == Total(l + PairsAt(f, order[k]), f, order, k + 1)
  {
    assert order[k..][1..] == order[k + 1..];
  }

  lemma TotalEnds(l: seq<Pair>, f: Forest, order: seq<Id>)
    requires Known(order, f)
    ensures Total(l, f, order, 0) == l + Similar(f, order) && Total(l, f, order, |order|) == l
  {
    assert order[0..] == order;
  }

  /** What a traversal of the table hands out is each id of the structure, once. */
  lemma TraversalEnumerates(b: seq<Bucket<Id, SpecEntry>>, f: Forest)
    requires UniqueKeys(b) && Abs(b).Keys == f.parent.Keys == f.clique.Keys
    ensures Enumerates(KeysVisited(b, 0), f) && Known(KeysVisited(b, 0), f)
  {
    assert b[0..] == b;
    KeysOnce(b, 0);
  }

  /** The traversal before its i-th turn: the keys from i on are still to come, and `entry` is the next. */
  ghost predicate AtEntry(b: seq<Bucket<Id, SpecEntry>>, order: seq<Id>, i: nat, entry: Option<nat>, state: nat) {
    i <= |order| && if entry.Some?
      then entry.value < |b| && b[entry.value].Occupied? && order[i..] == [b[entry.value].key] + KeysVisited(b, state)
      else order[i..] == []
  }

  lemma AtEntryKey(b: seq<Bucket<Id, SpecEntry>>, order: seq<Id>, i: nat, entry: Option<nat>, state: nat)
    requires AtEntry(b, order, i, entry, state)
    ensures entry.None? <==> i == |order|
    ensures entry.Some? ==> i < |order| && entry.value < |b| && b[entry.value].Occupied?
    ensures entry.Some? ==> order[i] == b[entry.value].key && order[i + 1..] == KeysVisited(b, state)
  {
    if entry.Some? { assert order[i] == order[i..][0] && order[i + 1..] == order[i..][1..]; }
  }

  method Advance(table: HashTable.HashTable<Id, SpecEntry>, n: nat, ghost order: seq<Id>, ghost i: nat)
    returns (entry: Option<nat>, state: nat)
    requires i <= |order| && order[i..] == KeysVisited(table.buf[..], n)
    ensures AtEntry(table.buf[..], order, i, entry, state)
  {
    entry, state := NextEntry(table, n, table.buf[..]);
  }

  /** The pairs of every clique go behind those already listed, while the searches shorten chains. The table
      hands out the entries: each of its keys once, so no pair is missed or listed twice. */
  method InitSimilarPairs(sts: Sts, table: HashTable.HashTable<Id, SpecEntry>, out: PairBuffer)
    returns (ghost order: seq<Id>)
    requires sts.Valid() && table.Valid() && table.Entries() == sts.dict && out.Valid()
    modifies sts`model, sts.dict.Values`parent, out, out.pairs
    ensures sts.Valid() && out.Valid() && SameSets(old(sts.model), sts.model)
    ensures order == KeysVisited(table.buf[..], 0) && Enumerates(order, old(sts.model)) && Known(order, old(sts.model))
    ensures out.Listed() == old(out.Listed()) + Similar(old(sts.model), order)
    ensures ExactPairs(old(sts.model), order, out.Listed()[|old(out.Listed())|..])
  {
    hide *;
    ghost var f, before := sts.model, out.Listed();
    order := TraversalOf(sts, table);
    SimilarExact(sts, order);
    ListAll(sts, table, out, f, order, before);
    TotalEnds(before, f, order);
    TotalEnds(out.Listed(), f, order);
  }

  lemma SimilarExact(sts: Sts, order: seq<Id>)
    requires sts.Valid() && Enumerates(order, sts.model) && Known(order, sts.model)
    ensures ExactPairs(sts.model, order, Similar(sts.model, order))
  {
    SimilarIsExact(sts.model, order);
  }

  lemma TraversalOf(sts: Sts, table: HashTable.HashTable<Id, SpecEntry>) returns (order: seq<Id>)
    requires sts.Valid() && table.Valid() && table.Entries() == sts.dict
    ensures order == KeysVisited(table.buf[..], 0) && order[0..] == order && |order| == table.bufLoad
    ensures Enumerates(order, sts.model) && Known(order, sts.model) && SameSets(sts.model, sts.model)
  {
    var b := table.buf[..];
    order := KeysVisited(b, 0);
    LoadVisits(table);
    TraversalEnumerates(b, sts.model);
  }

  /** The loop over the entries. */
  method ListAll(sts: Sts, table: HashTable.HashTable<Id, SpecEntry>, out: PairBuffer,
                 ghost f: Forest, ghost order: seq<Id>, ghost before: seq<Pair>)
    requires sts.Valid() && table.Valid() && table.Entries() == sts.dict && out.Valid() && SameSets(f, sts.model)
    requires Known(order, f) && order[0..] == KeysVisited(table.buf[..], 0) && |order| == table.bufLoad
    requires before == out.Listed()
    modifies sts`model, sts.dict.Values`parent, out, out.pairs
    ensures sts.Valid() && out.Valid() && SameSets(f, sts.model)
    ensures Total(out.Listed(), f, order, |order|) == Total(before, f, order, 0)
  {
    hide *;
    var i: nat := 0;
    var entry, state := Advance(table, 0, order, 0);
    AtEntryKey(table.buf[..], order, 0, entry, state);
    while entry.Some? && i < table.bufLoad
      invariant sts.Valid() && out.Valid() && (out.pairs == old(out.pairs) || fresh(out.pairs))
      invariant SameSets(f, sts.model) && i <= |order| && (entry.None? <==> i == |order|)
      invariant AtEntry(table.buf[..], order, i, entry, state)
      invariant Total(out.Listed(), f, order, i) == Total(before, f, order, 0)
      decreases table.bufLoad - i
    {
      AtEntryKey(table.buf[..], order, i, entry, state);
      var sp := LookUp(table, entry.value);
      ListNext(sts, f, order, i, sp, out);
      i := i + 1;
      entry, state := Advance(table, state, order, i);
      AtEntryKey(table.buf[..], order, i, entry, state);
    }
  }

  /** One turn of that loop. */
  method ListNext(sts: Sts, ghost f: Forest, ghost order: seq<Id>, ghost k: nat, sp: SpecEntry, out: PairBuffer)
    requires sts.Valid() && SameSets(f, sts.model) && Known(order, f) && k < |order| && out.Valid()
    requires order[k] in sts.dict && sts.dict[order[k]] == sp
    modifies sts`model, sts.dict.Values`parent, out, out.pairs
    ensures sts.Valid() && SameSets(f, sts.model) && out.Valid() && (out.pairs == old(out.pairs) || fresh(out.pairs))
    ensures Total(out.Listed(), f, order, k + 1) == Total(old(out.Listed()), f, order, k)
  {
    ghost var l, g := out.Listed(), sts.model;
    hide *;
    ListEntry(sts, sp, order[k], out);
    SameSetsTwice(f, g, sts.model, order[k]);
    TotalStep(l, f, order, k);
  }

  lemma SameSetsTwice(f: Forest, g: Forest, h: Forest, x: Id)
    requires SameSets(f, g) && SameSets(g, h) && x in f.parent && x in f.clique
    ensures SameSets(f, h) && PairsAt(g, x) == PairsAt(f, x)
  {
  }

  lemma Regroup<T>(a: seq<T>, b: seq<T>, c: seq<T>)
    ensures a + (b + c) == (a + b) + c
  {
  }
}
