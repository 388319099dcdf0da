/** The linked lists of src/lists.c. A header cell is a node of which only `next` is used: ll_push and
    its kin take the address of any word that holds a list. What a comparator reads is not changed here,
    so it is a function of the node. */
module Lists {
  import opened Collections
  import opened StableSort

  class Node {
    var next: Node?
  }

  ghost predicate LinkAt(ns: seq<Node>, j: nat)
    requires j < |ns|
    reads ns[j]
  {
    ns[j].next == if j + 1 < |ns| then ns[j + 1] else null
  }

  /** The list that starts at `head` consists of these nodes. */
  ghost predicate IsList(head: Node?, ns: seq<Node>)
    reads ns
  {
    head == (if ns == [] then null else ns[0]) && Linked(ns)
  }

  /** Each node points to the next one, and the last is the end. */
  ghost predicate Linked(ns: seq<Node>)
    reads ns
  {
    forall j: nat {:trigger LinkAt(ns, j)} :: j < |ns| ==> LinkAt(ns, j)
  }

  lemma IsListTail(head: Node?, ns: seq<Node>)
    requires IsList(head, ns) && ns != []
    ensures head == ns[0] && IsList(head.next, ns[1..])
  {
    assert LinkAt(ns, 0);
    forall j: nat | j < |ns| - 1 ensures LinkAt(ns[1..], j) { assert LinkAt(ns, j + 1); }
  }

  lemma IsListCons(head: Node, ns: seq<Node>)
    requires IsList(head.next, ns)
    ensures IsList(head, [head] + ns)
  {
    var l := [head] + ns;
    forall j: nat | j < |l| ensures LinkAt(l, j) {
      if j > 0 { assert LinkAt(ns, j - 1); }
    }
  }

  /** A list that ends meets no node twice. */
  lemma {:induction false} ListDistinct(head: Node?, ns: seq<Node>)
    requires IsList(head, ns)
    ensures Distinct(ns)
  {
    forall i: nat, j: nat | i < j < |ns| ensures ns[i] != ns[j] { NotAgain(head, ns, i, j); }
  }

  lemma {:induction false} NotAgain(head: Node?, ns: seq<Node>, i: nat, j: nat)
    requires IsList(head, ns) && i < j < |ns|
    ensures ns[i] != ns[j]
    decreases |ns| - j
  {
    assert LinkAt(ns, i) && LinkAt(ns, j);
    if j + 1 < |ns| { NotAgain(head, ns, i + 1, j + 1); }
  }

  /** A list whose nodes keep their links is still the same list. */
  twostate lemma Kept(ns: seq<Node>)
    requires old(Linked(ns)) && forall y :: y in ns ==> y.next == old(y.next)
    ensures Linked(ns)
  {
    forall j: nat | j < |ns| ensures LinkAt(ns, j) { assert old(LinkAt(ns, j)); }
  }

  /** ll_nth for n >= 0 */
  method Nth(list: Node?, n: nat, ghost ns: seq<Node>) returns (l: Node?)
    requires IsList(list, ns)
    ensures l == if n < |ns| then ns[n] else null
  {
    l := list;
    var left: nat := n;
    ghost var rest := ns;
    while left > 0 && l != null
      invariant IsList(l, rest) && left <= n && |rest| <= |ns| && rest == ns[|ns| - |rest|..]
      invariant n - left == |ns| - |rest|
      decreases left
    {
      IsListTail(l, rest);
      l, left, rest := l.next, left - 1, rest[1..];
    }
    assert rest != [] ==> rest[0] == ns[|ns| - |rest|];
  }

  method Len(list: Node?, ghost ns: seq<Node>) returns (len: nat)
    requires IsList(list, ns)
    ensures len == |ns|
  {
    len := 0;
    var l := list;
    ghost var rest := ns;
    while l != null
      invariant IsList(l, rest) && len + |rest| == |ns|
      decreases |rest|
    {
      IsListTail(l, rest);
      l, len, rest := l.next, len + 1, rest[1..];
    }
  }

  method Push(lp: Node, node: Node, ghost ns: seq<Node>)
    requires IsList(lp.next, ns) && lp !in ns && node !in ns && lp != node
    modifies lp, node
    ensures lp.next == node && IsList(lp.next, [node] + ns)
  {
    node.next := lp.next;
    lp.next := node;
    Kept(ns);
    IsListCons(node, ns);
  }

  /** The first node comes off, unlinked. The list may not be empty. */
  method Pop(l: Node, ghost ns: seq<Node>) returns (first: Node)
    requires IsList(l.next, ns) && ns != [] && l !in ns
    modifies l, ns[0]
    ensures first == ns[0] && first.next == null && IsList(l.next, ns[1..])
  {
    ListDistinct(l.next, ns);
    IsListTail(l.next, ns);
    first := l.next;
    l.next := first.next;
    first.next := null;
    Kept(ns[1..]);
  }

  /** ll_reverse */
  method ReverseList(l: Node, ghost ns: seq<Node>)
    requires IsList(l.next, ns) && l !in ns
    modifies l, ns
    ensures IsList(l.next, Reverse(ns))
  {
    var r := new Node;
    r.next := null;
    ghost var rest, done := ns, [];
    while l.next != null
      invariant IsList(l.next, rest) && IsList(r.next, done) && Reverse(rest) + done == Reverse(ns)
      invariant r !in rest && Apart(rest, done) && Within(rest, ns) && Within(done, ns)
      modifies l, r, ns
      decreases |rest|
    {
      ListDistinct(l.next, rest);
      assert rest[0] in rest && rest == [rest[0]] + rest[1..];
      label Before:
      var p := Pop(l, rest);
      Kept@Before(done);
      rest := rest[1..];
      assert p !in rest;
      label Popped:
      Push(r, p, done);
      Kept@Popped(rest);
      done := [p] + done;
    }
    assert done == Reverse(ns) && l !in done;
    label End:
    l.next := r.next;
    Kept@End(done);
  }

  ghost predicate Apart(a: seq<Node>, b: seq<Node>) {
    forall x :: x in a ==> x !in b
  }

  ghost predicate Within(a: seq<Node>, b: seq<Node>) {
    forall x :: x in a ==> x in b
  }

  /** ll_split: the first n nodes and the others. There must be n nodes. */
  method Split(list: Node, outA: Node, outB: Node, n: nat, ghost ns: seq<Node>)
    requires IsList(list.next, ns) && n <= |ns|
    requires list !in ns && outA !in ns && outB !in ns && list != outA && list != outB && outA != outB
    modifies outA, outB, ns
    ensures IsList(outA.next, ns[..n]) && IsList(outB.next, ns[n..])
  {
    if n == 0 {
      outB.next := list.next;
      outA.next := null;
      Kept(ns);
      assert ns[0..] == ns;
      return;
    }
    ListDistinct(list.next, ns);
    outA.next := list.next;
    Kept(ns);
    var temp := Nth(list.next, n - 1, ns);
    assert LinkAt(ns, n - 1);
    outB.next := temp.next;
    temp.next := null;
    forall j: nat | j < n ensures LinkAt(ns[..n], j) { assert old(LinkAt(ns, j)); }
    forall j: nat | j < |ns| - n ensures LinkAt(ns[n..], j) { assert old(LinkAt(ns, j + n)); }
  }

  /** ll_sort_merge on two lists without a common node. */
  method SortMerge(listA: Node, listB: Node, c: Cmp<Node>, ghost a: seq<Node>, ghost b: seq<Node>, ghost nodes: set<Node>)
    returns (rest: Node?)
    requires (forall x :: x in a ==> x in nodes) && (forall x :: x in b ==> x in nodes)
    requires IsList(listA.next, a) && IsList(listB.next, b) && Apart(a, b)
    requires listA != listB && listA !in a && listA !in b && listB !in a && listB !in b
    modifies listA, listB, nodes
    ensures IsList(rest, Merge(c, a, b))
    decreases |a| + |b|
  {
    if listB.next == null {
      return listA.next;
    }
    if listA.next == null {
      return listB.next;
    }
    var h;
    ghost var a', b' := a, b;
    ListDistinct(listA.next, a);
    ListDistinct(listB.next, b);
    assert a[0] in a && b[0] in b;
    if c(listA.next, listB.next) < 0 {
      h := Pop(listA, a);
      Kept(b);
      a' := a[1..];
    } else {
      h := Pop(listB, b);
      Kept(a);
      b' := b[1..];
    }
    rest := SortMerge(listA, listB, c, a', b', nodes);
    MergeMember(c, a', b', h);
    rest := PushOn(rest, h, Merge(c, a', b'));
  }

  /** The last lines of ll_sort_merge: `rest` is a variable that holds a list. */
  method PushOn(list: Node?, h: Node, ghost m: seq<Node>) returns (rest: Node?)
    requires IsList(list, m) && h !in m
    modifies h
    ensures IsList(rest, [h] + m)
  {
    var cell := new Node;
    cell.next := list;
    Push(cell, h, m);
    rest := cell.next;
  }

  lemma SortWithin(c: Cmp<Node>, s: seq<Node>)
    ensures Within(Sort(c, s), s)
  {
    hide Sort;
    forall x | x in Sort(c, s) ensures x in s { SortMember(c, s, x); }
  }

  /** The two recursive calls of ll_sort. */
  method SortBoth(a: Node, b: Node, c: Cmp<Node>, ghost front: seq<Node>, ghost back: seq<Node>)
    requires IsList(a.next, front) && IsList(b.next, back) && Apart(front, back) && front != [] && back != []
    requires a != b && a !in front && a !in back && b !in front && b !in back
    modifies a, b, front, back
    ensures IsList(a.next, Sort(c, front)) && IsList(b.next, Sort(c, back))
    decreases |front| + |back|, 0
  {
    hide Sort;
    SortWithin(c, front);
    label Before:
    SortList(a, c, front);
    Kept@Before(back);
    label Between:
    SortList(b, c, back);
    Kept@Between(Sort(c, front));
  }

  lemma Halves(ns: seq<Node>) returns (front: seq<Node>, back: seq<Node>)
    requires Distinct(ns) && |ns| > 1
    ensures front == ns[..|ns| / 2] && back == ns[|ns| / 2..] && front != [] && back != []
    ensures Apart(front, back) && Within(front, ns) && Within(back, ns) && ns == front + back
  {
    front, back := ns[..|ns| / 2], ns[|ns| / 2..];
  }

  lemma SortParts(c: Cmp<Node>, ns: seq<Node>, front: seq<Node>, back: seq<Node>)
    requires |ns| > 1 && front == ns[..|ns| / 2] && back == ns[|ns| / 2..]
    requires Apart(front, back) && Within(front, ns) && Within(back, ns)
    ensures Sort(c, ns) == Merge(c, Sort(c, front), Sort(c, back))
    ensures Apart(Sort(c, front), Sort(c, back)) && Within(Sort(c, front), ns) && Within(Sort(c, back), ns)
  {
    assert Sort(c, ns) == Merge(c, Sort(c, front), Sort(c, back));
    hide Sort, Merge;
    SortWithin(c, front);
    SortWithin(c, back);
  }

  /** ll_sort of two or more nodes, up to its last assignment. */
  method SortHalves(lp: Node, c: Cmp<Node>, len: nat, ghost ns: seq<Node>) returns (merged: Node?)
    requires IsList(lp.next, ns) && lp !in ns && len == |ns| > 1
    modifies ns
    ensures IsList(merged, Sort(c, ns))
    decreases |ns|, 1
  {
    ListDistinct(lp.next, ns);
    ghost var front, back := Halves(ns);
    hide Sort, Merge, Distinct;
    SortParts(c, ns, front, back);
    var a, b := new Node, new Node;
    Kept(ns);
    Split(lp, a, b, len / 2, ns);
    SortBoth(a, b, c, front, back);
    merged := SortMerge(a, b, c, Sort(c, front), Sort(c, back), set x | x in ns);
  }

  /** ll_sort relinks the nodes of the list in the order of its specification. */
  method SortList(lp: Node, c: Cmp<Node>, ghost ns: seq<Node>)
    requires IsList(lp.next, ns) && lp !in ns
    modifies lp, ns
    ensures IsList(lp.next, Sort(c, ns))
    decreases |ns|, 2
  {
    var len := Len(lp.next, ns);
    if len <= 1 {
      return;
    }
    hide Sort;
    var merged := SortHalves(lp, c, len, ns);
    SortMember(c, ns, lp);
    label End:
    lp.next := merged;
    Kept@End(Sort(c, ns));
  }
}
