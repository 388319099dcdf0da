/** The clique lists of src/spec_to_specs.c as one successor relation: which id follows which in the list
    it is in. */
module CliqueLists {
  import opened SpecForest

  type Succ = map<Id, Id>

  /** Along r's list each id is followed by the next one, and the last by none. */
  ghost predicate ThreadedAt(f: Forest, succ: Succ, r: Id)
    requires r in f.clique
  {
    forall i: nat {:trigger f.clique[r][i]} :: i < |f.clique[r]| ==>
      if i + 1 < |f.clique[r]| then f.clique[r][i] in succ && succ[f.clique[r][i]] == f.clique[r][i + 1]
      else f.clique[r][i] !in succ
  }

  ghost predicate Threaded(f: Forest, succ: Succ) {
    && (forall r {:trigger ThreadedAt(f, succ, r)} :: r in f.clique ==> ThreadedAt(f, succ, r))
    && succ.Keys <= f.parent.Keys && forall y :: y in succ ==> succ[y] in f.parent
  }

  lemma AddThreaded(f: Forest, succ: Succ, x: Id)
    requires Inv(f) && Threaded(f, succ) && x !in f.parent
    ensures Threaded(Add(f, x), succ)
  {
    var g := Add(f, x);
    forall r | r in g.clique ensures ThreadedAt(g, succ, r) {
      if r != x { assert ThreadedAt(f, succ, r); }
    }
  }

  /** A representative's list is not empty, and its ids are known. */
  lemma CliqueOfRoot(f: Forest, r: Id)
    requires Inv(f) && r in f.parent && IsRoot(f, r)
    ensures f.clique[r] != [] && f.clique[r][0] in f.parent && f.clique[r][|f.clique[r]| - 1] in f.parent
  {
    assert ListAt(f, r) && InClass(f, r, r);
    assert r in f.clique[r];
    assert InClass(f, f.clique[r][0], r) && InClass(f, f.clique[r][|f.clique[r]| - 1], r);
  }

  /** The ends of each list are known ids. */
  ghost predicate KnownEnds(f: Forest) {
    forall x :: x in f.clique && f.clique[x] != [] ==>
      f.clique[x][0] in f.parent && f.clique[x][|f.clique[x]| - 1] in f.parent
  }

  lemma EndsKnown(f: Forest)
    requires Inv(f)
    ensures KnownEnds(f)
  {
    forall x | x in f.clique && f.clique[x] != []
      ensures f.clique[x][0] in f.parent && f.clique[x][|f.clique[x]| - 1] in f.parent
    {
      assert ListAt(f, x);
      assert f.clique[x][0] in f.clique[x] && f.clique[x][|f.clique[x]| - 1] in f.clique[x];
      assert InClass(f, f.clique[x][0], x) && InClass(f, f.clique[x][|f.clique[x]| - 1], x);
    }
  }

  /** One list spliced behind another: only the link out of its last id is new. */
  lemma LinkThreaded(f: Forest, succ: Succ, win: Id, lose: Id)
    requires Inv(f) && Threaded(f, succ) && Linkable(f, win, lose)
    requires f.clique[win] != [] && f.clique[lose] != [] && f.clique[lose][0] in f.parent
    requires f.clique[win][|f.clique[win]| - 1] in f.parent
    ensures Threaded(Link(f, win, lose), succ[f.clique[win][|f.clique[win]| - 1] := f.clique[lose][0]])
  {
    var g, a, b := Link(f, win, lose), f.clique[win], f.clique[lose];
    var tail := a[|a| - 1];
    var succ' := succ[tail := b[0]];
    forall r | r in g.clique ensures ThreadedAt(g, succ', r) {
      assert ThreadedAt(f, succ, r) && ThreadedAt(f, succ, win) && ThreadedAt(f, succ, lose);
      assert ListAt(f, r) && ListAt(f, win) && ListAt(f, lose);
      assert InClass(f, tail, win);
      if r == win {
        forall i: nat | i < |b| ensures b[i] != tail { assert b[i] in b && InClass(f, b[i], lose); }
        assert forall i: nat :: i < |a| - 1 ==> a[i] != tail;
        assert g.clique[r] == a + b;
      } else if r != lose {
        forall i: nat | i < |f.clique[r]| ensures f.clique[r][i] != tail {
          assert f.clique[r][i] in f.clique[r] && InClass(f, f.clique[r][i], r);
        }
      }
    }
  }

  /** All that a splice of two representatives' lists needs, and all that it keeps. */
  lemma LinkSound(f: Forest, succ: Succ, win: Id, lose: Id) returns (succ': Succ)
    requires Inv(f) && Threaded(f, succ) && Linkable(f, win, lose) && f.size[win] >= f.size[lose]
    ensures f.clique[win] != [] && f.clique[lose] != [] && KnownEnds(f)
    ensures succ' == succ[f.clique[win][|f.clique[win]| - 1] := f.clique[lose][0]]
    ensures Inv(Link(f, win, lose)) && Threaded(Link(f, win, lose), succ')
  {
    CliqueOfRoot(f, win);
    CliqueOfRoot(f, lose);
    EndsKnown(f);
    LinkInv(f, win, lose);
    LinkThreaded(f, succ, win, lose);
    succ' := succ[f.clique[win][|f.clique[win]| - 1] := f.clique[lose][0]];
  }

  /** Shortening touches no list. */
  lemma SameLists(f: Forest, g: Forest, succ: Succ)
    requires Threaded(f, succ) && g.clique == f.clique && g.parent.Keys == f.parent.Keys
    ensures Threaded(g, succ)
  {
    forall r | r in g.clique ensures ThreadedAt(g, succ, r) { assert ThreadedAt(f, succ, r); }
  }

  /** What a search for a representative leaves as it was. */
  ghost predicate SameSets(f: Forest, g: Forest) {
    && g.clique == f.clique && g.parent.Keys == f.parent.Keys
    && forall x :: x in f.parent ==> (IsRoot(g, x) <==> IsRoot(f, x))
  }

  lemma SplitSameSets(f: Forest, x: Id)
    requires Climbs(f) && x in f.parent
    ensures SameSets(f, Split(f, x)) && (RootOf(f, x) == x <==> IsRoot(f, x))
  {
    SplitKeeps(f, x);
  }
}
