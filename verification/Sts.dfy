/** The STS of src/spec_to_specs.c in linked objects: entries by id, and the cliques as lists of nodes
    spliced end to end. */
module Sts {
  import opened SpecForest
  import opened CliqueLists

  class StrNode {
    var next: StrNode?
    const data: Id

    constructor (data: Id)
      ensures this.data == data && next == null
    {
      this.data, next := data, null;
    }
  }

  class SpecEntry {
    const id: Id
    var parent: Id
    var similar: StrNode?
    var similarTail: StrNode?
    var similarLen: nat

    constructor (id: Id, node: StrNode)
      ensures this.id == id && parent == id && similar == node && similarTail == node && similarLen == 1
    {
      this.id, parent, similar, similarTail, similarLen := id, id, node, node, 1;
    }
  }

  /** The contents of an entry. */
  datatype View = View(id: Id, parent: Id, similar: StrNode?, similarTail: StrNode?, similarLen: nat)

  ghost function Seen(e: SpecEntry): View
    reads e
  {
    View(e.id, e.parent, e.similar, e.similarTail, e.similarLen)
  }

  ghost function NodeFor(node: map<Id, StrNode>, x: Id): StrNode? {
    if x in node then node[x] else null
  }

  /** What the forest says the entry of x holds: a representative points to the first and the last node
      of its clique, any other id to none. */
  ghost function Expected(f: Forest, node: map<Id, StrNode>, x: Id): View
    requires x in f.parent && x in f.size && x in f.clique
  {
    var ids := f.clique[x];
    View(x, f.parent[x], if ids == [] then null else NodeFor(node, ids[0]),
         if ids == [] then null else NodeFor(node, ids[|ids| - 1]), f.size[x])
  }

  lemma ShortenExpected(f: Forest, node: map<Id, StrNode>, x: Id, y: Id)
    requires Climbs(f) && x in f.parent && y in f.parent
    ensures Expected(Shorten(f, x), node, y) ==
      if y == x then Expected(f, node, x).(parent := Par(f, Par(f, x))) else Expected(f, node, y)
  {
  }

  lemma AddExpected(f: Forest, node: map<Id, StrNode>, id: Id, n: StrNode, x: Id)
    requires KnownEnds(f) && id !in f.parent && x in f.parent && x in f.size && x in f.clique
    ensures Expected(Add(f, id), node[id := n], x) == Expected(f, node, x)
  {
  }

  lemma LinkKeys(f: Forest, win: Id, lose: Id)
    requires f.parent.Keys == f.size.Keys == f.clique.Keys
    requires win in f.parent && lose in f.parent && win in f.rank && lose in f.rank
    ensures var g := Link(f, win, lose);
      g.parent.Keys == f.parent.Keys && g.size.Keys == f.size.Keys && g.clique.Keys == f.clique.Keys
  {
  }

  lemma LinkExpected(f: Forest, node: map<Id, StrNode>, win: Id, lose: Id, x: Id)
    requires f.parent.Keys == f.size.Keys == f.clique.Keys && win in f.parent && lose in f.parent && x in f.parent
    requires win in f.rank && lose in f.rank && win != lose && f.clique[win] != [] && f.clique[lose] != []
    ensures var (w, l) := (Expected(f, node, win), Expected(f, node, lose));
      Expected(Link(f, win, lose), node, x) ==
        if x == win then w.(similarTail := l.similarTail, similarLen := w.similarLen + l.similarLen)
        else if x == lose then l.(parent := win, similar := null, similarTail := null)
        else Expected(f, node, x)
  {
    var a, b := f.clique[win], f.clique[lose];
    assert (a + b)[|a + b| - 1] == b[|b| - 1];
  }

  ghost predicate EntryOk(e: SpecEntry, x: Id, f: Forest, node: map<Id, StrNode>)
    reads e
  {
    x in f.parent && x in f.size && x in f.clique && Seen(e) == Expected(f, node, x)
  }

  /** The node of y carries y and is linked to the node of the id after y. */
  ghost predicate NodeOk(n: StrNode, y: Id, succ: Succ, node: map<Id, StrNode>)
    reads n`next
  {
    n.data == y && n.next == if y in succ then NodeFor(node, succ[y]) else null
  }

  /** The tail and the length of the second list go to the first entry; the second goes below it. */
  method Absorb(spec1: SpecEntry, spec2: SpecEntry)
    requires spec1 != spec2
    modifies spec1`similarTail, spec1`similarLen, spec2`parent, spec2`similar, spec2`similarTail
    ensures Seen(spec1) == old(Seen(spec1)).(similarTail := old(spec2.similarTail),
                                             similarLen := old(spec1.similarLen) + old(spec2.similarLen))
    ensures Seen(spec2) == old(Seen(spec2)).(parent := spec1.id, similar := null, similarTail := null)
  {
    spec1.similarTail := spec2.similarTail;
    spec1.similarLen := spec1.similarLen + spec2.similarLen;
    spec2.similar := null;
    spec2.similarTail := null;
    spec2.parent := spec1.id;
  }

  class Sts {
    var dict: map<Id, SpecEntry>
    ghost var model: Forest
    ghost var node: map<Id, StrNode>   // the node made for each id
    ghost var succ: Succ               // which id follows which in the lists

    ghost predicate EntriesOk()
      reads this`dict, this`model, this`node, dict.Values
    {
      forall x {:trigger EntryOk(dict[x], x, model, node)} :: x in dict ==> EntryOk(dict[x], x, model, node)
    }

    ghost predicate NodesOk()
      reads this`node, this`succ, node.Values`next
    {
      forall y {:trigger NodeOk(node[y], y, succ, node)} :: y in node ==> NodeOk(node[y], y, succ, node)
    }

    /** The objects hold what the model says. */
    ghost predicate Shape()
      reads this, dict.Values, node.Values
    {
      && model.parent.Keys == model.size.Keys == model.clique.Keys == dict.Keys == node.Keys
      && EntriesOk() && NodesOk()
    }

    /** And the model is sound, so that each representative's list runs through the nodes of its clique
        and ends. */
    ghost predicate Valid()
      reads this, dict.Values, node.Values
    {
      Shape() && Inv(model) && Threaded(model, succ)
    }

    constructor ()
      ensures Valid() && dict == map[] && model == Forest(map[], map[], map[], map[], 0)
    {
      dict, node, succ := map[], map[], map[];
      model := Forest(map[], map[], map[], map[], 0);
    }

    /** The line of findRoot that shortens the chain at an entry. */
    method Shortcut(spec: SpecEntry)
      requires EntriesOk() && Climbs(model) && dict.Keys == model.parent.Keys
      requires spec.id in dict && dict[spec.id] == spec && spec.parent in dict
      modifies this`model, spec`parent
      ensures EntriesOk() && model == Shorten(old(model), spec.id)
    {
      ghost var x, f := spec.id, model;
      ghost var p := Par(f, x);
      ghost var q := Par(f, p);
      assert EntryOk(dict[x], x, f, node) && EntryOk(dict[p], p, f, node);
      spec.parent := dict[spec.parent].parent;
      model := Shorten(f, x);
      forall y | y in dict ensures EntryOk(dict[y], y, model, node) {
        assert old(EntryOk(dict[y], y, f, node));
        ShortenExpected(f, node, x, y);
      }
    }

    /** It keeps the structure sound. */
    method ShortcutSound(spec: SpecEntry)
      requires Valid() && spec.id in dict && dict[spec.id] == spec && spec.parent in dict
      modifies this`model, spec`parent
      ensures Valid() && model == Shorten(old(model), spec.id)
    {
      ShortenInv(model, spec.id);
      SameLists(model, Shorten(model, spec.id), succ);
      Shortcut(spec);
    }

    /** What findRoot sees of an entry. */
    lemma ParentKnown(spec: SpecEntry)
      requires Valid() && spec.id in dict && dict[spec.id] == spec
      ensures Climbs(model) && spec.id in model.parent && spec.parent == Par(model, spec.id)
      ensures spec.parent in dict && dict[spec.parent].id == spec.parent && spec.id in model.rank
      ensures dict[spec.parent] == spec <==> IsRoot(model, spec.id)
    {
      assert EntryOk(dict[spec.id], spec.id, model, node);
      var p := Par(model, spec.id);
      assert EntryOk(dict[p], p, model, node);
    }

    /** Follows parents by id to the representative, giving each entry on the way its grandparent as
        parent. `calls` counts the recursive calls, this one included. */
    method FindRoot(spec: SpecEntry) returns (root: SpecEntry, ghost calls: nat)
      requires Valid() && spec.id in dict && dict[spec.id] == spec
      modifies this`model, dict.Values`parent
      ensures Valid() && model == Split(old(model), spec.id)
      ensures root.id == RootOf(old(model), spec.id) && root.id in dict && dict[root.id] == root
      ensures calls == Depth(old(model), spec.id) + 1
      decreases model.top - model.rank[spec.id]
    {
      ghost var x, f := spec.id, model;
      ParentKnown(spec);
      root := dict[spec.parent];
      if spec == root {
        return root, 1;
      }
      ShortenClimbs(f, x);
      ShortenStep(f, x);
      hide Valid, Climbs;
      ShortcutSound(spec);
      root, calls := FindRoot(root);
      calls := calls + 1;
    }

    /** The node and the entry sts_add makes. */
    method InsertNode(id: Id) returns (similar: StrNode)
      requires NodesOk() && id !in node && id !in succ && forall y :: y in succ ==> succ[y] != id
      modifies this`node
      ensures NodesOk() && node == old(node)[id := similar] && fresh(similar)
    {
      similar := new StrNode(id);
      ghost var before := node;
      node := before[id := similar];
      forall y | y in node ensures NodeOk(node[y], y, succ, node) {
        if y != id {
          assert NodeOk(before[y], y, succ, before);
        }
      }
    }

    method InsertEntry(id: Id, similar: StrNode, ghost before: map<Id, StrNode>)
      requires node == before[id := similar] && id !in dict
      requires KnownEnds(model) && model.parent.Keys == model.size.Keys == model.clique.Keys == dict.Keys
      requires forall x {:trigger EntryOk(dict[x], x, model, before)} :: x in dict ==> EntryOk(dict[x], x, model, before)
      modifies this`dict, this`model
      ensures EntriesOk() && model == Add(old(model), id) && dict.Keys == old(dict.Keys) + {id}
    {
      ghost var f, d := model, dict;
      var temp := new SpecEntry(id, similar);
      dict := dict[id := temp];
      model := Add(f, id);
      forall x | x in dict ensures EntryOk(dict[x], x, model, node) {
        if x != id {
          assert EntryOk(d[x], x, f, before);
          AddExpected(f, before, id, similar, x);
        }
      }
    }

    /** sts_add of an id not yet there. */
    method StsAdd(id: Id)
      requires Valid() && id !in dict
      modifies this`dict, this`node, this`model
      ensures Valid() && model == Add(old(model), id)
    {
      EndsKnown(model);
      AddInv(model, id);
      AddThreaded(model, succ, id);
      ghost var before := node;
      var similar := InsertNode(id);
      InsertEntry(id, similar, before);
    }

    /** The splice of sts_merge: the list that starts at y's node goes behind the one that ends at x's. */
    method LinkNodes(last: StrNode, first: StrNode?, ghost x: Id, ghost y: Id)
      requires NodesOk() && EntriesOk() && x in node && node[x] == last && y in node && node[y] == first
      modifies this`succ, last`next
      ensures NodesOk() && EntriesOk() && succ == old(succ)[x := y]
      ensures dict == old(dict) && node == old(node) && model == old(model)
    {
      assert NodeOk(last, x, succ, node);
      last.next := first;
      succ := succ[x := y];
      forall z | z in node ensures NodeOk(node[z], z, succ, node) {
        assert old(NodeOk(node[z], z, succ, node));
      }
    }

    /** The other assignments of sts_merge: the tail and the length move to `spec1`, `spec2` goes below it. */
    method LinkEntries(spec1: SpecEntry, spec2: SpecEntry)
      requires EntriesOk() && NodesOk()
      requires spec1.id in dict && dict[spec1.id] == spec1 && spec2.id in dict && dict[spec2.id] == spec2
      requires model.parent.Keys == model.size.Keys == model.clique.Keys == dict.Keys
      requires spec1 != spec2 && spec1.id in model.rank && spec2.id in model.rank
      requires model.clique[spec1.id] != [] && model.clique[spec2.id] != []
      modifies this`model, spec1`similarTail, spec1`similarLen, spec2`parent, spec2`similar, spec2`similarTail
      ensures EntriesOk() && NodesOk() && model == Link(old(model), spec1.id, spec2.id)
      ensures dict == old(dict) && node == old(node) && succ == old(succ)
      ensures model.parent.Keys == model.size.Keys == model.clique.Keys == dict.Keys
    {
      ghost var f, win, lose := model, spec1.id, spec2.id;
      LinkKeys(f, win, lose);
      assert EntryOk(spec1, win, f, node) && EntryOk(spec2, lose, f, node);
      Absorb(spec1, spec2);
      model := Link(f, win, lose);
      forall x | x in dict ensures EntryOk(dict[x], x, model, node) {
        assert old(EntryOk(dict[x], x, f, node));
        LinkExpected(f, node, win, lose, x);
      }
    }

    /** Where a splice of two representatives' lists takes place. */
    lemma EndNodes(spec1: SpecEntry, spec2: SpecEntry) returns (x: Id, y: Id)
      requires Shape() && spec1.id in dict && dict[spec1.id] == spec1 && spec2.id in dict && dict[spec2.id] == spec2
      requires model.clique[spec1.id] != [] && model.clique[spec2.id] != [] && KnownEnds(model)
      ensures x == model.clique[spec1.id][|model.clique[spec1.id]| - 1] && x in node && spec1.similarTail == node[x]
      ensures y == model.clique[spec2.id][0] && y in node && spec2.similar == node[y]
    {
      assert EntryOk(spec1, spec1.id, model, node) && EntryOk(spec2, spec2.id, model, node);
      x, y := model.clique[spec1.id][|model.clique[spec1.id]| - 1], model.clique[spec2.id][0];
    }

    /** All the assignments of sts_merge. */
    method Union(spec1: SpecEntry, spec2: SpecEntry)
      requires Valid() && spec1.id in dict && dict[spec1.id] == spec1 && spec2.id in dict && dict[spec2.id] == spec2
      requires Linkable(model, spec1.id, spec2.id) && model.size[spec1.id] >= model.size[spec2.id]
      modifies this`model, this`succ, node.Values`next
      modifies spec1`similarTail, spec1`similarLen, spec2`parent, spec2`similar, spec2`similarTail
      ensures Valid() && model == Link(old(model), spec1.id, spec2.id)
    {
      ghost var g := Link(model, spec1.id, spec2.id);
      ghost var succ' := LinkSound(model, succ, spec1.id, spec2.id);
      ghost var x, y := EndNodes(spec1, spec2);
      LinkNodes(spec1.similarTail, spec2.similar, x, y);
      LinkEntries(spec1, spec2);
      assert model == g && succ == succ';
    }

    /** What holds of an entry the dictionary has. */
    lemma EntryKnown(x: Id)
      requires Valid() && x in dict
      ensures Inv(model) && x in model.parent && x in model.size
      ensures dict[x].id == x && dict[x].similarLen == model.size[x]
    {
      assert EntryOk(dict[x], x, model, node);
    }

    /** One search of sts_merge. */
    method FindEntry(id: Id) returns (spec: SpecEntry)
      requires Valid() && id in dict
      modifies this`model, dict.Values`parent
      ensures Valid() && Climbs(old(model)) && id in old(model).parent && model == Split(old(model), id)
      ensures spec.id == RootOf(old(model), id) && spec.id in dict && dict[spec.id] == spec
    {
      assert EntryOk(dict[id], id, model, node);
      ghost var calls;
      spec, calls := FindRoot(dict[id]);
    }

    /** The two searches of sts_merge. */
    method FindBoth(id1: Id, id2: Id) returns (spec1: SpecEntry, spec2: SpecEntry)
      requires Valid() && id1 in dict && id2 in dict
      modifies this`model, dict.Values`parent
      ensures Valid() && id2 in Split(old(model), id1).parent && Climbs(Split(old(model), id1))
      ensures model == Split(Split(old(model), id1), id2) && Climbs(model)
      ensures spec1.id in model.parent && spec2.id in model.parent
      ensures spec1.id == RootOf(old(model), id1) && spec1.id in dict && dict[spec1.id] == spec1 && IsRoot(model, spec1.id)
      ensures spec2.id == RootOf(old(model), id2) && spec2.id in dict && dict[spec2.id] == spec2 && IsRoot(model, spec2.id)
      ensures spec1.similarLen == model.size[spec1.id] && spec2.similarLen == model.size[spec2.id]
    {
      ghost var f := model;
      EntryKnown(id1);
      EntryKnown(id2);
      ghost var g := SplitTwice(f, id1, id2, id2);
      hide *;
      spec1 := FindEntry(id1);
      spec2 := FindEntry(id2);
      EntryKnown(spec1.id);
      EntryKnown(spec2.id);
    }

    /** sts_merge: -1 when the two ids were together already. */
    method StsMerge(id1: Id, id2: Id) returns (r: int)
      requires Valid() && id1 in dict && id2 in dict
      modifies this`model, this`succ, dict.Values, node.Values`next
      ensures Valid() && model == Merge(old(model), id1, id2)
      ensures r == if RootOf(old(model), id1) == RootOf(old(model), id2) then -1 else 0
    {
      hide Valid;
      var spec1, spec2 := FindBoth(id1, id2);
      if spec1.similarLen < spec2.similarLen {
        spec1, spec2 := spec2, spec1;
      }
      if spec1 == spec2 {
        return -1;
      }
      Union(spec1, spec2);
      return 0;
    }
  }
}
