/** Loops over the entries of a table, with htab_iterate_r, that look up or delete what they are handed. */
module TableLoops {
  import opened Wrappers
  import opened ProbeTable
  import opened Traversal
  import HashTable

  /** dict_del of the entry in bucket s. */
  method RemoveEntry<K(!new, ==), V>(dict: HashTable.HashTable<K, V>, s: nat)
    requires dict.Valid() && s < dict.buf.Length && dict.buf[s].Occupied?
    modifies dict`bufLoad, dict.buf
    ensures dict.Valid() && dict.bufLoad == old(dict.bufLoad) - 1
    ensures dict.buf[..] == Bury(old(dict.buf[..]), s)
  {
    ghost var b := dict.buf[..];
    OnlySlot(dict.p, b, s);
    LoadIs(dict);
    hide Inv, Perform, Halts, Abs;
    var r := dict.Del(dict.buf[s].key);
    LoadIs(dict);
  }

  lemma LoadIs<K(!new), V>(dict: HashTable.HashTable<K, V>)
    requires dict.Valid()
    ensures dict.bufLoad == |dict.Entries()|
  {
  }

  lemma OnlySlot<K(!new), V>(p: Prober<K>, b: seq<Bucket<K, V>>, s: nat)
    requires Inv(p, b) && s < |b| && b[s].Occupied?
    ensures b[s].key in Abs(b) && SlotOf(b, b[s].key) == s && Halts(p, b, b[s].key)
    ensures Perform(p, b, Op.Delete(b[s].key)) == Bury(b, s)
  {
    HaltsIff(p, b, b[s].key);
  }

  /** htab_iterate_r while buckets before `n` have been changed. */
  method NextEntry<K(!new, ==), V>(dict: HashTable.HashTable<K, V>, n: nat, ghost b: seq<Bucket<K, V>>)
    returns (entry: Option<nat>, state: nat)
    requires dict.buf.Length == |b| && forall s: nat :: n <= s < |b| ==> dict.buf[s] == b[s]
    ensures Pending(b, n, entry, state) && (entry.Some? ==> state == entry.value + 1)
    ensures entry.Some? ==> n <= entry.value < |b| && b[entry.value].Occupied?
    ensures KeysVisited(b, n) == if entry.Some? then [b[entry.value].key] + KeysVisited(b, state) else []
  {
    entry, state := dict.IterateR(n);
    VisitsAhead(b, dict.buf[..], n);
    VisitsAhead(b, dict.buf[..], state);
    PendingSkips(b, n, entry, state);
    PendingKeys(b, n, entry, state);
  }

  lemma LoadVisits<K(!new), V>(dict: HashTable.HashTable<K, V>)
    requires dict.Valid()
    ensures UniqueKeys(dict.buf[..]) && |Visits(dict.buf[..], 0)| == dict.bufLoad
  {
    var b := dict.buf[..];
    assert b[0..] == b;
    VisitsCount(b, 0);
  }

  /** dict_get of the key just handed out finds the entry itself. */
  method LookUp<K(!new, ==), V>(dict: HashTable.HashTable<K, V>, s: nat) returns (val: V)
    requires dict.Valid() && s < dict.buf.Length && dict.buf[s].Occupied?
    ensures dict.buf[s].key in dict.Entries() && val == dict.Entries()[dict.buf[s].key]
  {
    OnlySlot(dict.p, dict.buf[..], s);
    var r := dict.Get(dict.buf[s].key);
    val := dict.buf[r.value].val;
  }
}
