/** htab_t of src/hash.c: the table in its buffer. */
module HashTable {
  import opened Wrappers
  import opened ProbeTable
  import opened Traversal
  import opened Rehashing

  /** What deleting and updating come to once htab_get has answered. */
  lemma PerformAt<K(!new), V>(p: Prober<K>, b: seq<Bucket<K, V>>, key: K, r: Option<nat>)
    requires Inv(p, b) && (r.Some? <==> key in Abs(b)) && (r.Some? ==> r.value == SlotOf(b, key))
    ensures Perform(p, b, Op.Delete(key)) == if r.Some? then Bury(b, r.value) else b
  {
  }

  lemma UpdateAt<K(!new), V>(p: Prober<K>, b: seq<Bucket<K, V>>, key: K, default: V, mutator: V -> V, r: Option<nat>)
    requires Inv(p, b) && (r.Some? <==> key in Abs(b)) && (r.Some? ==> r.value == SlotOf(b, key))
    ensures Perform(p, b, Op.Update(key, default, mutator)) ==
      if r.Some? then SetVal(b, r.value, mutator(Abs(b)[key])) else Put(p, b, key, default)
  {
  }

  /** What a put makes of the table, whether the key was absent or not. */
  lemma PutOutcomes<K(!new), V>(p: Prober<K>, b: seq<Bucket<K, V>>, key: K, val: V)
    requires Inv(p, b)
    ensures var (b', fits) := (ProbeTable.Put(p, b, key, val), Fits(p, b, key));
      && (key !in Abs(b) ==> Inv(p, b') && Abs(b') == if fits then Abs(b)[key := val] else Abs(b))
      && (key !in Abs(b) ==> |Abs(b')| == |Abs(b)| + if fits then 1 else 0)
      && (key in Abs(b) && fits ==> !UniqueKeys(b')) && (!fits ==> b' == b)
  {
    if key !in Abs(b) {
      PutRefines(p, b, key, val);
    } else if Fits(p, b, key) {
      var s, t := SlotOf(b, key), Slot(p, key, |b|, FirstFree(p, b, key));
      var b' := ProbeTable.Put(p, b, key, val);
      assert b'[s].Occupied? && b'[t].Occupied? && b'[s].key == b'[t].key && s != t;
    }
  }

  /** The loop of htab_rehash before bucket i: `now` is what the puts so far have made of the new table. */
  ghost predicate Rehashed<K(!new), V>(p: Prober<K>, empty: seq<Bucket<K, V>>, b: seq<Bucket<K, V>>,
                                       now: seq<Bucket<K, V>>, i: nat)
  {
    && i <= |b| && |now| == |empty| > 0 && Rehash(p, empty, b) == Rehash(p, now, b, i)
    && Inv(p, now) && UniqueKeys(b[i..]) && Abs(now).Keys !! Abs(b[i..]).Keys
  }

  lemma RehashedNone<K(!new), V>(q: Prober<K>, b: seq<Bucket<K, V>>, p: Prober<K>, empty: seq<Bucket<K, V>>)
    requires Inv(q, b) && |empty| > 0 && forall s: nat :: s < |empty| ==> empty[s].Clear?
    ensures Rehashed(p, empty, b, empty, 0)
  {
    ClearTable(p, empty);
    assert b[0..] == b;
  }

  lemma RehashedOne<K(!new), V>(p: Prober<K>, empty: seq<Bucket<K, V>>, b: seq<Bucket<K, V>>, now: seq<Bucket<K, V>>, i: nat)
    requires Rehashed(p, empty, b, now, i) && i < |b|
    ensures Inv(p, now) && |now| == |empty| > 0
    ensures if b[i].Occupied?
      then b[i].key !in Abs(now) && Rehashed(p, empty, b, ProbeTable.Put(p, now, b[i].key, b[i].val), i + 1)
      else Rehashed(p, empty, b, now, i + 1)
  {
    AbsSuffix(b, i);
    if b[i].Occupied? { PutRefines(p, now, b[i].key, b[i].val); }
    hide Inv, Abs, UniqueKeys, ProbeTable.Put;
  }

  lemma RehashedAll<K(!new), V>(p: Prober<K>, empty: seq<Bucket<K, V>>, b: seq<Bucket<K, V>>, now: seq<Bucket<K, V>>)
    requires Rehashed(p, empty, b, now, |b|)
    ensures |empty| > 0 && now == Rehash(p, empty, b)
  {
  }

  class HashTable<K(!new, ==), V> {
    const p: Prober<K>
    const buf: array<Bucket<K, V>>
    var bufLoad: nat

    ghost predicate Valid()
      reads this, buf
    {
      Inv(p, buf[..]) && bufLoad == |Abs(buf[..])|
    }

    /** The table as the map its callers see. */
    ghost function Entries(): map<K, V>
      requires Valid()
      reads this, buf
    {
      Abs(buf[..])
    }

    constructor (p: Prober<K>, cap: nat)
      requires cap > 0
      ensures Valid() && fresh(buf) && this.p == p && buf.Length == cap
      ensures Entries() == map[] && forall s: nat :: s < cap ==> buf[s].Clear?
    {
      this.p := p;
      buf := new Bucket<K, V>[cap](_ => Clear);
      bufLoad := 0;
      new;
      ClearTable(p, buf[..]);
    }

    /** The loop of htab_put: the first bucket of the first 32 on the path that holds no entry. */
    method Probe(key: K) returns (bucket: nat, hash: uint32, probes: nat)
      requires buf.Length > 0
      ensures probes == FirstFree(p, buf[..], key)
      ensures bucket == Slot(p, key, buf.Length, probes) && hash == Seed(p, key, probes)
    {
      hash := p.h(key);
      bucket := hash % buf.Length;
      probes := 0;
      while probes < MAX_PROBES
        invariant probes <= MAX_PROBES
        invariant hash == Seed(p, key, probes) && bucket == Slot(p, key, buf.Length, probes)
        invariant FirstFree(p, buf[..], key) == FirstFree(p, buf[..], key, probes)
      {
        if !buf[bucket].Occupied? {
          return;
        }
        var drawn := p.out(hash);
        hash := p.next(hash);
        bucket := drawn % buf.Length;
        probes := probes + 1;
      }
    }

    /** Takes the first bucket on the path that holds no entry; fails after 32 occupied ones. It does not
        look for the key: only a caller who knows it absent gets the map with the key added. */
    method Put(key: K, val: V) returns (ok: bool)
      requires Valid()
      modifies this`bufLoad, buf
      ensures ok == Fits(p, old(buf[..]), key)
      ensures buf[..] == ProbeTable.Put(p, old(buf[..]), key, val)
      ensures bufLoad == old(bufLoad) + if ok then 1 else 0
      ensures key !in old(Entries()) ==> Valid() && Entries() == if ok then old(Entries())[key := val] else old(Entries())
      ensures key in old(Entries()) ==> if ok then !UniqueKeys(buf[..]) else Valid()
    {
      ghost var b := buf[..];
      var bucket, hash, probes := Probe(key);
      PutOutcomes(p, b, key, val);
      hide Inv, Abs, UniqueKeys, FirstFree;
      if probes == MAX_PROBES {
        return false;
      }
      buf[bucket] := Occupied(hash, key, val);
      assert buf[..] == ProbeTable.Put(p, b, key, val);
      bufLoad := bufLoad + 1;
      return true;
    }

    /** The loop of htab_get. It has no bound of its own, so the caller owes that it ends. */
    method Search(key: K) returns (r: Option<nat>, ghost n: nat)
      requires buf.Length > 0 && Halts(p, buf[..], key)
      ensures FirstStop(p, buf[..], key, n)
      ensures r == if Matches(p, buf[..], key, n) then Some(Slot(p, key, buf.Length, n)) else None
      ensures r.Some? ==> r.value < buf.Length && buf[r.value].Occupied? && buf[r.value].key == key
    {
      ghost var b := buf[..];
      ghost var end: nat :| Stops(p, b, key, end);
      n := 0;
      var hash := p.h(key);
      var bucket := hash % buf.Length;
      while !buf[bucket].Clear?
        invariant n <= end && hash == Seed(p, key, n) && bucket == Slot(p, key, buf.Length, n)
        invariant forall j: nat :: j < n ==> !Stops(p, b, key, j)
        decreases end - n
      {
        if !buf[bucket].Deleted? && hash == buf[bucket].hash && buf[bucket].key == key {
          return Some(bucket), n;
        }
        var drawn := p.out(hash);
        hash := p.next(hash);
        bucket := drawn % buf.Length;
        n := n + 1;
      }
      return None, n;
    }

    /** The same loop given up after `limit` probes: `ended` says whether it stopped within them. */
    method SearchWithin(key: K, limit: nat) returns (ended: bool, r: Option<nat>, ghost n: nat)
      requires buf.Length > 0
      ensures ended ==> n < limit && FirstStop(p, buf[..], key, n)
      ensures ended ==> r == if Matches(p, buf[..], key, n) then Some(Slot(p, key, buf.Length, n)) else None
      ensures !ended ==> forall j: nat :: j < limit ==> !Stops(p, buf[..], key, j)
    {
      ghost var b := buf[..];
      n := 0;
      var left: nat := limit;
      var hash := p.h(key);
      var bucket := hash % buf.Length;
      while left > 0
        invariant n + left == limit && hash == Seed(p, key, n) && bucket == Slot(p, key, buf.Length, n)
        invariant forall j: nat :: j < n ==> !Stops(p, b, key, j)
        decreases left
      {
        if buf[bucket].Clear? {
          return true, None, n;
        }
        if !buf[bucket].Deleted? && hash == buf[bucket].hash && buf[bucket].key == key {
          return true, Some(bucket), n;
        }
        var drawn := p.out(hash);
        hash := p.next(hash);
        bucket := drawn % buf.Length;
        n, left := n + 1, left - 1;
      }
      return false, None, n;
    }

    /** htab_get with such a limit. */
    method GetWithin(key: K, limit: nat) returns (ended: bool, r: Option<nat>)
      requires Valid()
      ensures !ended ==> forall j: nat :: j < limit ==> !Stops(p, buf[..], key, j)
      ensures ended ==> Halts(p, buf[..], key) && (r.Some? <==> key in Entries())
      ensures ended && r.Some? ==> r.value < buf.Length && buf[r.value].Occupied? && buf[r.value].key == key
      ensures ended && r.Some? ==> buf[r.value].val == Entries()[key] && r.value == SlotOf(buf[..], key)
    {
      ghost var n;
      ended, r, n := SearchWithin(key, limit);
      if ended { FirstStopDecides(p, buf[..], key, n); }
    }

    /** The bucket of the key, if it is stored. The search ends when the key is stored or its path
        meets a clear bucket, and only then (`HaltsIff`). */
    method Get(key: K) returns (r: Option<nat>)
      requires Valid() && Halts(p, buf[..], key)
      ensures r.Some? <==> key in Entries()
      ensures r.Some? ==> r.value < buf.Length && buf[r.value].Occupied? && buf[r.value].key == key
      ensures r.Some? ==> r.value == SlotOf(buf[..], key) && buf[r.value].val == Entries()[key]
    {
      ghost var n;
      r, n := Search(key);
      FirstStopDecides(p, buf[..], key, n);
    }

    method Update(key: K, default: V, mutator: V -> V) returns (ok: bool)
      requires Valid() && Halts(p, buf[..], key)
      modifies this`bufLoad, buf
      ensures Valid() && buf[..] == Perform(p, old(buf[..]), Op.Update(key, default, mutator))
      ensures ok == (key in old(Entries()) || Fits(p, old(buf[..]), key))
      ensures Entries() == Intended(old(Entries()), Op.Update(key, default, mutator), ok)
    {
      ghost var b, m := buf[..], Entries();
      var v := Get(key);
      UpdateAt(p, b, key, default, mutator, v);
      hide Perform, Inv, Halts, Abs;
      if v.Some? {
        Write(v.value, mutator(buf[v.value].val));
        ok := true;
      } else {
        ok := Put(key, default);
      }
    }

    /** A caller of htab_get changes the value in place through the pointer it was given. */
    method Write(bucket: nat, val: V)
      requires Valid() && bucket < buf.Length && buf[bucket].Occupied?
      modifies buf
      ensures Valid() && buf[..] == SetVal(old(buf[..]), bucket, val)
      ensures Entries() == old(Entries())[old(buf[bucket].key) := val]
    {
      SetValRefines(p, buf[..], bucket, val);
      assert buf[bucket].key in Abs(buf[..]);
      buf[bucket] := Occupied(buf[bucket].hash, buf[bucket].key, val);
    }

    /** Turns a bucket into a tombstone; the value stays readable in it. */
    method Mark(bucket: nat)
      requires Valid() && bucket < buf.Length && buf[bucket].Occupied?
      modifies this`bufLoad, buf
      ensures Valid() && buf[..] == Bury(old(buf[..]), bucket)
      ensures Entries() == old(Entries()) - {old(buf[bucket].key)}
    {
      BuryRefines(p, buf[..], bucket);
      var e := buf[bucket];
      assert e.key in Abs(buf[..]);
      buf[bucket] := Deleted(e.hash, e.key, e.val);
      bufLoad := bufLoad - 1;
    }

    method Del(key: K) returns (r: Option<nat>)
      requires Valid() && Halts(p, buf[..], key)
      modifies this`bufLoad, buf
      ensures Valid() && buf[..] == Perform(p, old(buf[..]), Op.Delete(key))
      ensures Entries() == old(Entries()) - {key}
      ensures r.Some? <==> key in old(Entries())
      ensures r.Some? ==> r.value < buf.Length && buf[r.value].Deleted? && buf[r.value].val == old(Entries())[key]
    {
      ghost var b, m := buf[..], Entries();
      r := Get(key);
      PerformAt(p, b, key, r);
      hide Perform, Inv, Halts, Abs;
      if r.None? {
        assert m - {key} == m;
        return;
      }
      Mark(r.value);
    }

    /** Puts every entry of this table into `fresh_`, going on when a put fails. */
    method RehashInto(fresh_: HashTable<K, V>)
      requires Valid() && fresh_.Valid() && fresh_ != this && fresh_.buf != buf
      requires forall s: nat :: s < fresh_.buf.Length ==> fresh_.buf[s].Clear?
      modifies fresh_`bufLoad, fresh_.buf
      ensures fresh_.Valid() && fresh_.buf[..] == Rehash(fresh_.p, old(fresh_.buf[..]), buf[..])
    {
      ghost var b, empty := buf[..], fresh_.buf[..];
      RehashedNone(p, b, fresh_.p, empty);
      hide Inv, Abs, UniqueKeys, Rehash, Rehashed, ProbeTable.Put, Fits;
      for i := 0 to buf.Length
        invariant fresh_.Valid() && buf[..] == b
        invariant Rehashed(fresh_.p, empty, b, fresh_.buf[..], i)
      {
        RehashedOne(fresh_.p, empty, b, fresh_.buf[..], i);
        if buf[i].Occupied? {
          var _ := fresh_.Put(buf[i].key, buf[i].val);
        }
      }
      RehashedAll(fresh_.p, empty, b, fresh_.buf[..]);
    }

    /** The next occupied bucket from `state` on, and the state to go on from. */
    method IterateR(state: nat) returns (r: Option<nat>, state': nat)
      ensures Visits(buf[..], state) == if r.Some? then [r.value] + Visits(buf[..], state') else []
      ensures r.Some? ==> r.value < buf.Length && buf[r.value].Occupied? && state' == r.value + 1
      ensures state <= state'
    {
      state' := state;
      while state' < buf.Length && !buf[state'].Occupied?
        invariant state <= state' && Visits(buf[..], state) == Visits(buf[..], state')
      {
        state' := state' + 1;
      }
      if state' < buf.Length {
        return Some(state'), state' + 1;
      }
      return None, state';
    }
  }
}
