/** Word positions in src/ml.c: numbered as words are inserted, and renumbered when words are removed. */
module Vocabulary {
  import opened Collections
  import opened Wrappers
  import opened ProbeTable
  import opened Traversal
  import HashTable
  import opened TableLoops
  import opened Dict

  datatype Word = Word(position: int, count: int, idf: real)

  /** The positions are a bijection onto 0 .. |m| - 1 (`NumberedOnto`). */
  ghost predicate Numbered<K>(m: map<K, Word>) {
    && (forall k :: k in m ==> 0 <= m[k].position < |m|)
    && forall k, l :: k in m && l in m && m[k].position == m[l].position ==> k == l
  }

  /** Every number below |m| is the position of some word. */
  lemma NumberedOnto<K>(m: map<K, Word>, i: nat)
    requires Numbered(m) && i < |m|
    ensures exists k :: k in m && m[k].position == i
  {
    if forall k :: k in m ==> m[k].position != i {
      var n := |m|;
      var f: map<K, nat> := map k | k in m :: if m[k].position == n - 1 then i else m[k].position;
      assert f.Keys == m.Keys;
      InjectiveCard(f, n - 1);
    }
  }

  // ---------- dict_put of a new word ----------

  /** Of the words of m only the last-numbered ones are missing in m'. */
  ghost predicate LastMissing<K>(m: map<K, Word>, m': map<K, Word>) {
    forall k :: k in m && k !in m' ==> m[k].position >= |m'|
  }

  lemma FewerKeys<K, V>(m: map<K, V>, m': map<K, V>)
    requires m'.Keys <= m.Keys
    ensures |m'| + |m.Keys - m'.Keys| == |m|
  {
    assert m.Keys == m'.Keys + (m.Keys - m'.Keys);
  }

  lemma SamePosition<K>(m: map<K, Word>, k: K, l: K)
    requires Numbered(m) && k in m && l in m && m[k].position == m[l].position
    ensures k == l
  {
  }

  lemma OnlyLastLost<K>(m: map<K, Word>, m': map<K, Word>)
    requires Numbered(m) && Submap(m', m) && Numbered(m')
    ensures LastMissing(m, m')
  {
    forall k | k in m && m[k].position < |m'| ensures k in m' {
      NumberedOnto(m', m[k].position);
      var l :| l in m' && m'[l].position == m[k].position;
      SamePosition(m, k, l);
    }
  }

  /** Were a kept word numbered n or more, it and the missing ones would be too many for those numbers. */
  lemma KeptBelow<K>(m: map<K, Word>, m': map<K, Word>, k: K)
    requires Numbered(m) && Submap(m', m) && LastMissing(m, m') && k in m'
    ensures 0 <= m'[k].position < |m'|
  {
    if m'[k].position >= |m'| {
      FewerKeys(m, m');
      var n := |m'|;
      var f: map<K, nat> := map l | l in m && (l !in m' || l == k) :: m[l].position - n;
      assert f.Keys == (m.Keys - m'.Keys) + {k};
      InjectiveCard(f, |m| - n);
    }
  }

  lemma LastLostOnly<K>(m: map<K, Word>, m': map<K, Word>)
    requires Numbered(m) && Submap(m', m) && LastMissing(m, m')
    ensures Numbered(m')
  {
    forall k | k in m' ensures 0 <= m'[k].position < |m'| { KeptBelow(m, m', k); }
    forall k, l | k in m' && l in m' && m'[k].position == m'[l].position ensures k == l { SamePosition(m, k, l); }
  }

  /** A numbering stays a bijection under the loss of words exactly when the last-numbered ones were lost. */
  lemma NumberedAfterLoss<K>(m: map<K, Word>, m': map<K, Word>)
    requires Numbered(m) && Submap(m', m)
    ensures Numbered(m') <==> LastMissing(m, m')
  {
    hide Numbered, LastMissing;
    if Numbered(m') { OnlyLastLost(m, m'); }
    if LastMissing(m, m') { LastLostOnly(m, m'); }
  }

  /** The word `w` of ml_init_vocabulary_from_json_bow_set, put into the dictionary at the next position.
      Nothing but that word is entered, and it and all others are there exactly when no rehash lost a word
      and the put succeeded. */
  method EnterWord<K(!new, ==)>(dict: Dict<K, Word>, key: K, turns: nat) returns (done: bool, ghost r: nat)
    requires dict.Valid() && key !in dict.Entries() && dict.keySz > 0
    modifies dict`htab, dict`keySz, dict.htab`bufLoad, dict.htab.buf
    ensures dict.Valid() && dict.keySz > 0 && dict.SameOrNew(old(dict.htab), old(dict.htab.buf))
    ensures var d, w := old(dict.Value()), Word(|old(dict.Entries())|, 1, 0.0);
      && Sound(d) && dict.Value() == PutIn(d, key, w, r) && Tried(d, key, r)
      && (done <==> Settled(d, key, r)) && (!done ==> r == turns)
    ensures Submap(dict.Entries(), Counted(old(dict.Entries()), key))
    ensures dict.Entries() == Counted(old(dict.Entries()), key) <==> done && Lossless(old(dict.Value()), key, r)
  {
    dict.IsSound();
    var word := Word(dict.htab.bufLoad, 1, 0.0);
    hide PutIn, Tried, Settled, Lossless, Sound, Submap, Inv;
    done, r := dict.Put(key, word, turns);
  }

  // ---------- ml_init_vocabulary_from_json_bow_set ----------

  /** One word of a set: counted once more, or entered at the next position. */
  function Counted<K>(m: map<K, Word>, k: K): map<K, Word> {
    if k in m then m[k := m[k].(count := m[k].count + 1)] else m[k := Word(|m|, 1, 0.0)]
  }

  function CountedAll<K>(m: map<K, Word>, ks: seq<K>): map<K, Word> {
    if ks == [] then m else Counted(CountedAll(m, ks[..|ks| - 1]), ks[|ks| - 1])
  }

  lemma CountedNumbered<K>(m: map<K, Word>, k: K)
    requires Numbered(m)
    ensures Numbered(Counted(m, k))
  {
    if k !in m { assert |Counted(m, k)| == |m| + 1; } else { assert Counted(m, k).Keys == m.Keys; }
  }

  lemma {:induction false} CountedAllNumbered<K>(m: map<K, Word>, ks: seq<K>)
    requires Numbered(m)
    ensures Numbered(CountedAll(m, ks))
  {
    if ks != [] {
      CountedAllNumbered(m, ks[..|ks| - 1]);
      CountedNumbered(CountedAll(m, ks[..|ks| - 1]), ks[|ks| - 1]);
    }
  }

  function Occurrences<K(==)>(ks: seq<K>, k: K): nat {
    if ks == [] then 0 else Occurrences(ks[..|ks| - 1], k) + if ks[|ks| - 1] == k then 1 else 0
  }

  lemma {:induction false} NoOccurrence<K>(ks: seq<K>, k: K)
    requires k !in ks
    ensures Occurrences(ks, k) == 0
  {
    if ks != [] {
      assert forall l :: l in ks[..|ks| - 1] ==> l in ks;
      NoOccurrence(ks[..|ks| - 1], k);
    }
  }

  /** k first occurs at i, and its position is the number of words there were then. */
  ghost predicate EnteredAt<K>(m: map<K, Word>, ks: seq<K>, k: K, i: nat, position: int) {
    i < |ks| && ks[i] == k && k !in ks[..i] && position == |CountedAll(m, ks[..i])|
  }

  /** Each word is counted as often as it occurs, keeps the position it has, and a new one gets the next
      position when it first occurs. */
  lemma {:induction false} CountsOccurrences<K>(m: map<K, Word>, ks: seq<K>, k: K)
    ensures k in CountedAll(m, ks) <==> k in m || k in ks
    ensures k in CountedAll(m, ks) ==>
      CountedAll(m, ks)[k].count == Occurrences(ks, k) + if k in m then m[k].count else 0
    ensures k in m ==> CountedAll(m, ks)[k].position == m[k].position
    ensures k !in m && k in ks ==> exists i: nat :: EnteredAt(m, ks, k, i, CountedAll(m, ks)[k].position)
  {
    if ks != [] {
      var n := |ks| - 1;
      CountsOccurrences(m, ks[..n], k);
      assert ks == ks[..n] + [ks[n]];
      if k !in m {
        if k in ks[..n] {
          var i: nat :| EnteredAt(m, ks[..n], k, i, CountedAll(m, ks[..n])[k].position);
          assert ks[..n][..i] == ks[..i];
          assert EnteredAt(m, ks, k, i, CountedAll(m, ks)[k].position);
        } else if k == ks[n] {
          NoOccurrence(ks[..n], k);
          assert EnteredAt(m, ks, k, n, CountedAll(m, ks)[k].position);
        }
      }
    }
  }

  /** The loop over the set so far: the keys handed out before bucket n have been taken out. */
  ghost predicate TakenOut<K(!new), V>(b: seq<Bucket<K, V>>, b': seq<Bucket<K, V>>, n: nat, keys: seq<K>, load: int) {
    && |b'| == |b| && (forall s: nat :: n <= s < |b| ==> b'[s] == b[s])
    && KeysVisited(b, 0) == keys + KeysVisited(b, n)
    && 2 * |keys| <= |KeysVisited(b, 0)| + 1 && load == |KeysVisited(b, 0)| - |keys|
    && UniqueKeys(b) && UniqueKeys(b') && Abs(b') == Abs(b) - (set k | k in keys)
  }

  lemma TakenOutZero<K(!new), V>(bowSet: HashTable.HashTable<K, V>)
    requires bowSet.Valid()
    ensures TakenOut(bowSet.buf[..], bowSet.buf[..], 0, [], bowSet.bufLoad)
  {
    var b := bowSet.buf[..];
    LoadVisits(bowSet);
    hide Abs, UniqueKeys, Inv, KeysVisited, Visits;
    assert [] + KeysVisited(b, 0) == KeysVisited(b, 0);
    assert Abs(b) - (set k: K | k in []) == Abs(b);
  }

  lemma MinusOne<K, V>(m: map<K, V>, keys: seq<K>, k: K)
    ensures (m - (set l | l in keys)) - {k} == m - (set l | l in keys + [k])
  {
  }

  lemma BuryUnique<K(!new), V>(p: Prober<K>, b: seq<Bucket<K, V>>, s: nat)
    requires Inv(p, b) && s < |b| && b[s].Occupied?
    ensures UniqueKeys(b) && UniqueKeys(Bury(b, s)) && Abs(Bury(b, s)) == Abs(b) - {b[s].key}
  {
    BuryRefines(p, b, s);
  }

  lemma TakenOutOne<K(!new), V>(p: Prober<K>, b: seq<Bucket<K, V>>, b': seq<Bucket<K, V>>, n: nat, keys: seq<K>,
                                load: int, s: nat)
    requires TakenOut(b, b', n, keys, load) && Inv(p, b') && |keys| < load && n <= s < |b| && b[s].Occupied?
    requires KeysVisited(b, n) == [b[s].key] + KeysVisited(b, s + 1)
    ensures |b'| == |b| && b'[s] == b[s]
    ensures TakenOut(b, Bury(b', s), s + 1, keys + [b[s].key], load - 1)
  {
    hide Inv, Abs, UniqueKeys, KeysVisited;
    BuryUnique(p, b', s);
    MinusOne(Abs(b), keys, b[s].key);
    assert keys + KeysVisited(b, n) == (keys + [b[s].key]) + KeysVisited(b, s + 1);
  }

  lemma TakenOutAhead<K(!new), V>(b: seq<Bucket<K, V>>, b': seq<Bucket<K, V>>, n: nat, keys: seq<K>, load: int)
    requires TakenOut(b, b', n, keys, load)
    ensures |b'| == |b| && forall s: nat :: n <= s < |b| ==> b'[s] == b[s]
  {
  }

  /** Where the loop stops: its bound is the load of the set, read anew after each deletion. */
  lemma TakenOutHalf<K(!new), V>(b: seq<Bucket<K, V>>, b': seq<Bucket<K, V>>, n: nat, keys: seq<K>, load: int)
    requires TakenOut(b, b', n, keys, load) && (KeysVisited(b, n) == [] || |keys| >= load)
    ensures keys == FirstHalf(KeysVisited(b, 0)) && load == |KeysVisited(b, 0)| / 2
    ensures UniqueKeys(b) && UniqueKeys(b') && Abs(b') == Abs(b) - (set k | k in keys)
  {
    assert keys == KeysVisited(b, 0)[..|keys|];
  }

  /** One turn on the vocabulary: a known word is counted, and a new one is entered, at which the growing
      dictionary may lose words, the new one included. */
  ghost predicate CountedOrLost<K>(m: map<K, Word>, k: K, m': map<K, Word>) {
    if k in m then m' == Counted(m, k) else Submap(m', Counted(m, k))
  }

  /** The vocabulary before, between and after the turns for these words. */
  ghost predicate Turns<K>(maps: seq<map<K, Word>>, keys: seq<K>) {
    |maps| == |keys| + 1 && forall i: nat :: i < |keys| ==> CountedOrLost(maps[i], keys[i], maps[i + 1])
  }

  /** In turn i only words with the last numbers were lost, or none. */
  ghost predicate LostLast<K>(maps: seq<map<K, Word>>, keys: seq<K>, i: nat)
    requires i < |keys| && i + 1 < |maps|
  {
    LastMissing(Counted(maps[i], keys[i]), maps[i + 1])
  }

  /** In every turn. */
  ghost predicate AlwaysLostLast<K>(maps: seq<map<K, Word>>, keys: seq<K>) {
    |maps| == |keys| + 1 && forall i: nat :: i < |keys| ==> LostLast(maps, keys, i)
  }

  /** No turn lost a word. */
  ghost predicate NeverLost<K>(maps: seq<map<K, Word>>, keys: seq<K>) {
    |maps| == |keys| + 1 && forall i: nat :: i < |keys| ==> maps[i + 1] == Counted(maps[i], keys[i])
  }

  lemma TurnNumbered<K>(m: map<K, Word>, k: K, m': map<K, Word>)
    requires CountedOrLost(m, k, m') && Numbered(m)
    ensures Numbered(m') <==> LastMissing(Counted(m, k), m')
  {
    CountedNumbered(m, k);
    NumberedAfterLoss(Counted(m, k), m');
  }

  /** The positions are a bijection after every turn if and only if they were one before the first and
      each turn lost only words with the last numbers, or none. */
  lemma NumberedThroughoutIff<K>(maps: seq<map<K, Word>>, keys: seq<K>)
    requires Turns(maps, keys)
    ensures (forall i: nat :: i < |maps| ==> Numbered(maps[i])) <==>
      Numbered(maps[0]) && AlwaysLostLast(maps, keys)
  {
    hide Numbered, LastMissing, CountedOrLost;
    if Numbered(maps[0]) && AlwaysLostLast(maps, keys) {
      forall i: nat | i < |maps| ensures Numbered(maps[i]) { NumberedUpTo(maps, keys, i); }
    }
    if forall i: nat :: i < |maps| ==> Numbered(maps[i]) {
      forall i: nat | i < |keys| ensures LostLast(maps, keys, i) {
        assert Numbered(maps[i]) && Numbered(maps[i + 1]);
        TurnNumbered(maps[i], keys[i], maps[i + 1]);
      }
    }
  }

  lemma {:induction false} NumberedUpTo<K>(maps: seq<map<K, Word>>, keys: seq<K>, n: nat)
    requires Turns(maps, keys) && Numbered(maps[0]) && n < |maps| && AlwaysLostLast(maps, keys)
    ensures Numbered(maps[n])
  {
    hide Numbered, LastMissing, CountedOrLost;
    if n > 0 {
      NumberedUpTo(maps, keys, n - 1);
      assert LostLast(maps, keys, n - 1) && CountedOrLost(maps[n - 1], keys[n - 1], maps[n - 1 + 1]);
      TurnNumbered(maps[n - 1], keys[n - 1], maps[n]);
    }
  }

  /** When no turn lost a word, all words are counted, and a bijection stays one. */
  lemma {:induction false} NothingLost<K>(maps: seq<map<K, Word>>, keys: seq<K>)
    requires NeverLost(maps, keys)
    ensures maps[|keys|] == CountedAll(maps[0], keys)
    ensures Numbered(maps[0]) ==> Numbered(maps[|keys|])
  {
    hide Counted, Numbered;
    if keys != [] {
      var n := |keys| - 1;
      NothingLost(maps[..n + 1], keys[..n]);
      assert maps[n + 1] == Counted(maps[n], keys[n]);
    }
    if Numbered(maps[0]) { CountedAllNumbered(maps[0], keys); }
  }

  // ---------- the turns on the dictionary ----------

  /** A turn on the dictionary: a known word is counted in its bucket, a new one put in with r retries. */
  ghost function CountedIn<K(!new)>(d: Dictionary<K, Word>, key: K, r: nat): Dictionary<K, Word>
    requires Sound(d)
  {
    if key in Abs(d.buf) then d.(buf := SetVal(d.buf, SlotOf(d.buf, key), Again(Abs(d.buf)[key])))
    else PutIn(d, key, Word(|Abs(d.buf)|, 1, 0.0), r)
  }

  function Again(w: Word): Word { w.(count := w.count + 1) }

  /** The dict_put of the turn, if there is one, comes to its end with r retries. */
  ghost predicate TurnEnds<K(!new)>(d: Dictionary<K, Word>, key: K, r: nat)
    requires Sound(d)
  {
    if key in Abs(d.buf) then r == 0 else Settled(d, key, r)
  }

  /** The search of the turn does not end within `probes` probes, or no put within `turns` retries succeeds. */
  ghost predicate Blocked<K(!new)>(d: Dictionary<K, Word>, key: K, turns: nat, probes: nat)
    requires Sound(d)
  {
    || (forall j: nat :: j < probes ==> !Stops(d.conf.ProberFor(d.keySz), d.buf, key, j))
    || (key !in Abs(d.buf) && Tried(d, key, turns) && !Settled(d, key, turns))
  }

  /** No rehash of the turn loses a word. */
  ghost predicate TurnKeeps<K(!new)>(d: Dictionary<K, Word>, key: K, r: nat)
    requires Sound(d)
  {
    key in Abs(d.buf) || Lossless(d, key, r)
  }

  /** What a turn does to the words: each is counted as it should be if and only if no rehash lost one. */
  lemma TurnOutcome<K(!new)>(d: Dictionary<K, Word>, key: K, r: nat)
    requires Sound(d) && UniqueKeys(d.buf) && TurnEnds(d, key, r)
    ensures Sound(CountedIn(d, key, r)) && UniqueKeys(CountedIn(d, key, r).buf)
    ensures CountedOrLost(Abs(d.buf), key, Abs(CountedIn(d, key, r).buf))
    ensures Abs(CountedIn(d, key, r).buf) == Counted(Abs(d.buf), key) <==> TurnKeeps(d, key, r)
  {
    var w := Word(|Abs(d.buf)|, 1, 0.0);
    hide PutIn, Settled, Lossless, Submap, UniqueKeys, Inv;
    if key in Abs(d.buf) {
      KnownTurn(d, key, r);
    } else {
      NewTurn(d, key, w, r);
    }
  }

  lemma KnownTurn<K(!new)>(d: Dictionary<K, Word>, key: K, r: nat)
    requires Sound(d) && UniqueKeys(d.buf) && key in Abs(d.buf)
    ensures Sound(CountedIn(d, key, r)) && UniqueKeys(CountedIn(d, key, r).buf)
    ensures Abs(CountedIn(d, key, r).buf) == Counted(Abs(d.buf), key)
  {
    SetValRefines(d.conf.ProberFor(d.keySz), d.buf, SlotOf(d.buf, key), Again(Abs(d.buf)[key]));
  }

  lemma NewTurn<K(!new)>(d: Dictionary<K, Word>, key: K, w: Word, r: nat)
    requires Sound(d) && UniqueKeys(d.buf) && key !in Abs(d.buf) && Settled(d, key, r)
    ensures Sound(PutIn(d, key, w, r)) && UniqueKeys(PutIn(d, key, w, r).buf)
    ensures Submap(Abs(PutIn(d, key, w, r).buf), Abs(d.buf)[key := w])
    ensures Abs(PutIn(d, key, w, r).buf) == Abs(d.buf)[key := w] <==> Lossless(d, key, r)
  {
    PutInParts(d, key, r);
    hide *;
    PutInRefines(d, key, w, r);
  }

  /** The dictionary before, between and after the turns for these words. Each turn is determined by the
      dictionary it starts with: `rs` are the retries its dict_put takes to come to its end. */
  ghost predicate Counts<K(!new)>(ds: seq<Dictionary<K, Word>>, keys: seq<K>, rs: seq<nat>) {
    && |ds| == |keys| + 1 == |rs| + 1
    && (forall i: nat :: i < |ds| ==> Sound(ds[i]) && UniqueKeys(ds[i].buf))
    && forall i: nat :: i < |keys| ==> CountsAt(ds, keys, rs, i)
  }

  ghost predicate CountsAt<K(!new)>(ds: seq<Dictionary<K, Word>>, keys: seq<K>, rs: seq<nat>, i: nat)
    requires i < |keys| && i < |rs| && i + 1 < |ds| && Sound(ds[i])
  {
    TurnEnds(ds[i], keys[i], rs[i]) && ds[i + 1] == CountedIn(ds[i], keys[i], rs[i])
  }

  /** No rehash of any turn loses a word. */
  ghost predicate AllKept<K(!new)>(ds: seq<Dictionary<K, Word>>, keys: seq<K>, rs: seq<nat>)
    requires Counts(ds, keys, rs)
  {
    forall i: nat :: i < |keys| ==> TurnKeeps(ds[i], keys[i], rs[i])
  }

  /** The words of each of these dictionaries. */
  ghost function Words<K(!new)>(ds: seq<Dictionary<K, Word>>): (maps: seq<map<K, Word>>)
    requires forall i: nat :: i < |ds| ==> UniqueKeys(ds[i].buf)
    ensures |maps| == |ds| && forall i: nat :: i < |ds| ==> maps[i] == Abs(ds[i].buf)
  {
    seq(|ds|, i requires 0 <= i < |ds| => Abs(ds[i].buf))
  }

  /** What the turns do to the words: none is lost in any if and only if no rehash loses one. */
  lemma CountsTurns<K(!new)>(ds: seq<Dictionary<K, Word>>, keys: seq<K>, rs: seq<nat>)
    requires Counts(ds, keys, rs)
    ensures Turns(Words(ds), keys)
    ensures NeverLost(Words(ds), keys) <==> AllKept(ds, keys, rs)
  {
    hide Sound, UniqueKeys, Abs, CountedIn, TurnEnds, TurnKeeps, Counted, CountedOrLost;
    forall i: nat | i < |keys| ensures CountedOrLost(Words(ds)[i], keys[i], Words(ds)[i + 1]) {
      CountsTurn(ds, keys, rs, i);
    }
    if AllKept(ds, keys, rs) {
      forall i: nat | i < |keys| ensures Words(ds)[i + 1] == Counted(Words(ds)[i], keys[i]) { CountsTurn(ds, keys, rs, i); }
    }
    if NeverLost(Words(ds), keys) {
      forall i: nat | i < |keys| ensures TurnKeeps(ds[i], keys[i], rs[i]) { CountsTurn(ds, keys, rs, i); }
    }
  }

  lemma CountsTurn<K(!new)>(ds: seq<Dictionary<K, Word>>, keys: seq<K>, rs: seq<nat>, i: nat)
    requires Counts(ds, keys, rs) && i < |keys|
    ensures CountedOrLost(Words(ds)[i], keys[i], Words(ds)[i + 1])
    ensures Words(ds)[i + 1] == Counted(Words(ds)[i], keys[i]) <==> TurnKeeps(ds[i], keys[i], rs[i])
  {
    hide Sound, UniqueKeys, Abs, CountedIn, TurnEnds, TurnKeeps, Counted, CountedOrLost;
    assert CountsAt(ds, keys, rs, i);
    TurnOutcome(ds[i], keys[i], rs[i]);
  }

  /** When no rehash of any turn loses a word, all the words are counted. */
  lemma AllCounted<K(!new)>(ds: seq<Dictionary<K, Word>>, keys: seq<K>, rs: seq<nat>)
    requires Counts(ds, keys, rs) && AllKept(ds, keys, rs)
    ensures Words(ds)[|keys|] == CountedAll(Words(ds)[0], keys)
  {
    hide AllKept, Words, CountedAll, NeverLost;
    CountsTurns(ds, keys, rs);
    NothingLost(Words(ds), keys);
  }

  lemma CountsNone<K(!new)>(d: Dictionary<K, Word>)
    requires Sound(d) && UniqueKeys(d.buf)
    ensures Counts([d], [], [])
  {
  }

  lemma CountsOne<K(!new)>(ds: seq<Dictionary<K, Word>>, keys: seq<K>, rs: seq<nat>, d: Dictionary<K, Word>, key: K, r: nat)
    requires Counts(ds, keys, rs) && Sound(d) && UniqueKeys(d.buf) && Sound(ds[|keys|])
    requires TurnEnds(ds[|keys|], key, r) && d == CountedIn(ds[|keys|], key, r)
    ensures Counts(ds + [d], keys + [key], rs + [r])
  {
    hide Sound, UniqueKeys, TurnEnds, CountedIn;
    var ds', keys', rs' := ds + [d], keys + [key], rs + [r];
    forall i: nat | i < |keys'| ensures CountsAt(ds', keys', rs', i) {
      if i < |keys| { assert CountsAt(ds, keys, rs, i); }
    }
  }

  /** `word->count++` */
  method CountAgain<K(!new, ==)>(htab: HashTable.HashTable<K, Word>, s: nat)
    requires htab.Valid() && s < htab.buf.Length && htab.buf[s].Occupied?
    modifies htab.buf
    ensures htab.Valid() && htab.buf[..] == SetVal(old(htab.buf[..]), s, Again(old(htab.buf[s]).val))
  {
    hide Inv, Abs, UniqueKeys, SetVal, HashTable.HashTable.Entries;
    var w := htab.buf[s].val;
    htab.Write(s, w.(count := w.count + 1));
  }

  lemma StoredWord<K(!new)>(htab: HashTable.HashTable<K, Word>, s: nat)
    requires htab.Valid() && s < htab.buf.Length && htab.buf[s].Occupied?
    ensures htab.buf[s].key in htab.Entries() && htab.Entries()[htab.buf[s].key] == htab.buf[s].val
  {
    assert htab.buf[..][s] == htab.buf[s];
  }

  /** The body of the loop on the vocabulary. The search of dict_get and the retries of dict_put have no
      bound of their own; with these bounds, `finished` says whether both came to an end. */
  method CountWord<K(!new, ==)>(dict: Dict<K, Word>, key: K, turns: nat, probes: nat) returns (finished: bool, ghost r: nat)
    requires dict.Valid() && dict.keySz > 0
    modifies dict`htab, dict`keySz, dict.htab`bufLoad, dict.htab.buf
    ensures dict.Valid() && dict.keySz > 0 && dict.SameOrNew(old(dict.htab), old(dict.htab.buf))
    ensures Sound(old(dict.Value()))
    ensures finished ==> TurnEnds(old(dict.Value()), key, r) && dict.Value() == CountedIn(old(dict.Value()), key, r)
    ensures !finished ==> Blocked(old(dict.Value()), key, turns, probes)
    ensures key in old(dict.Entries()) && finished ==>
      dict.Entries() == old(dict.Entries())[key := Again(old(dict.Entries())[key])]
    ensures key !in old(dict.Entries()) ==>
      (dict.Entries() == old(dict.Entries())[key := Word(|old(dict.Entries())|, 1, 0.0)] <==>
       finished && Lossless(old(dict.Value()), key, r))
    ensures key in old(dict.Entries()) && probes >= MAX_PROBES ==> finished
  {
    dict.IsSound();
    r := 0;
    var word;
    KnownFound(dict, key, probes);
    hide Dict.Valid, Dict.Entries, Dict.Value, Sound, TurnEnds, CountedIn, Blocked, Lossless, Stops, SlotOf, Abs;
    finished, word := dict.htab.GetWithin(key, probes);
    dict.IsSound();
    if !finished {
      Unfound(dict.Value(), key, turns, probes);
      return;
    }
    if word.Some? {
      CountKnown(dict, key, word.value);
    } else {
      finished, r := EnterNew(dict, key, turns, probes);
    }
  }

  /** The search for a known word ends within 32 probes. */
  lemma KnownFound<K(!new)>(dict: Dict<K, Word>, key: K, probes: nat)
    requires dict.Valid()
    ensures key in dict.Entries() && probes >= MAX_PROBES ==>
      exists j: nat :: j < probes && Stops(dict.htab.p, dict.htab.buf[..], key, j)
  {
    if key in dict.Entries() {
      var n := PresentStops(dict.htab.p, dict.htab.buf[..], key);
    }
  }

  lemma Unfound<K(!new)>(d: Dictionary<K, Word>, key: K, turns: nat, probes: nat)
    requires Sound(d) && |d.buf| > 0 && forall j: nat :: j < probes ==> !Stops(d.conf.ProberFor(d.keySz), d.buf, key, j)
    ensures Blocked(d, key, turns, probes)
  {
    hide Inv, Stops;
  }

  /** The turn for a known word. */
  method CountKnown<K(!new, ==)>(dict: Dict<K, Word>, key: K, s: nat)
    requires dict.Valid() && dict.keySz > 0 && key in dict.Entries() && s < dict.htab.buf.Length
    requires dict.htab.buf[s].Occupied? && dict.htab.buf[s].key == key && s == SlotOf(dict.htab.buf[..], key)
    modifies dict.htab.buf
    ensures dict.Valid() && Sound(old(dict.Value())) && TurnEnds(old(dict.Value()), key, 0)
    ensures dict.Value() == CountedIn(old(dict.Value()), key, 0)
    ensures dict.Entries() == old(dict.Entries())[key := Again(old(dict.Entries())[key])]
  {
    ghost var d := dict.Value();
    dict.IsSound();
    StoredWord(dict.htab, s);
    KnownTurn(d, key, 0);
    KnownIs(d, key, s);
    hide Inv, Abs, UniqueKeys, SlotOf, TurnEnds, CountedIn, Sound, SetVal;
    CountAgain(dict.htab, s);
    dict.IsSound();
  }

  lemma KnownIs<K(!new)>(d: Dictionary<K, Word>, key: K, s: nat)
    requires Sound(d) && UniqueKeys(d.buf) && key in Abs(d.buf) && s == SlotOf(d.buf, key)
    ensures TurnEnds(d, key, 0) && CountedIn(d, key, 0) == d.(buf := SetVal(d.buf, s, Again(d.buf[s].val)))
    ensures Counted(Abs(d.buf), key) == Abs(d.buf)[key := Again(Abs(d.buf)[key])]
  {
    assert Abs(d.buf)[d.buf[s].key] == d.buf[s].val;
    hide Inv, Abs, UniqueKeys, SetVal;
  }

  /** The turn for a new word. */
  method EnterNew<K(!new, ==)>(dict: Dict<K, Word>, key: K, turns: nat, ghost probes: nat)
    returns (finished: bool, ghost r: nat)
    requires dict.Valid() && key !in dict.Entries() && dict.keySz > 0
    modifies dict`htab, dict`keySz, dict.htab`bufLoad, dict.htab.buf
    ensures dict.Valid() && dict.keySz > 0 && dict.SameOrNew(old(dict.htab), old(dict.htab.buf))
    ensures Sound(old(dict.Value()))
    ensures finished ==> TurnEnds(old(dict.Value()), key, r) && dict.Value() == CountedIn(old(dict.Value()), key, r)
    ensures !finished ==> Blocked(old(dict.Value()), key, turns, probes)
    ensures dict.Entries() == old(dict.Entries())[key := Word(|old(dict.Entries())|, 1, 0.0)] <==>
      finished && Lossless(old(dict.Value()), key, r)
  {
    ghost var d := dict.Value();
    dict.IsSound();
    finished, r := EnterWord(dict, key, turns);
    dict.IsSound();
    hide Inv, Abs, UniqueKeys, PutIn, Settled, Tried, Lossless, Submap, Stops;
  }

  ghost predicate Separate<K(!new), V>(dict: Dict<K, Word>, bowSet: HashTable.HashTable<K, V>)
    reads dict`htab
  {
    dict.htab as object != bowSet && dict.htab.buf as object != bowSet.buf
  }

  /** Turns that lead from one dictionary to another. */
  ghost predicate Passed<K(!new)>(ds: seq<Dictionary<K, Word>>, keys: seq<K>, rs: seq<nat>,
                                  first: Dictionary<K, Word>, last: Dictionary<K, Word>) {
    Counts(ds, keys, rs) && ds[0] == first && ds[|keys|] == last
  }

  lemma PassedNone<K(!new)>(d: Dictionary<K, Word>)
    requires Sound(d) && UniqueKeys(d.buf)
    ensures Passed([d], [], [], d, d)
  {
    CountsNone(d);
  }

  lemma PassedOne<K(!new)>(ds: seq<Dictionary<K, Word>>, keys: seq<K>, rs: seq<nat>, first: Dictionary<K, Word>,
                           last: Dictionary<K, Word>, key: K, r: nat, d: Dictionary<K, Word>)
    requires Passed(ds, keys, rs, first, last) && Sound(last) && Sound(d) && UniqueKeys(d.buf)
    requires TurnEnds(last, key, r) && d == CountedIn(last, key, r)
    ensures Passed(ds + [d], keys + [key], rs + [r], first, d)
  {
    hide Counts, TurnEnds, CountedIn;
    CountsLength(ds, keys, rs);
    CountsOne(ds, keys, rs, d, key, r);
  }

  lemma CountsLength<K(!new)>(ds: seq<Dictionary<K, Word>>, keys: seq<K>, rs: seq<nat>)
    requires Counts(ds, keys, rs)
    ensures |ds| == |keys| + 1 == |rs| + 1
  {
  }

  /** The turns for the first of these words came to their end, and that for the next one did not. */
  ghost predicate StoppedAt<K(!new)>(ds: seq<Dictionary<K, Word>>, keys: seq<K>, rs: seq<nat>, first: Dictionary<K, Word>,
                                     all: seq<K>, turns: nat, probes: nat) {
    && Counts(ds, keys, rs) && ds[0] == first
    && |keys| < |all| && keys == all[..|keys|] && Blocked(ds[|keys|], all[|keys|], turns, probes)
  }

  lemma StopsAt<K(!new), V>(b: seq<Bucket<K, V>>, b': seq<Bucket<K, V>>, n: nat, keys: seq<K>, load: int,
                            key: K, rest: seq<K>, ds: seq<Dictionary<K, Word>>, rs: seq<nat>, first: Dictionary<K, Word>,
                            last: Dictionary<K, Word>, turns: nat, probes: nat)
    requires TakenOut(b, b', n, keys, load) && |keys| < load && KeysVisited(b, n) == [key] + rest
    requires Passed(ds, keys, rs, first, last) && Sound(last) && Blocked(last, key, turns, probes)
    ensures StoppedAt(ds, keys, rs, first, FirstHalf(KeysVisited(b, 0)), turns, probes)
  {
    hide Counts, Blocked, KeysVisited, Abs, UniqueKeys;
    CountsLength(ds, keys, rs);
    var all := KeysVisited(b, 0);
    assert all == keys + ([key] + rest);
    assert FirstHalf(all)[..|keys|] == keys && FirstHalf(all)[|keys|] == key;
  }

  /** What is still to come from bucket n on: `entry` and what follows it. */
  ghost predicate Coming<K, V>(b: seq<Bucket<K, V>>, n: nat, entry: Option<nat>, state: nat) {
    && (entry.Some? ==> n <= entry.value < |b| && b[entry.value].Occupied? && state == entry.value + 1)
    && KeysVisited(b, n) == if entry.Some? then [b[entry.value].key] + KeysVisited(b, state) else []
  }

  /** One turn of the loop of ml_init_vocabulary_from_json_bow_set. */
  method CountEntry<K(!new, ==), V>(dict: Dict<K, Word>, bowSet: HashTable.HashTable<K, V>, s: nat, turns: nat, probes: nat,
                                    ghost b: seq<Bucket<K, V>>, ghost n: nat, ghost keys: seq<K>)
    returns (finished: bool, ghost r: nat)
    requires dict.Valid() && dict.keySz > 0 && bowSet.Valid() && Separate(dict, bowSet)
    requires TakenOut(b, bowSet.buf[..], n, keys, bowSet.bufLoad) && |keys| < bowSet.bufLoad
    requires n <= s < |b| && b[s].Occupied? && KeysVisited(b, n) == [b[s].key] + KeysVisited(b, s + 1)
    modifies dict`htab, dict`keySz, dict.htab`bufLoad, dict.htab.buf, bowSet`bufLoad, bowSet.buf
    ensures dict.Valid() && dict.keySz > 0 && bowSet.Valid() && dict.SameOrNew(old(dict.htab), old(dict.htab.buf))
    ensures finished ==> TakenOut(b, bowSet.buf[..], s + 1, keys + [b[s].key], bowSet.bufLoad)
    ensures finished ==> bowSet.bufLoad == old(bowSet.bufLoad) - 1
    ensures bowSet.buf.Length == |b| && (finished ==> forall t: nat :: s < t < |b| ==> bowSet.buf[t] == b[t])
    ensures Sound(old(dict.Value()))
    ensures finished ==> TurnEnds(old(dict.Value()), b[s].key, r)
    ensures finished ==> dict.Value() == CountedIn(old(dict.Value()), b[s].key, r)
    ensures !finished ==> Blocked(old(dict.Value()), b[s].key, turns, probes)
  {
    hide TakenOut, TurnEnds, CountedIn, Blocked, Sound, KeysVisited, Bury;
    hide Dict.Valid, HashTable.HashTable.Valid, Inv, Abs, UniqueKeys;
    IsInv(bowSet);
    TakenOutOne(bowSet.p, b, bowSet.buf[..], n, keys, bowSet.bufLoad, s);
    finished, r := CountWord(dict, bowSet.buf[s].key, turns, probes);
    if finished {
      RemoveEntry(bowSet, s);
      TakenOutAhead(b, bowSet.buf[..], s + 1, keys + [b[s].key], bowSet.bufLoad);
    }
  }

  /** The loop. */
  method CountSet<K(!new, ==), V>(dict: Dict<K, Word>, bowSet: HashTable.HashTable<K, V>, turns: nat, probes: nat)
    returns (finished: bool, ghost keys: seq<K>, ghost rs: seq<nat>, ghost ds: seq<Dictionary<K, Word>>, ghost n: nat)
    requires dict.Valid() && dict.keySz > 0 && bowSet.Valid() && Separate(dict, bowSet)
    modifies dict`htab, dict`keySz, dict.htab`bufLoad, dict.htab.buf, bowSet`bufLoad, bowSet.buf
    ensures dict.Valid() && bowSet.Valid()
    ensures finished ==> TakenOut(old(bowSet.buf[..]), bowSet.buf[..], n, keys, bowSet.bufLoad)
    ensures finished ==> KeysVisited(old(bowSet.buf[..]), n) == [] || |keys| >= bowSet.bufLoad
    ensures finished ==> Passed(ds, keys, rs, old(dict.Value()), dict.Value())
    ensures !finished ==>
      StoppedAt(ds, keys, rs, old(dict.Value()), FirstHalf(KeysVisited(old(bowSet.buf[..]), 0)), turns, probes)
  {
    hide TakenOut, Passed, StoppedAt, TurnEnds, CountedIn, Blocked, Sound, KeysVisited, FirstHalf;
    hide Dict.Valid, HashTable.HashTable.Valid, Inv, Abs, UniqueKeys;
    ghost var b, d := bowSet.buf[..], dict.Value();
    var i: nat := 0;
    n := 0;
    finished, keys, rs, ds := true, [], [], [d];
    TakenOutZero(bowSet);
    dict.IsSound();
    PassedNone(d);
    var entry, state := NextEntry(bowSet, 0, b);
    while entry.Some? && i < bowSet.bufLoad
      invariant dict.Valid() && dict.keySz > 0 && bowSet.Valid() && dict.SameOrNew(old(dict.htab), old(dict.htab.buf))
      invariant TakenOut(b, bowSet.buf[..], n, keys, bowSet.bufLoad) && i == |keys|
      invariant Coming(b, n, entry, state) && Passed(ds, keys, rs, d, dict.Value())
      decreases bowSet.bufLoad - i
    {
      ghost var b', load := bowSet.buf[..], bowSet.bufLoad;
      ghost var before, k, r := dict.Value(), b[entry.value].key, 0;
      finished, r := CountEntry(dict, bowSet, entry.value, turns, probes, b, n, keys);
      if !finished {
        StopsAt(b, b', n, keys, load, k, KeysVisited(b, state), ds, rs, d, before, turns, probes);
        return;
      }
      dict.IsSound();
      PassedOne(ds, keys, rs, d, before, k, r, dict.Value());
      i, n, keys, rs, ds := i + 1, state, keys + [k], rs + [r], ds + [dict.Value()];
      entry, state := NextEntry(bowSet, state, b);
    }
  }

  lemma IsInv<K(!new), V>(dict: HashTable.HashTable<K, V>)
    requires dict.Valid()
    ensures Inv(dict.p, dict.buf[..])
  {
  }

  lemma PassedEnds<K(!new)>(ds: seq<Dictionary<K, Word>>, keys: seq<K>, rs: seq<nat>,
                            first: Dictionary<K, Word>, last: Dictionary<K, Word>)
    requires Passed(ds, keys, rs, first, last)
    ensures UniqueKeys(first.buf) && UniqueKeys(last.buf) && |Words(ds)| == |keys| + 1
    ensures Numbered(Abs(first.buf)) && AlwaysLostLast(Words(ds), keys) ==> Numbered(Abs(last.buf))
    ensures AllKept(ds, keys, rs) ==> Abs(last.buf) == CountedAll(Abs(first.buf), keys)
  {
    hide Numbered, AlwaysLostLast, AllKept, CountedAll, Turns, NeverLost, Abs, Sound;
    CountsTurns(ds, keys, rs);
    if AllKept(ds, keys, rs) { AllCounted(ds, keys, rs); }
    if Numbered(Abs(first.buf)) && AlwaysLostLast(Words(ds), keys) { NumberedUpTo(Words(ds), keys, |keys|); }
  }

  /** ml_init_vocabulary_from_json_bow_set. Of N entries of the set it takes out the first (N + 1) / 2 of the
      traversal and leaves N / 2, and the vocabulary goes through one turn for each of those words: `ds` is
      the dictionary before, between and after the turns, each determined by the one before (`Counts`).
      When no rehash of any turn lost a word (`AllKept`), all those words are counted; the positions stay a
      bijection exactly as `NumberedThroughoutIff` says. If a search or a dict_put does not come to its end
      within the bounds, it is that of the next of those words (`StoppedAt`). */
  method InitVocabulary<K(!new, ==), V>(dict: Dict<K, Word>, bowSet: HashTable.HashTable<K, V>, turns: nat, probes: nat)
    returns (finished: bool, ghost keys: seq<K>, ghost rs: seq<nat>, ghost ds: seq<Dictionary<K, Word>>)
    requires dict.Valid() && dict.keySz > 0 && bowSet.Valid() && Separate(dict, bowSet)
    modifies dict`htab, dict`keySz, dict.htab`bufLoad, dict.htab.buf, bowSet`bufLoad, bowSet.buf
    ensures dict.Valid() && bowSet.Valid()
    ensures finished ==> keys == FirstHalf(KeysVisited(old(bowSet.buf[..]), 0))
    ensures finished ==> bowSet.Entries() == old(bowSet.Entries()) - (set k | k in keys)
    ensures finished ==> |keys| == (old(bowSet.bufLoad) + 1) / 2 && bowSet.bufLoad == old(bowSet.bufLoad) / 2
    ensures finished ==> Counts(ds, keys, rs) && ds[0] == old(dict.Value()) && ds[|keys|] == dict.Value()
    ensures finished && AllKept(ds, keys, rs) ==> dict.Entries() == CountedAll(old(dict.Entries()), keys)
    ensures finished && Numbered(old(dict.Entries())) && AlwaysLostLast(Words(ds), keys) ==> Numbered(dict.Entries())
    ensures !finished ==>
      StoppedAt(ds, keys, rs, old(dict.Value()), FirstHalf(KeysVisited(old(bowSet.buf[..]), 0)), turns, probes)
  {
    ghost var b, d, n, m := bowSet.buf[..], dict.Value(), 0, dict.Entries();
    dict.IsSound();
    SetLoad(bowSet);
    FirstHalfLength(KeysVisited(b, 0));
    hide *;
    finished, keys, rs, ds, n := CountSet(dict, bowSet, turns, probes);
    dict.IsSound();
    if finished {
      TakenOutHalf(b, bowSet.buf[..], n, keys, bowSet.bufLoad);
      PassedMeans(ds, keys, rs, d, dict.Value());
      PassedEnds(ds, keys, rs, d, dict.Value());
      SetLoad(bowSet);
    }
  }

  lemma PassedMeans<K(!new)>(ds: seq<Dictionary<K, Word>>, keys: seq<K>, rs: seq<nat>,
                             first: Dictionary<K, Word>, last: Dictionary<K, Word>)
    requires Passed(ds, keys, rs, first, last)
    ensures Counts(ds, keys, rs) && |ds| == |keys| + 1 && ds[0] == first && ds[|keys|] == last
    ensures forall i: nat :: i < |ds| ==> UniqueKeys(ds[i].buf)
  {
  }

  lemma SetLoad<K(!new), V>(bowSet: HashTable.HashTable<K, V>)
    requires bowSet.Valid()
    ensures |KeysVisited(bowSet.buf[..], 0)| == bowSet.bufLoad && UniqueKeys(bowSet.buf[..])
    ensures bowSet.Entries() == Abs(bowSet.buf[..])
  {
    LoadVisits(bowSet);
  }

  lemma FirstHalfLength<T>(s: seq<T>)
    ensures |FirstHalf(s)| == (|s| + 1) / 2
  {
  }

  /** The first (N + 1) / 2 of N elements. */
  function FirstHalf<T>(s: seq<T>): seq<T> { s[..(|s| + 1) / 2] }

  // ---------- ml_idf_remove ----------

  /** The words below bucket n have increasing positions below `next`. */
  ghost predicate Ranked<K>(b: seq<Bucket<K, Word>>, n: nat, next: int) {
    && (forall s: nat :: s < n && s < |b| && b[s].Occupied? ==> 0 <= b[s].val.position < next)
    && forall s: nat, t: nat :: s < t < n && t < |b| && b[s].Occupied? && b[t].Occupied? ==>
         b[s].val.position < b[t].val.position
  }

  lemma RankedNumbers<K(!new)>(b: seq<Bucket<K, Word>>)
    requires UniqueKeys(b) && Ranked(b, |b|, |Abs(b)|)
    ensures Numbered(Abs(b))
  {
    var m := Abs(b);
    forall k | k in m ensures 0 <= m[k].position < |m| {
      var s: nat :| Holds(b, s, k);
      assert m[b[s].key] == b[s].val;
    }
    forall k, l | k in m && l in m && m[k].position == m[l].position ensures k == l {
      var s: nat :| Holds(b, s, k);
      var t: nat :| Holds(b, t, l);
      assert m[b[s].key] == b[s].val && m[b[t].key] == b[t].val;
    }
  }

  /** What has become of bucket s: gone if the predicate removes its word, and with its new idf otherwise. */
  ghost predicate Judged<K>(b: seq<Bucket<K, Word>>, b': seq<Bucket<K, Word>>, s: nat,
                            idf: int -> real, remove: real -> bool)
    requires s < |b| == |b'|
  {
    if !b[s].Occupied? then b'[s] == b[s]
    else if remove(idf(b[s].val.count)) then b'[s].Deleted?
    else && b'[s].Occupied? && b'[s].hash == b[s].hash && b'[s].key == b[s].key
         && b'[s].val.count == b[s].val.count && b'[s].val.idf == idf(b[s].val.count)
  }

  /** The words that stay, as a map. */
  ghost predicate Survivors<K(!new)>(m: map<K, Word>, m': map<K, Word>, idf: int -> real, remove: real -> bool) {
    && (forall k :: k in m' <==> k in m && !remove(idf(m[k].count)))
    && forall k :: k in m' ==> m'[k].count == m[k].count && m'[k].idf == idf(m[k].count)
  }

  lemma JudgedSurvivors<K(!new)>(b: seq<Bucket<K, Word>>, b': seq<Bucket<K, Word>>, idf: int -> real, remove: real -> bool)
    requires |b| == |b'| && UniqueKeys(b) && UniqueKeys(b')
    requires forall s: nat :: s < |b| ==> Judged(b, b', s, idf, remove)
    ensures Survivors(Abs(b), Abs(b'), idf, remove)
  {
    forall k | k in Abs(b')
      ensures k in Abs(b) && !remove(idf(Abs(b)[k].count))
      ensures Abs(b')[k].count == Abs(b)[k].count && Abs(b')[k].idf == idf(Abs(b)[k].count)
    {
      var s: nat :| Holds(b', s, k);
      assert Judged(b, b', s, idf, remove) && Holds(b, s, k);
      assert Abs(b')[b'[s].key] == b'[s].val && Abs(b)[b[s].key] == b[s].val;
    }
    forall k | k in Abs(b) && !remove(idf(Abs(b)[k].count)) ensures k in Abs(b') {
      var s: nat :| Holds(b, s, k);
      assert Abs(b)[b[s].key] == b[s].val;
      assert Judged(b, b', s, idf, remove) && Holds(b', s, k);
    }
  }

  /** Up to bucket n the words are judged and renumbered, `kept` of them stay; the others are as before. */
  ghost predicate Progress<K>(b: seq<Bucket<K, Word>>, b': seq<Bucket<K, Word>>, n: nat, kept: int,
                              idf: int -> real, remove: real -> bool)
  {
    && |b'| == |b| && Ranked(b', n, kept)
    && (forall s: nat :: s < n && s < |b| ==> Judged(b, b', s, idf, remove))
    && forall s: nat :: n <= s < |b| ==> b'[s] == b[s]
  }

  /** One word judged: what is done to its bucket. */
  function JudgedBucket<K>(e: Bucket<K, Word>, position: int, idf: int -> real, remove: real -> bool): (r: Bucket<K, Word>)
    requires e.Occupied?
  {
    var w := e.val.(idf := idf(e.val.count));
    if remove(w.idf) then Deleted(e.hash, e.key, w) else Occupied(e.hash, e.key, w.(position := position))
  }

  lemma ProgressOne<K>(b: seq<Bucket<K, Word>>, b': seq<Bucket<K, Word>>, n: nat, s: nat, kept: int,
                       idf: int -> real, remove: real -> bool, kept': int)
    requires Progress(b, b', n, kept, idf, remove) && n <= s < |b| && b[s].Occupied? && kept >= 0
    requires forall t: nat :: n <= t < s ==> !b[t].Occupied?
    requires kept' == if remove(idf(b[s].val.count)) then kept else kept + 1
    ensures Progress(b, b'[s := JudgedBucket(b[s], kept, idf, remove)], s + 1, kept', idf, remove)
  {
    var b'' := b'[s := JudgedBucket(b[s], kept, idf, remove)];
    forall t: nat | t < s + 1 && t < |b| ensures Judged(b, b'', t, idf, remove) {
      if t < n { assert Judged(b, b', t, idf, remove); } else if t < s { assert b'[t] == b[t]; }
    }
    RankedOne(b', n, s, kept, b''[s], kept');
  }

  lemma RankedOne<K>(b: seq<Bucket<K, Word>>, n: nat, s: nat, kept: int, e: Bucket<K, Word>, kept': int)
    requires Ranked(b, n, kept) && n <= s < |b| && 0 <= kept <= kept'
    requires forall t: nat :: n <= t < s ==> !b[t].Occupied?
    requires e.Occupied? ==> kept' == kept + 1 && e.val.position == kept
    ensures Ranked(b[s := e], s + 1, kept')
  {
    var c := b[s := e];
    forall t: nat | t < s + 1 && c[t].Occupied? ensures 0 <= c[t].val.position < kept' {
      if t < s { assert c[t] == b[t] && t < n; }
    }
    forall t: nat, u: nat | t < u < s + 1 && c[t].Occupied? && c[u].Occupied?
      ensures c[t].val.position < c[u].val.position
    {
      assert c[t] == b[t] && t < n;
      if u < s { assert c[u] == b[u] && u < n; }
    }
  }

  /** A word is changed in place. */
  method StoreWord<K(!new, ==)>(dict: HashTable.HashTable<K, Word>, s: nat, w: Word)
    requires dict.Valid() && s < dict.buf.Length && dict.buf[s].Occupied?
    modifies dict.buf
    ensures dict.Valid() && dict.buf[..] == old(dict.buf[..])[s := Occupied(old(dict.buf[s]).hash, old(dict.buf[s]).key, w)]
  {
    dict.Write(s, w);
  }

  /** ml_idf_remove on one word: the idf is stored, and the word is deleted or takes the next position. */
  method JudgeWord<K(!new, ==)>(dict: HashTable.HashTable<K, Word>, s: nat, position: int,
                                   idf: int -> real, remove: real -> bool)
    returns (deleted: bool)
    requires dict.Valid() && s < dict.buf.Length && dict.buf[s].Occupied?
    modifies dict`bufLoad, dict.buf
    ensures dict.Valid() && deleted == remove(idf(old(dict.buf[s]).val.count))
    ensures dict.buf[..] == old(dict.buf[..])[s := JudgedBucket(old(dict.buf[s]), position, idf, remove)]
    ensures dict.bufLoad == old(dict.bufLoad) - if deleted then 1 else 0
  {
    hide Inv, Abs, UniqueKeys;
    var e := dict.buf[s];
    var w := e.val.(idf := idf(e.val.count));
    StoreWord(dict, s, w);
    deleted := remove(w.idf);
    if deleted {
      RemoveEntry(dict, s);
    } else {
      StoreWord(dict, s, w.(position := position));
    }
  }

  /** The loop of ml_idf_remove before its i-th turn: the buckets before n are done, c words are gone. */
  ghost predicate Turn<K>(b: seq<Bucket<K, Word>>, b': seq<Bucket<K, Word>>, n: nat, i: nat, c: nat, end: nat, load: int,
                          idf: int -> real, remove: real -> bool)
  {
    && c <= i && load == end - c && i + |Visits(b, n)| == end
    && Progress(b, b', n, i - c, idf, remove)
  }

  lemma TurnOne<K>(b: seq<Bucket<K, Word>>, b': seq<Bucket<K, Word>>, n: nat, s: nat, i: nat, c: nat, end: nat, load: int,
                   idf: int -> real, remove: real -> bool, deleted: bool)
    requires Turn(b, b', n, i, c, end, load, idf, remove) && Pending(b, n, Some(s), s + 1)
    requires s < |b| == |b'| && b'[s].Occupied?
    requires deleted == remove(idf(b'[s].val.count))
    ensures Turn(b, b'[s := JudgedBucket(b'[s], i - c, idf, remove)], s + 1, i + 1, if deleted then c + 1 else c, end,
                 if deleted then load - 1 else load, idf, remove)
  {
    PendingSkips(b, n, Some(s), s + 1);
    ProgressOne(b, b', n, s, i - c, idf, remove, if deleted then i - c else i - c + 1);
    assert |Visits(b, n)| == 1 + |Visits(b, s + 1)|;
  }

  lemma TurnEntry<K>(b: seq<Bucket<K, Word>>, b': seq<Bucket<K, Word>>, n: nat, s: nat, i: nat, c: nat, end: nat, load: int,
                     idf: int -> real, remove: real -> bool)
    requires Turn(b, b', n, i, c, end, load, idf, remove) && Pending(b, n, Some(s), s + 1)
    ensures s < |b| == |b'| && b'[s] == b[s] && b[s].Occupied?
  {
    PendingSkips(b, n, Some(s), s + 1);
  }

  lemma TurnLast<K>(b: seq<Bucket<K, Word>>, b': seq<Bucket<K, Word>>, n: nat, entry: Option<nat>, state: nat,
                    i: nat, c: nat, end: nat, load: int, idf: int -> real, remove: real -> bool)
    requires Turn(b, b', n, i, c, end, load, idf, remove) && Pending(b, n, entry, state) && (entry.None? || i >= end)
    ensures Progress(b, b', |b|, load, idf, remove)
  {
    PendingSkips(b, n, entry, state);
    assert entry.None?;
  }

  lemma TurnZero<K(!new)>(dict: HashTable.HashTable<K, Word>, idf: int -> real, remove: real -> bool)
    requires dict.Valid()
    ensures Turn(dict.buf[..], dict.buf[..], 0, 0, 0, dict.bufLoad, dict.bufLoad, idf, remove)
  {
    LoadVisits(dict);
  }

  lemma TurnAhead<K>(b: seq<Bucket<K, Word>>, b': seq<Bucket<K, Word>>, n: nat, i: nat, c: nat, end: nat, load: int,
                     idf: int -> real, remove: real -> bool)
    requires Turn(b, b', n, i, c, end, load, idf, remove)
    ensures |b'| == |b| && forall s: nat :: n <= s < |b| ==> b'[s] == b[s]
  {
  }

  /** ml_idf_remove, for any rule of removal. The table is changed while it is traversed, yet every word is
      judged once, the words that stay keep their counts, and their positions are a bijection again. */
  method IdfRemove<K(!new, ==)>(dict: HashTable.HashTable<K, Word>, idf: int -> real, remove: real -> bool)
    requires dict.Valid()
    modifies dict`bufLoad, dict.buf
    ensures dict.Valid() && Numbered(dict.Entries())
    ensures Survivors(old(dict.Entries()), dict.Entries(), idf, remove)
    ensures Progress(old(dict.buf[..]), dict.buf[..], dict.buf.Length, dict.bufLoad, idf, remove)
  {
    ghost var b := dict.buf[..];
    TurnZero(dict, idf, remove);
    JudgeAll(dict, idf, remove);
    JudgedSurvivors(b, dict.buf[..], idf, remove);
    RankedNumbers(dict.buf[..]);
  }

  /** The loop of ml_idf_remove. */
  method JudgeAll<K(!new, ==)>(dict: HashTable.HashTable<K, Word>, idf: int -> real, remove: real -> bool)
    requires dict.Valid()
    modifies dict`bufLoad, dict.buf
    ensures dict.Valid() && Progress(old(dict.buf[..]), dict.buf[..], dict.buf.Length, dict.bufLoad, idf, remove)
  {
    hide *;
    ghost var b := dict.buf[..];
    var end := dict.bufLoad;
    var i: nat, c: nat := 0, 0;
    ghost var n: nat := 0;
    TurnZero(dict, idf, remove);
    var entry, state := NextEntry(dict, 0, b);
    while entry.Some? && i < end
      invariant dict.Valid() && Turn(b, dict.buf[..], n, i, c, end, dict.bufLoad, idf, remove)
      invariant Pending(b, n, entry, state) && (entry.Some? ==> state == entry.value + 1)
      decreases end - i
    {
      ghost var b', load := dict.buf[..], dict.bufLoad;
      TurnEntry(b, b', n, entry.value, i, c, end, load, idf, remove);
      var deleted := JudgeWord(dict, entry.value, i - c, idf, remove);
      TurnOne(b, b', n, entry.value, i, c, end, load, idf, remove, deleted);
      if deleted {
        c := c + 1;
      }
      i, n := i + 1, state;
      TurnAhead(b, dict.buf[..], n, i, c, end, dict.bufLoad, idf, remove);
      entry, state := NextEntry(dict, state, b);
    }
    TurnLast(b, dict.buf[..], n, entry, state, i, c, end, dict.bufLoad, idf, remove);
  }
}
