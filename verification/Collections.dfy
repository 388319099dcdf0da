/** What several parts say of sequences and maps. */
module Collections {
  ghost predicate Distinct<T>(s: seq<T>) {
    forall i: nat, j: nat :: i < j < |s| ==> s[i] != s[j]
  }

  /** As many keys as numbers below n, when no two share one. */
  lemma {:induction false} InjectiveCard<K>(f: map<K, nat>, n: nat)
    requires forall k :: k in f ==> f[k] < n
    requires forall k, l :: k in f && l in f && f[k] == f[l] ==> k == l
    ensures |f| <= n
  {
    if k :| k in f && f[k] == n - 1 {
      InjectiveCard(f - {k}, n - 1);
      assert f.Keys == (f - {k}).Keys + {k};
    } else if n > 0 {
      InjectiveCard(f, n - 1);
    } else {
      assert f.Keys == {};
    }
  }
}
