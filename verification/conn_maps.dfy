// Connections by key, on the cache's and on the service's side.

module ConnMaps {
  import opened Entries

  /** What the service holds after a notification that names `pairs`: the message shows the
      connections of the cache as they are when it is handled. */
  function Synced<C>(svc: map<TKey, C>, conns: map<TKey, C>, pairs: set<Pair>): map<TKey, C>
  {
    (map k | k in svc && KeyPair(k) !in pairs :: svc[k]) + (map k | k in conns && KeyPair(k) in pairs :: conns[k])
  }

  /** The service's connections of the named pairs that the cache no longer has. */
  ghost function Stale<C>(svc: map<TKey, C>, conns: map<TKey, C>, pairs: set<Pair>): set<C>
  {
    set k | k in svc && KeyPair(k) in pairs
            && !(exists k' :: k' in conns && KeyPair(k') == KeyPair(k) && conns[k'] == svc[k]) :: svc[k]
  }

  ghost predicate SamePair<C>(a: map<TKey, C>, b: map<TKey, C>, p: Pair)
  {
    forall k :: KeyPair(k) == p ==> (k in a <==> k in b) && (k in a && k in b ==> a[k] == b[k])
  }

  lemma SyncedSame<C>(svc: map<TKey, C>, conns: map<TKey, C>, pairs: set<Pair>)
    ensures forall p :: p in pairs ==> SamePair(Synced(svc, conns, pairs), conns, p)
    ensures forall p :: p !in pairs ==> SamePair(Synced(svc, conns, pairs), svc, p)
  {
  }
}
