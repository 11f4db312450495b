/** Deleting the index of one segment. */
module IndexDeletion {
  import opened Bytes
  import opened Strings
  import opened Decimal
  import opened Store
  import opened Keys

  /** `rocksdb_engine_prefix_map`: the entries under a prefix as an unordered map. */
  method PrefixMap(store: RocksStore, prefix: string) returns (found: map<string, Value>)
    ensures found.Keys == WithPrefix(store.db.Keys, prefix)
    ensures forall k :: k in found <==> k in store.db && prefix <= k
    ensures forall k :: k in found ==> found[k] == store.db[k]
  {
    hide SortedKeys, LexLess;
    var raw := store.ReadPrefix(prefix);
    ghost var ks := SortedKeys(WithPrefix(store.db.Keys, prefix));
    found := map[];
    for i := 0 to |raw|
      invariant found.Keys == Elems(ks[..i])
      invariant forall k :: k in found ==> k in store.db && found[k] == store.db[k]
    {
      found := found[raw[i].0 := raw[i].1];
      assert ks[..i + 1] == ks[..i] + [ks[i]];
    }
    assert ks[..|raw|] == ks;
  }

  /** Collects the segment's entries, then deletes them one by one in whatever order the map yields.
      A failed delete ends the loop early. */
  method DeleteSegmentIndex(store: RocksStore, s: Iden) returns (ok: bool)
    modifies store
    ensures ok ==> store.db == old(store.db) - WithPrefix(old(store.db).Keys, SegmentIndexPrefix(s))
    ensures forall k :: k in old(store.db) && !(SegmentIndexPrefix(s) <= k) ==> k in store.db && store.db[k] == old(store.db[k])
    ensures store.db.Keys <= old(store.db).Keys
    ensures store.faults == old(store.faults) + if ok then 0 else 1
  {
    hide SegmentIndexPrefix;
    var found := PrefixMap(store, SegmentIndexPrefix(s));
    var left := found.Keys;
    while left != {}
      invariant left <= found.Keys
      invariant store.db == old(store.db) - (found.Keys - left) && store.faults == old(store.faults)
      decreases left
    {
      var k :| k in left;
      var deleted := store.Delete(k);
      if !deleted {
        return false;
      }
      left := left - {k};
    }
    ok := true;
  }

  /** With slash-free names, deleting a segment's index removes all and only that segment's keys. */
  lemma DeletionIsExact(db: Db, s: Iden, other: Iden, n: Name)
    requires s.Plain() && other.Plain() && Render(other, n) in db
    ensures Render(other, n) in db - WithPrefix(db.Keys, SegmentIndexPrefix(s)) <==> other != s
  {
    hide SegmentIndexPrefix, Tail;
    SegmentsApart(s, other, Tail(n));
  }

  /** A slash in a shard name breaks this, for every segment: deleting segment 1 of shard "b" takes with
      it every key of shard "b/1". */
  lemma DeletionReachesOtherShard(db: Db, s: Iden, k: u32, n: Name)
    requires Render(SegmentIdentity(s.namespace, s.shardName + "/" + Dec(s.segmentSeq), k), n) in db
    ensures
      var other := SegmentIdentity(s.namespace, s.shardName + "/" + Dec(s.segmentSeq), k);
      other != s && Render(other, n) !in db - WithPrefix(db.Keys, SegmentIndexPrefix(s))
  {
    hide Render, SegmentIndexPrefix, Dec;
    SlashInShardName(s, k, n);
    assert |s.shardName + "/" + Dec(s.segmentSeq)| > |s.shardName|;
  }
}
