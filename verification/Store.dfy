/** The ordered key-value store: saves, point reads, and scans with a raw iterator.
    Column families and JSON text are left out; a stored value is a number or an index entry. */
module Store {
  import opened Options
  import opened Strings
  import opened SegmentLog

  datatype IndexData = IndexData(offset: nat, timestamp: nat, position: nat)

  /** The field a scan compares. */
  datatype Rank = ByOffset | ByTime {
    function Of(d: IndexData): nat { if ByOffset? then d.offset else d.timestamp }
  }

  datatype Value = Num(n: nat) | Index(data: IndexData)

  type Db = map<string, Value>

  datatype Lookup<T> = Found(value: T) | Corrupt

  /** Where `seek(from)` puts an iterator over the sorted keys: at the first key not below `from`. */
  function Seek(keys: seq<string>, from: string): (i: nat)
    ensures i <= |keys|
    ensures forall j :: 0 <= j < i ==> LexLess(keys[j], from)
    ensures i < |keys| ==> !LexLess(keys[i], from)
  {
    if keys == [] || !LexLess(keys[0], from) then 0 else 1 + Seek(keys[1..], from)
  }

  function WithPrefix(keys: set<string>, p: string): set<string> { set k | k in keys && p <= k }

  /** Keys below the seek point, and keys past the first one that lacks the prefix, lack the prefix. */
  lemma OutsideBlock(keys: seq<string>, p: string, j: nat, i: nat)
    requires StrictlySorted(keys) && j < |keys| && Seek(keys, p) <= i <= |keys|
    requires j < Seek(keys, p) || (i < |keys| && !(p <= keys[i]) && i <= j)
    ensures !(p <= keys[j])
  {
    if j < Seek(keys, p) {
      if p <= keys[j] { PrefixLexLeq(p, keys[j]); LexAsym(keys[j], p); }
    } else {
      var lo := Seek(keys, p);
      LexTotal(keys[lo], p);
      if lo < i {
        if keys[lo] == p { assert LexLess(p, keys[i]); } else { LexTrans(p, keys[lo], keys[i]); }
      }
      if i < j { PrefixBlock(p, keys[i], keys[j]); }
    }
  }

  /** The block of keys between the seek point and the first key without the prefix is
      the sorted list of all keys that have it. */
  lemma BlockIsPrefixScan(all: set<string>, p: string, i: nat)
    requires
      var keys := SortedKeys(all);
      && Seek(keys, p) <= i <= |keys|
      && (forall j :: Seek(keys, p) <= j < i ==> p <= keys[j])
      && (i < |keys| ==> !(p <= keys[i]))
    ensures SortedKeys(all)[Seek(SortedKeys(all), p)..i] == SortedKeys(WithPrefix(all, p))
  {
    hide SortedKeys, Seek, LexLess;
    var keys := SortedKeys(all);
    var lo := Seek(keys, p);
    var block := keys[lo..i];
    forall k ensures k in Elems(block) <==> k in WithPrefix(all, p) {
      if k in Elems(block) {
        var b :| 0 <= b < |block| && block[b] == k;
        assert keys[lo + b] == k && k in Elems(keys);
      }
      if k in WithPrefix(all, p) {
        assert k in Elems(keys);
        var j :| 0 <= j < |keys| && keys[j] == k;
        if j < lo || i <= j { OutsideBlock(keys, p, j, i); }
        assert block[j - lo] == k;
      }
    }
    assert Elems(block) == WithPrefix(all, p);
    SliceSorted(keys, lo, i);
    SortedUnique(block, SortedKeys(WithPrefix(all, p)));
  }

  // ---------------------------------------------------------------- scans that test the stored entry

  /** The keys under a prefix whose entry ranks at least `bound`. */
  function Hits(db: Db, keys: set<string>, p: string, rank: Rank, bound: nat): set<string>
  {
    set k | k in keys && k in db && p <= k && db[k].Index? && rank.Of(db[k].data) >= bound
  }

  predicate AllIndex(db: Db, p: string) { forall k :: k in db && p <= k ==> db[k].Index? }

  function Entries(db: Db, ks: seq<string>): seq<IndexData>
    requires forall k :: k in ks ==> k in db && db[k].Index?
  {
    seq(|ks|, i requires 0 <= i < |ks| => assert ks[i] in ks; db[ks[i]].data)
  }

  function Cap(limit: nat, n: nat): nat { if Max1(limit) <= n then Max1(limit) else n }

  /** What a limited scan returns: the entries ranking at least `bound`, in key byte order,
      cut to `limit`, where a limit of zero counts as one. */
  function Scan(db: Db, p: string, rank: Rank, bound: nat, limit: nat): seq<IndexData>
  {
    var ks := SortedKeys(Hits(db, db.Keys, p, rank, bound));
    assert forall k :: k in ks[..Cap(limit, |ks|)] ==> k in Elems(ks);
    Entries(db, ks[..Cap(limit, |ks|)])
  }

  /** What a search for one entry returns: the least key, in byte order, ranking at least `bound`. */
  function First(db: Db, p: string, rank: Rank, bound: nat): Option<IndexData>
  {
    var hits := Hits(db, db.Keys, p, rank, bound);
    if hits == {} then None else Some(db[Least(hits)].data)
  }

  function Taken(keys: seq<string>, i: nat): set<string>
    requires i <= |keys|
  { Elems(keys[..i]) }

  lemma TakenStep(db: Db, keys: seq<string>, i: nat, p: string, rank: Rank, bound: nat)
    requires StrictlySorted(keys) && i < |keys| && keys[i] in db
    ensures
      var before, after := Hits(db, Taken(keys, i), p, rank, bound), Hits(db, Taken(keys, i + 1), p, rank, bound);
      if p <= keys[i] && db[keys[i]].Index? && rank.Of(db[keys[i]].data) >= bound
      then SortedKeys(after) == SortedKeys(before) + [keys[i]]
      else after == before
  {
    var before, after := Hits(db, Taken(keys, i), p, rank, bound), Hits(db, Taken(keys, i + 1), p, rank, bound);
    hide SortedKeys, LexLess;
    assert keys[..i + 1] == keys[..i] + [keys[i]];
    assert Taken(keys, i + 1) == Taken(keys, i) + {keys[i]};
    if p <= keys[i] && db[keys[i]].Index? && rank.Of(db[keys[i]].data) >= bound {
      assert after == before + {keys[i]};
      forall x, y | x in before && y in {keys[i]} ensures LexLess(x, y) {
        assert x in Taken(keys, i);
        var j :| 0 <= j < i && keys[j] == x;
      }
      SortedKeysSplit(before, {keys[i]});
      SortedUnique(SortedKeys({keys[i]}), [keys[i]]);
    } else {
      assert after == before;
    }
  }

  /** The hits among the first keys come first among all hits. */
  lemma TakenIsFront(db: Db, keys: seq<string>, i: nat, p: string, rank: Rank, bound: nat)
    requires StrictlySorted(keys) && Elems(keys) == db.Keys && i <= |keys|
    ensures SortedKeys(Hits(db, Taken(keys, i), p, rank, bound)) <= SortedKeys(Hits(db, db.Keys, p, rank, bound))
  {
    var front, back := Hits(db, Taken(keys, i), p, rank, bound), Hits(db, Elems(keys[i..]), p, rank, bound);
    hide SortedKeys, LexLess;
    assert keys == keys[..i] + keys[i..];
    assert Hits(db, db.Keys, p, rank, bound) == front + back;
    forall x, y | x in front && y in back ensures LexLess(x, y) {
      var a :| 0 <= a < i && keys[..i][a] == x;
      var b :| 0 <= b < |keys| - i && keys[i..][b] == y;
      assert keys[a] == x && keys[i + b] == y;
    }
    SortedKeysSplit(front, back);
  }

  /** Once the iterator stands on a key without the prefix, or at the end, it has passed every hit. */
  lemma PassedAll(db: Db, keys: seq<string>, i: nat, p: string, rank: Rank, bound: nat)
    requires StrictlySorted(keys) && Elems(keys) == db.Keys && Seek(keys, p) <= i <= |keys|
    requires i < |keys| ==> !(p <= keys[i])
    ensures Hits(db, Taken(keys, i), p, rank, bound) == Hits(db, db.Keys, p, rank, bound)
  {
    forall k | k in Hits(db, db.Keys, p, rank, bound) ensures k in Taken(keys, i) {
      assert k in Elems(keys);
      var j :| 0 <= j < |keys| && keys[j] == k;
      if i <= j { OutsideBlock(keys, p, j, i); }
      assert keys[..i][j] == k;
    }
  }

  lemma NoneBeforeSeek(db: Db, keys: seq<string>, p: string, rank: Rank, bound: nat)
    requires StrictlySorted(keys) && Elems(keys) == db.Keys
    ensures Hits(db, Taken(keys, Seek(keys, p)), p, rank, bound) == {}
    ensures SortedKeys({}) == []
  {
    var lo := Seek(keys, p);
    forall k | k in Taken(keys, lo) ensures !(p <= k) {
      var j :| 0 <= j < lo && keys[..lo][j] == k;
      OutsideBlock(keys, p, j, lo);
    }
  }

  lemma LeastIsFirst(s: set<string>)
    requires s != {}
    ensures SortedKeys(s) != [] && SortedKeys(s)[0] == Least(s)
  {}

  lemma ListsPrefix(db: Db, p: string, result: seq<(string, Value)>)
    requires |result| == |SortedKeys(WithPrefix(db.Keys, p))|
    requires forall j :: 0 <= j < |result| ==> result[j].0 == SortedKeys(WithPrefix(db.Keys, p))[j]
    ensures forall i, j :: 0 <= i < j < |result| ==> LexLess(result[i].0, result[j].0)
    ensures forall k :: k in db && p <= k <==> exists j :: 0 <= j < |result| && result[j].0 == k
  {
    hide SortedKeys, LexLess;
    var ks := SortedKeys(WithPrefix(db.Keys, p));
    forall k ensures k in db && p <= k <==> exists j :: 0 <= j < |result| && result[j].0 == k {
      assert k in Elems(ks) <==> k in WithPrefix(db.Keys, p);
      if k in Elems(ks) {
        var j :| 0 <= j < |ks| && ks[j] == k;
        assert result[j].0 == k;
      }
      if j :| 0 <= j < |result| && result[j].0 == k { assert ks[j] in Elems(ks); }
    }
  }

  class RocksStore {
    var db: Db
    /** How many accesses have failed, or gave something that does not decode. */
    ghost var faults: nat

    constructor ()
      ensures db == map[] && faults == 0
    {
      db := map[];
      faults := 0;
    }

    /** A save may fail, and then changes nothing. */
    method Save(key: string, value: Value) returns (ok: bool)
      modifies this
      ensures db == if ok then old(db)[key := value] else old(db)
      ensures faults == old(faults) + if ok then 0 else 1
    {
      if * {
        faults := faults + 1;
        return false;
      }
      db := db[key := value];
      ok := true;
    }

    /** A point read, which may fail. */
    method Get(key: string) returns (ok: bool, value: Option<Value>)
      modifies this`faults
      ensures ok ==> value == if key in db then Some(db[key]) else None
      ensures faults == old(faults) + if ok then 0 else 1
    {
      value := None;
      if * {
        faults := faults + 1;
        return false, value;
      }
      if key in db {
        value := Some(db[key]);
      }
      ok := true;
    }

    method Delete(key: string) returns (ok: bool)
      modifies this
      ensures db == if ok then old(db) - {key} else old(db)
      ensures faults == old(faults) + if ok then 0 else 1
    {
      if * {
        faults := faults + 1;
        return false;
      }
      db := db - {key};
      ok := true;
    }

    /** Seek, then step until a key lacks the prefix: exactly the keys with the prefix, in order. */
    method ReadPrefix(search: string) returns (result: seq<(string, Value)>)
      ensures |result| == |SortedKeys(WithPrefix(db.Keys, search))|
      ensures forall j :: 0 <= j < |result| ==>
        result[j].0 == SortedKeys(WithPrefix(db.Keys, search))[j] && result[j].0 in db && result[j].1 == db[result[j].0]
      ensures forall i, j :: 0 <= i < j < |result| ==> LexLess(result[i].0, result[j].0)
      ensures forall k :: k in db && search <= k <==> exists j :: 0 <= j < |result| && result[j].0 == k
    {
      hide SortedKeys, Seek, LexLess;
      var keys := SortedKeys(db.Keys);
      var lo := Seek(keys, search);
      var i := lo;
      result := [];
      while i < |keys|
        invariant lo <= i <= |keys| && |result| == i - lo
        invariant forall j :: lo <= j < i ==> search <= keys[j]
        invariant forall j :: 0 <= j < |result| ==>
          result[j].0 == keys[lo + j] && result[j].0 in db && result[j].1 == db[result[j].0]
      {
        if !(search <= keys[i]) {
          break;
        }
        assert keys[i] in Elems(keys);
        result := result + [(keys[i], db[keys[i]])];
        i := i + 1;
      }
      BlockIsPrefixScan(db.Keys, search, i);
      ListsPrefix(db, search, result);
    }

    /** The scan loop of the key and tag lookups: skip entries below `start`, collect the rest,
        stop at `limit`. */
    method CollectFrom(prefix: string, start: nat, limit: nat) returns (r: Lookup<seq<IndexData>>)
      ensures r.Found? ==> r.value == Scan(db, prefix, ByOffset, start, limit)
      ensures AllIndex(db, prefix) ==> r.Found?
    {
      hide SortedKeys, Seek, LexLess;
      ghost var rank := ByOffset;
      var keys := SortedKeys(db.Keys);
      var i := Seek(keys, prefix);
      var results: seq<IndexData> := [];
      ghost var got: seq<string> := [];
      NoneBeforeSeek(db, keys, prefix, rank, start);
      while i < |keys|
        invariant Seek(keys, prefix) <= i <= |keys|
        invariant got == SortedKeys(Hits(db, Taken(keys, i), prefix, rank, start))
        invariant forall k :: k in got ==> k in db && db[k].Index?
        invariant results == Entries(db, got)
        invariant |got| < Max1(limit)
      {
        if !(prefix <= keys[i]) {
          break;
        }
        assert keys[i] in Elems(keys);
        if !db[keys[i]].Index? {
          return Corrupt;
        }
        var entry := db[keys[i]].data;
        TakenStep(db, keys, i, prefix, rank, start);
        if entry.offset < start {
          i := i + 1;
          continue;
        }
        results := results + [entry];
        got := got + [keys[i]];
        if |results| >= limit {
          TakenIsFront(db, keys, i + 1, prefix, rank, start);
          ghost var all := SortedKeys(Hits(db, db.Keys, prefix, rank, start));
          assert got == all[..Cap(limit, |all|)];
          assert results == Entries(db, got);
          return Found(results);
        }
        i := i + 1;
      }
      PassedAll(db, keys, i, prefix, rank, start);
      assert got[..|got|] == got;
      r := Found(results);
    }

    /** The search loop of the nearest-position lookups: the first entry in byte order that
        ranks at least `bound`. */
    method FirstFrom(prefix: string, rank: Rank, bound: nat) returns (r: Lookup<Option<IndexData>>)
      ensures r.Found? ==> r.value == First(db, prefix, rank, bound)
      ensures AllIndex(db, prefix) ==> r.Found?
    {
      hide SortedKeys, Seek, LexLess;
      var keys := SortedKeys(db.Keys);
      var i := Seek(keys, prefix);
      NoneBeforeSeek(db, keys, prefix, rank, bound);
      while i < |keys|
        invariant Seek(keys, prefix) <= i <= |keys|
        invariant Hits(db, Taken(keys, i), prefix, rank, bound) == {}
      {
        if !(prefix <= keys[i]) {
          break;
        }
        assert keys[i] in Elems(keys);
        if !db[keys[i]].Index? {
          return Corrupt;
        }
        TakenStep(db, keys, i, prefix, rank, bound);
        var entry := db[keys[i]].data;
        if rank.Of(entry) >= bound {
          TakenIsFront(db, keys, i + 1, prefix, rank, bound);
          LeastIsFirst(Hits(db, db.Keys, prefix, rank, bound));
          return Found(Some(entry));
        }
        i := i + 1;
      }
      PassedAll(db, keys, i, prefix, rank, bound);
      r := Found(None);
    }
  }
}
