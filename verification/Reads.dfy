/** The three reads of a segment: index lookup first, then the file. */
module Reads {
  import opened Options
  import opened Bytes
  import opened SegmentLog
  import opened SegmentFiles
  import opened Segments
  import opened Strings
  import opened Decimal
  import opened Store
  import opened Keys
  import opened JournalSystem
  import opened JournalInvariant
  import opened JournalRuns
  import opened JournalTheorems

  // ---------------------------------------------------------------- by key and by tag

  /** The key index files a record under its key, the tag index under each of its tags. */
  datatype WordIndex = KeyIndex | TagIndex {
    function Words(r: Record): seq<string> { if KeyIndex? then (if r.key == "" then [] else [r.key]) else r.tags }
    function NameFor(word: string, offset: nat): Name { if KeyIndex? then Key(word, offset) else Tag(word, offset) }
    function Prefix(s: Iden, word: string): string { if KeyIndex? then KeyPrefix(s, word) else TagPrefix(s, word) }
  }

  function EntryPositions(es: seq<IndexData>): seq<nat>
  {
    seq(|es|, i requires 0 <= i < |es| => es[i].position)
  }

  /** An index entry a read for `word` from `start` selects. */
  predicate Selects(x: WordIndex, log: seq<Record>, word: string, start: nat, w: string, j: nat)
  {
    start <= j < |log| && w in x.Words(log[j]) && FiledUnder(w, word)
  }

  /** Byte order on the part of an entry's key that varies: the word, then the decimal offset. */
  function SortKey(e: (string, nat)): string { e.0 + "/" + Dec(e.1) }

  lemma PrefixSelects(x: WordIndex, s: Iden, word: string, n: Name)
    ensures x.Prefix(s, word) <= Render(s, n) <==> exists w, o :: n == x.NameFor(w, o) && FiledUnder(w, word)
  {
    hide Render, KeyPrefix, TagPrefix, FiledUnder;
    if x.KeyIndex? {
      KeyKeys(s, word, n);
      if n.Key? { assert n == x.NameFor(n.key, n.offset); }
    } else {
      TagKeys(s, word, n);
      if n.Tag? { assert n == x.NameFor(n.tag, n.offset); }
    }
  }

  /** A stored entry under the prefix is one the read selects, and names a record's true data. */
  lemma HitIsSelected(c: Codec, s: Iden, db: Db, log: seq<Record>, x: WordIndex, word: string, start: nat, k: string) returns (e: (string, nat))
    requires DbInv(c, s, db, log, None) && k in Hits(db, db.Keys, x.Prefix(s, word), ByOffset, start)
    ensures k == Render(s, x.NameFor(e.0, e.1)) && Selects(x, log, word, start, e.0, e.1)
    ensures k in db && db[k] == Index(DataOf(c, log, e.1))
  {
    hide Render, FiledUnder, SegmentIndexPrefix, Indexed;
    var n := NameUnder(c, s, db, log, None, x.Prefix(s, word), k);
    PrefixSelects(x, s, word, n);
    var w, o :| n == x.NameFor(w, o) && FiledUnder(w, word);
    e := (w, o);
  }

  lemma SelectedIsHit(c: Codec, s: Iden, db: Db, log: seq<Record>, x: WordIndex, word: string, start: nat, w: string, j: nat)
    requires IndexedBelow(c, s, db, log, |log|, None) && Selects(x, log, word, start, w, j)
    ensures Render(s, x.NameFor(w, j)) in Hits(db, db.Keys, x.Prefix(s, word), ByOffset, start)
    ensures db[Render(s, x.NameFor(w, j))] == Index(DataOf(c, log, j))
  {
    hide Render, FiledUnder;
    assert Indexed(c, s, db, log, j, None);
    PrefixSelects(x, s, word, x.NameFor(w, j));
  }

  ghost predicate Describes(c: Codec, s: Iden, db: Db, log: seq<Record>, x: WordIndex, word: string, start: nat, k: string, e: (string, nat))
  {
    && k == Render(s, x.NameFor(e.0, e.1)) && Selects(x, log, word, start, e.0, e.1)
    && k in db && db[k] == Index(DataOf(c, log, e.1))
  }

  lemma {:induction false} DescribeAll(c: Codec, s: Iden, db: Db, log: seq<Record>, x: WordIndex, word: string, start: nat, ks: seq<string>)
      returns (es: seq<(string, nat)>)
    requires DbInv(c, s, db, log, None)
    requires forall k :: k in ks ==> k in Hits(db, db.Keys, x.Prefix(s, word), ByOffset, start)
    ensures |es| == |ks|
    ensures forall i :: 0 <= i < |ks| ==> Describes(c, s, db, log, x, word, start, ks[i], es[i])
  {
    hide DbInv, Hits, Render;
    if ks == [] {
      es := [];
    } else {
      var n := |ks| - 1;
      var front := DescribeAll(c, s, db, log, x, word, start, ks[..n]);
      assert ks[n] in ks;
      var e := HitIsSelected(c, s, db, log, x, word, start, ks[n]);
      es := front + [e];
    }
  }

  /** Entries of one index sort by word and decimal offset. */
  lemma EntryOrder(x: WordIndex, s: Iden, a: (string, nat), b: (string, nat))
    ensures LexLess(Render(s, x.NameFor(a.0, a.1)), Render(s, x.NameFor(b.0, b.1))) <==> LexLess(SortKey(a), SortKey(b))
  {
    hide LexLess, Dec;
    var head := if x.KeyIndex? then "key/" else "tag/";
    LexCommonFront(SegmentIndexPrefix(s), head + SortKey(a), head + SortKey(b));
    LexCommonFront(head, SortKey(a), SortKey(b));
  }

  /** A read by key or tag returns the records of the first entries of `all`, each at its position. */
  ghost predicate ReturnsFirst(c: Codec, s: Iden, db: Db, log: seq<Record>, x: WordIndex, word: string, start: nat, limit: nat, all: seq<(string, nat)>)
    requires forall e :: e in all ==> e.1 < |log|
  {
    var ps := EntryPositions(Scan(db, x.Prefix(s, word), ByOffset, start, limit));
    && (forall p :: p in ps ==> StartsRecord(c, log, p))
    && FirstRecords(c, log, ReadAt(c, log, ps), all, Cap(limit, |all|))
  }

  predicate FirstRecords(c: Codec, log: seq<Record>, got: seq<ReadData>, all: seq<(string, nat)>, n: nat)
    requires forall e :: e in all ==> e.1 < |log|
  {
    |got| == n <= |all| && forall i :: 0 <= i < n ==> got[i] == ReadData(Pos(c, log, all[i].1), log[all[i].1])
  }

  ghost predicate SortedEntries(es: seq<(string, nat)>)
  {
    forall i, j :: 0 <= i < j < |es| ==> LexLess(SortKey(es[i]), SortKey(es[j]))
  }

  /** Once the index covers the file, a read by key or tag is a filter of the log: it returns the
      record of every selected entry, each with its true position, in byte order of word and decimal
      offset, cut to the limit, where a limit of zero counts as one.  The list `all` is determined by
      its elements and its order. */
  lemma WordReadIsLogFilter(c: Codec, s: Iden, db: Db, log: seq<Record>, x: WordIndex, word: string, start: nat, limit: nat)
      returns (all: seq<(string, nat)>)
    requires DbInv(c, s, db, log, None) && IndexedBelow(c, s, db, log, |log|, None) && c.KeepsWords()
    ensures SortedEntries(all)
    ensures forall w, j: nat :: (w, j) in all <==> Selects(x, log, word, start, w, j)
    ensures AllIndex(db, x.Prefix(s, word))
    ensures (forall e :: e in all ==> e.1 < |log|) && ReturnsFirst(c, s, db, log, x, word, start, limit, all)
  {
    hide DbInv, Hits, Render, Indexed, LexLess, FiledUnder, SortedKeys, Pos;
    var hits := Hits(db, db.Keys, x.Prefix(s, word), ByOffset, start);
    var ks := SortedKeys(hits);
    assert forall k :: k in ks ==> k in Elems(ks);
    all := DescribeAll(c, s, db, log, x, word, start, ks);
    forall i, j | 0 <= i < j < |all| ensures LexLess(SortKey(all[i]), SortKey(all[j])) {
      EntryOrder(x, s, all[i], all[j]);
    }
    AllSelected(c, s, db, log, x, word, start, ks, all);
    PrefixHoldsIndex(c, s, db, log, x, word);
    ReadsEntries(c, s, db, log, x, word, start, limit, all);
  }

  lemma AllSelected(c: Codec, s: Iden, db: Db, log: seq<Record>, x: WordIndex, word: string, start: nat, ks: seq<string>, all: seq<(string, nat)>)
    requires IndexedBelow(c, s, db, log, |log|, None)
    requires Elems(ks) == Hits(db, db.Keys, x.Prefix(s, word), ByOffset, start) && |all| == |ks|
    requires forall i :: 0 <= i < |ks| ==> Describes(c, s, db, log, x, word, start, ks[i], all[i])
    ensures forall w, j: nat :: (w, j) in all <==> Selects(x, log, word, start, w, j)
  {
    hide Render, Hits, Selects, IndexedBelow;
    forall w, j: nat | Selects(x, log, word, start, w, j) ensures (w, j) in all {
      SelectedIsHit(c, s, db, log, x, word, start, w, j);
      assert Render(s, x.NameFor(w, j)) in Elems(ks);
      var i :| 0 <= i < |ks| && ks[i] == Render(s, x.NameFor(w, j));
      RenderInjective(s, x.NameFor(w, j), x.NameFor(all[i].0, all[i].1));
      assert all[i] == (w, j);
    }
    forall w, j: nat | (w, j) in all ensures Selects(x, log, word, start, w, j) {
      var i :| 0 <= i < |all| && all[i] == (w, j);
      assert Describes(c, s, db, log, x, word, start, ks[i], all[i]);
    }
  }

  lemma PrefixHoldsIndex(c: Codec, s: Iden, db: Db, log: seq<Record>, x: WordIndex, word: string)
    requires DbInv(c, s, db, log, None)
    ensures AllIndex(db, x.Prefix(s, word))
  {
    hide DbInv, Render, FiledUnder, Indexed, SegmentIndexPrefix;
    forall k | k in db && x.Prefix(s, word) <= k ensures db[k].Index? {
      var n := NameUnder(c, s, db, log, None, x.Prefix(s, word), k);
      PrefixSelects(x, s, word, n);
    }
  }

  lemma ReadsEntries(c: Codec, s: Iden, db: Db, log: seq<Record>, x: WordIndex, word: string, start: nat, limit: nat, all: seq<(string, nat)>)
    requires c.KeepsWords()
    requires
      var ks := SortedKeys(Hits(db, db.Keys, x.Prefix(s, word), ByOffset, start));
      |all| == |ks| && forall i :: 0 <= i < |ks| ==> Describes(c, s, db, log, x, word, start, ks[i], all[i])
    ensures (forall e :: e in all ==> e.1 < |log|) && ReturnsFirst(c, s, db, log, x, word, start, limit, all)
  {
    hide Render, Hits, SortedKeys, Pos, FiledUnder, ReadAt, StartsRecord;
    var ks := SortedKeys(Hits(db, db.Keys, x.Prefix(s, word), ByOffset, start));
    var entries := Scan(db, x.Prefix(s, word), ByOffset, start, limit);
    var n := Cap(limit, |ks|);
    var js := seq(n, i requires 0 <= i < n => all[i].1);
    var ps := EntryPositions(entries);
    forall i | 0 <= i < n ensures js[i] < |log| && ps[i] == Pos(c, log, js[i]) && c.Size(log[js[i]]) > 0 {
      assert Describes(c, s, db, log, x, word, start, ks[i], all[i]);
      assert entries[i] == db[ks[i]].data;
    }
    ReadAtRecords(c, log, ps, js);
    forall e | e in all ensures e.1 < |log| {
      var i :| 0 <= i < |all| && all[i] == e;
      assert Describes(c, s, db, log, x, word, start, ks[i], all[i]);
    }
  }

  lemma EntriesUnique(a: seq<(string, nat)>, b: seq<(string, nat)>)
    requires SortedEntries(a) && SortedEntries(b) && forall w, j: nat :: (w, j) in a <==> (w, j) in b
    ensures a == b
  {
    hide LexLess, Dec;
    var ka, kb := seq(|a|, i requires 0 <= i < |a| => SortKey(a[i])), seq(|b|, i requires 0 <= i < |b| => SortKey(b[i]));
    forall k ensures k in Elems(ka) <==> k in Elems(kb) {
      if k in Elems(ka) {
        var i :| 0 <= i < |a| && ka[i] == k;
        assert (a[i].0, a[i].1) in b;
        var i' :| 0 <= i' < |b| && b[i'] == a[i];
        assert kb[i'] == k;
      }
      if k in Elems(kb) {
        var i :| 0 <= i < |b| && kb[i] == k;
        assert (b[i].0, b[i].1) in a;
        var i' :| 0 <= i' < |a| && a[i'] == b[i];
        assert ka[i'] == k;
      }
    }
    SortedUnique(ka, kb);
    forall i | 0 <= i < |a| ensures a[i] == b[i] {
      assert ka[i] == kb[i];
      NumberedInjective(a[i].0, a[i].1, b[i].0, b[i].1);
    }
  }

  /** The read returns exactly the records that carry the word asked for if and only if no record from
      `start` on carries a longer word that continues it past a slash.  They then come without repeats
      in byte order of their decimal offsets. */
  lemma ExactlyTheWord(x: WordIndex, log: seq<Record>, word: string, start: nat, all: seq<(string, nat)>)
    requires SortedEntries(all) && forall w, j: nat :: (w, j) in all <==> Selects(x, log, word, start, w, j)
    ensures
      (forall e :: e in all ==> e.0 == word) <==>
      (forall j: nat, w :: start <= j < |log| && w in x.Words(log[j]) ==> !(word + "/" <= w))
    ensures
      (forall e :: e in all ==> e.0 == word) ==>
      && (forall j: nat :: (word, j) in all <==> start <= j < |log| && word in x.Words(log[j]))
      && (forall i, j :: 0 <= i < j < |all| ==> LexLess(Dec(all[i].1), Dec(all[j].1)))
  {
    hide LexLess, Dec, FiledUnder;
    forall w ensures FiledUnder(w, word) <==> w == word || word + "/" <= w { FiledUnderCases(w, word); }
    if forall e :: e in all ==> e.0 == word {
      forall j: nat, w | start <= j < |log| && w in x.Words(log[j]) ensures !(word + "/" <= w) {
        assert (w, j) in all <==> FiledUnder(w, word);
        assert word + "/" <= w ==> w != word;
      }
      forall i, j | 0 <= i < j < |all| ensures LexLess(Dec(all[i].1), Dec(all[j].1)) {
        assert all[i] in all && all[j] in all;
        LexCommonFront(word + "/", Dec(all[i].1), Dec(all[j].1));
      }
    } else {
      var e :| e in all && e.0 != word;
      assert (e.0, e.1) in all;
      assert Selects(x, log, word, start, e.0, e.1);
    }
  }

  /** In every run: whenever the saved frontier is the last record of the file, a read by key or tag is
      that filter. */
  lemma WordReadInRuns(c: Codec, s: Iden, run: seq<Seg>, es: seq<Event>, i: nat, x: WordIndex, word: string, start: nat, limit: nat)
      returns (all: seq<(string, nat)>)
    requires Reachable(c, s, run, es, i, None) && c.KeepsWords()
    requires Render(s, LastOffset) in run[i].db && LastBuilt(s, run[i].db) == |run[i].log| - 1
    ensures SortedEntries(all)
    ensures forall w, j: nat :: (w, j) in all <==> Selects(x, run[i].log, word, start, w, j)
    ensures (forall e :: e in all ==> e.1 < |run[i].log|) && ReturnsFirst(c, s, run[i].db, run[i].log, x, word, start, limit, all)
  {
    hide IsRun, IndexedBelow, Selects, SortedEntries, ReturnsFirst, DbInv;
    FrontierCovers(c, s, run, es, i);
    all := WordReadIsLogFilter(c, s, run[i].db, run[i].log, x, word, start, limit);
  }

  /** Read by key or by tag: the positions from the index, then the records at them. */
  method ReadByWord(store: RocksStore, file: SegmentFile, s: Iden, x: WordIndex, word: string, start: nat, maxRecord: nat)
      returns (r: ReadResult, ghost all: seq<(string, nat)>)
    requires file.Valid()
    ensures
      DbInv(file.codec, s, store.db, file.log, None) && file.codec.KeepsWords()
      && IndexedBelow(file.codec, s, store.db, file.log, |file.log|, None) ==>
      && SortedEntries(all) && (forall w, j: nat :: (w, j) in all <==> Selects(x, file.log, word, start, w, j))
      && r.Ok? && FirstRecords(file.codec, file.log, r.data, all, Cap(maxRecord, |all|))
      && (maxRecord > 0 ==> |r.data| == if maxRecord < |all| then maxRecord else |all|)
      && (maxRecord == 0 ==> |r.data| == if all == [] then 0 else 1)
  {
    hide DbInv, IndexedBelow, Selects, SortedEntries, ReadAt, StartsRecord, Scan, Hits;
    all := [];
    ghost var covered := DbInv(file.codec, s, store.db, file.log, None) && file.codec.KeepsWords()
      && IndexedBelow(file.codec, s, store.db, file.log, |file.log|, None);
    if covered {
      all := WordReadIsLogFilter(file.codec, s, store.db, file.log, x, word, start, maxRecord);
    }
    var found := store.CollectFrom(x.Prefix(s, word), start, maxRecord);
    match found {
      case Corrupt => r := Err(DecodeFailed);
      case Found(entries) =>
        var ps := EntryPositions(entries);
        assert ps[..|ps|] == ps;
        assert covered ==> file.Known(ps, |ps|);
        r := file.ReadByPositions(ps);
    }
  }

  // ---------------------------------------------------------------- by offset

  /** Where the file read of an offset request begins: at the position of the entry found, or at 0. */
  function StartFor(s: Iden, db: Db, start: nat): nat
  {
    match First(db, PositionPrefix(s), ByOffset, start)
    case Some(entry) => entry.position
    case None => 0
  }

  lemma FirstPosition(c: Codec, s: Iden, db: Db, log: seq<Record>, b: Option<int>, start: nat)
    requires DbInv(c, s, db, log, b)
    ensures AllIndex(db, PositionPrefix(s))
    ensures
      match First(db, PositionPrefix(s), ByOffset, start)
      case None => forall o: nat :: Render(s, Position(o)) in db ==> o < start
      case Some(e) =>
        && start <= e.offset < |log| && e == DataOf(c, log, e.offset) && Render(s, Position(e.offset)) in db
        && forall o: nat :: Render(s, Position(o)) in db && start <= o ==> LexLeq(Dec(e.offset), Dec(o))
  {
    hide Indexed, SegmentIndexPrefix, LexLess, Dec;
    var hits := Hits(db, db.Keys, PositionPrefix(s), ByOffset, start);
    forall k | k in db && PositionPrefix(s) <= k
      ensures exists o: nat :: k == Render(s, Position(o)) && db[k].Index? && db[k].data.offset == o
    {
      var n := NameUnder(c, s, db, log, b, PositionPrefix(s), k);
      PositionKeys(s, n);
      assert k == Render(s, Position(n.offset));
    }
    forall o: nat | Render(s, Position(o)) in db && start <= o ensures Render(s, Position(o)) in hits {
      PositionKeys(s, Position(o));
      assert Truthful(c, s, db, log, Position(o), db[Render(s, Position(o))], b);
    }
    if hits != {} {
      var k := Least(hits);
      var e := db[k].data;
      assert k == Render(s, Position(e.offset));
      assert Truthful(c, s, db, log, Position(e.offset), db[k], b);
      forall o: nat | Render(s, Position(o)) in db && start <= o ensures LexLeq(Dec(e.offset), Dec(o)) {
        PositionOrder(s, e.offset, o);
      }
    }
  }

  lemma PositionOrder(s: Iden, a: nat, b: nat)
    ensures LexLeq(Render(s, Position(a)), Render(s, Position(b))) <==> LexLeq(Dec(a), Dec(b))
  {
    hide LexLess, Dec;
    var p := "offset/position-";
    LexCommonFront(SegmentIndexPrefix(s), p + Dec(a), p + Dec(b));
    LexCommonFront(p, Dec(a), Dec(b));
    if Render(s, Position(a)) == Render(s, Position(b)) { RenderInjective(s, Position(a), Position(b)); }
  }

  /** Reading from a later record is reading from the start with a higher offset. */
  lemma {:induction false} ReadFromLater(c: Codec, log: seq<Record>, i: nat, j: nat, start: nat, maxSize: nat, room: nat)
    requires Contiguous(log) && AllStorable(c, log) && i <= j <= |log| && j <= start
    ensures ReadFrom(c, log, i, start, maxSize, room, 0) == ReadFrom(c, log, j, start, maxSize, room, 0)
    decreases j - i
  {
    hide Pos;
    if i < j { ReadFromLater(c, log, i + 1, j, start, maxSize, room); }
  }

  /** Every position entry lies below the request, or the request has an entry of its own and no entry
      at or above it comes before that one as text. */
  ghost predicate OwnEntryOrNone(s: Iden, db: Db, start: nat)
  {
    || (forall o: nat :: Render(s, Position(o)) in db ==> o < start)
    || (Render(s, Position(start)) in db && forall o: nat :: Render(s, Position(o)) in db && start <= o ==> LexLeq(Dec(start), Dec(o)))
  }

  lemma FoundIff(c: Codec, s: Iden, db: Db, log: seq<Record>, start: nat)
    requires DbInv(c, s, db, log, None)
    ensures
      var found := First(db, PositionPrefix(s), ByOffset, start);
      found.None? || found.value.offset == start <==> OwnEntryOrNone(s, db, start)
  {
    hide DbInv, Render, First, LexLess, Dec;
    FirstPosition(c, s, db, log, None, start);
    var found := First(db, PositionPrefix(s), ByOffset, start);
    if found.Some? && OwnEntryOrNone(s, db, start) {
      var o := found.value.offset;
      assert LexLeq(Dec(start), Dec(o)) && LexLeq(Dec(o), Dec(start));
      if Dec(start) != Dec(o) { LexAsym(Dec(start), Dec(o)); }
      DecInjective(start, o);
    }
  }

  /** An indexed offset read is the plain scan of the file from the entry found.  It is the plain scan
      from the requested offset exactly when no position entry lies at or above the request, or the
      request's own entry is the first of those as text. */
  lemma IndexedReadAgainstScan(c: Codec, s: Iden, db: Db, log: seq<Record>, start: nat, maxSize: nat, maxRecord: nat)
    requires Contiguous(log) && AllStorable(c, log) && DbInv(c, s, db, log, None)
    ensures Aligned(c, log, StartFor(s, db, start))
    ensures
      var found := First(db, PositionPrefix(s), ByOffset, start);
      var from := if found.Some? then found.value.offset else start;
      var indexed := ReadFrom(c, log, FrameIndex(c, log, StartFor(s, db, start)), start, maxSize, Max1(maxRecord), 0);
      && indexed == ReadFrom(c, log, 0, from, maxSize, Max1(maxRecord), 0)
      && (indexed == ReadFrom(c, log, 0, start, maxSize, Max1(maxRecord), 0) <==> OwnEntryOrNone(s, db, start))
  {
    hide DbInv, Hits, Pos, Indexed, OwnEntryOrNone;
    FirstPosition(c, s, db, log, None, start);
    FoundIff(c, s, db, log, start);
    PosZero(c, log);
    var found := First(db, PositionPrefix(s), ByOffset, start);
    var room := Max1(maxRecord);
    var o := if found.Some? then found.value.offset else 0;
    assert Pos(c, log, o) == StartFor(s, db, start);
    PosInjective(c, log, o, FrameIndex(c, log, StartFor(s, db, start)));
    if found.Some? {
      ReadIsSlice(c, log, o, start, maxSize, room, 0);
      ReadIsSlice(c, log, o, o, maxSize, room, 0);
      ReadIsSlice(c, log, 0, start, maxSize, room, 0);
      SameFrom(c, log, o, start, o, maxSize, room, 0);
      ReadFromLater(c, log, 0, o, o, maxSize, room);
      var indexed, plain := ReadFrom(c, log, o, start, maxSize, room, 0), ReadFrom(c, log, 0, start, maxSize, room, 0);
      assert indexed[0] == ReadData(Pos(c, log, o + 0), log[o + 0]);
      assert plain[0] == ReadData(Pos(c, log, start + 0), log[start + 0]);
    }
  }

  /** From a record at or past both bounds on, two start offsets read the same. */
  lemma {:induction false} SameFrom(c: Codec, log: seq<Record>, i: nat, a: nat, b: nat, maxSize: nat, room: nat, already: nat)
    requires Contiguous(log) && AllStorable(c, log) && i <= |log| && a <= i && b <= i
    ensures ReadFrom(c, log, i, a, maxSize, room, already) == ReadFrom(c, log, i, b, maxSize, room, already)
    decreases |log| - i
  {
    hide Pos;
    if i < |log| && already <= maxSize && room > 1 {
      SameFrom(c, log, i + 1, a, b, maxSize, room - 1, already + c.Size(log[i]));
    }
  }

  /** The same in every state of every run. */
  lemma OffsetReadInRuns(c: Codec, s: Iden, run: seq<Seg>, es: seq<Event>, i: nat, start: nat, maxSize: nat, maxRecord: nat)
    requires Reachable(c, s, run, es, i, None)
    ensures AllStorable(c, run[i].log) && Aligned(c, run[i].log, StartFor(s, run[i].db, start))
    ensures
      var log, found := run[i].log, First(run[i].db, PositionPrefix(s), ByOffset, start);
      var from := if found.Some? then found.value.offset else start;
      var indexed := ReadFrom(c, log, FrameIndex(c, log, StartFor(s, run[i].db, start)), start, maxSize, Max1(maxRecord), 0);
      && indexed == ReadFrom(c, log, 0, from, maxSize, Max1(maxRecord), 0)
      && (indexed == ReadFrom(c, log, 0, start, maxSize, Max1(maxRecord), 0) <==> OwnEntryOrNone(s, run[i].db, start))
  {
    hide IsRun, DbInv, First, ReadFrom, StartFor, OwnEntryOrNone;
    RunsKeepInv(c, s, run, es, i, None);
    IndexedReadAgainstScan(c, s, run[i].db, run[i].log, start, maxSize, maxRecord);
  }

  /** Read by offset: the nearest position from the index, then the file from there on. */
  method ReadByOffset(store: RocksStore, file: SegmentFile, s: Iden, start: nat, maxSize: nat, maxRecord: nat) returns (r: ReadResult)
    requires file.Valid()
    ensures
      var found := First(store.db, PositionPrefix(s), ByOffset, start);
      var from := if found.Some? then found.value.offset else start;
      DbInv(file.codec, s, store.db, file.log, None) && Contiguous(file.log) && Pos(file.codec, file.log, |file.log|) < TWO_63 ==>
      r == Ok(ReadFrom(file.codec, file.log, 0, from, maxSize, Max1(maxRecord), 0))
  {
    hide DbInv, Pos, ReadFrom, First;
    ghost var sound := DbInv(file.codec, s, store.db, file.log, None) && Contiguous(file.log);
    if sound {
      FirstPosition(file.codec, s, store.db, file.log, None, start);
      IndexedReadAgainstScan(file.codec, s, store.db, file.log, start, maxSize, maxRecord);
      ghost var at := FrameIndex(file.codec, file.log, StartFor(s, store.db, start));
      PosMonotone(file.codec, file.log, at, |file.log|);
    }
    var found := store.FirstFrom(PositionPrefix(s), ByOffset, start);
    match found {
      case Corrupt => r := Err(DecodeFailed);
      case Found(entry) =>
        var startPosition := if entry.Some? then entry.value.position else 0;
        r := file.ReadByOffset(startPosition, start, maxSize, maxRecord);
    }
  }

  /** Offsets are compared as text.  In every run without a restart, once the builder has passed record
      19999, a read from offset 9999 is answered from a later entry, although its own is stored, and so
      differs from the plain scan. */
  lemma RequestPassesOwnEntry(c: Codec, s: Iden, run: seq<Seg>, es: seq<Event>, i: nat, maxSize: nat, maxRecord: nat)
    requires Reachable(c, s, run, es, i, None) && forall k :: 0 <= k < |es| ==> !es[k].Restarts()
    requires Render(s, LastOffset) in run[i].db && LastBuilt(s, run[i].db) >= 19999
    ensures Render(s, Position(9999)) in run[i].db
    ensures AllStorable(c, run[i].log) && Aligned(c, run[i].log, StartFor(s, run[i].db, 9999))
    ensures
      ReadFrom(c, run[i].log, FrameIndex(c, run[i].log, StartFor(s, run[i].db, 9999)), 9999, maxSize, Max1(maxRecord), 0)
      != ReadFrom(c, run[i].log, 0, 9999, maxSize, Max1(maxRecord), 0)
  {
    hide IsRun, Render, First, LexLess, LexLeq, LastBuilt, StartFor, ReadFrom, Inv, Step, Enabled;
    SparseEntriesOfFirstLife(c, s, run, es, i, 9999);
    SparseEntriesOfFirstLife(c, s, run, es, i, 19999);
    OffsetReadInRuns(c, s, run, es, i, 9999, maxSize, maxRecord);
    NineAfterOne();
  }

  lemma NineAfterOne()
    ensures !LexLeq(Dec(9999), Dec(19999))
  {
    assert Dec(99) == "99" && Dec(9999) == "9999";
    assert Dec(19) == "19" && Dec(1999) == "1999";
    assert Dec(19999)[0] == '1';
  }
}
