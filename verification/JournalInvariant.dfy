/** What every run of a segment keeps, and what follows for restarts and index contents. */
module JournalInvariant {
  import opened Options
  import opened Bytes
  import opened SegmentLog
  import opened Segments
  import opened Store
  import opened Keys
  import opened JournalSystem

  // ---------------------------------------------------------------- the invariant

  function DataOf(c: Codec, log: seq<Record>, i: nat): IndexData
    requires i < |log|
  {
    IndexData(i, log[i].createTime, Pos(c, log, i))
  }

  predicate Holds(db: Db, k: string, v: Value) { k in db && db[k] == v }

  /** Record `i` is fully indexed: its key entry, its tag entries and, when the builders of this run
      all use base `b`, its sparse position entry are stored with its true data, its timestamp has an
      entry, and the first record has had its offset saved as the start offset. */
  ghost predicate Indexed(c: Codec, s: Iden, db: Db, log: seq<Record>, i: nat, b: Option<int>)
    requires i < |log|
  {
    var v := Index(DataOf(c, log, i));
    && (log[i].key != "" ==> Holds(db, Render(s, Key(log[i].key, i)), v))
    && (forall t :: t in log[i].tags ==> Holds(db, Render(s, Tag(t, i)), v))
    && (b.Some? && SparseAt(i, b.value) ==> Holds(db, Render(s, Position(i)), v) && Render(s, Time(log[i].createTime)) in db)
    && (i == 0 ==> Render(s, OffsetStart) in db)
  }

  ghost predicate IndexedBelow(c: Codec, s: Iden, db: Db, log: seq<Record>, n: nat, b: Option<int>)
    requires n <= |log|
  {
    forall i :: 0 <= i < n ==> Indexed(c, s, db, log, i, b)
  }

  predicate EntryOf(c: Codec, log: seq<Record>, o: nat, v: Value) { o < |log| && v == Index(DataOf(c, log, o)) }

  /** The time of some record.  It need not be the last: the process may stop before it is saved. */
  predicate TimeOfRecord(log: seq<Record>, v: Value) { exists i :: 0 <= i < |log| && v == Num(log[i].createTime) }

  /** What a value stored under a name of this segment says is true of the file. */
  ghost predicate Truthful(c: Codec, s: Iden, db: Db, log: seq<Record>, n: Name, v: Value, b: Option<int>)
  {
    match n
    case OffsetStart => log != [] && v == Num(0)
    case OffsetEnd => log != [] && v == Num(|log| - 1)
    case TimeEnd => TimeOfRecord(log, v)
    case Position(o) => EntryOf(c, log, o, v) && IndexedBelow(c, s, db, log, o, b) && (b.Some? ==> SparseAt(o, b.value))
    case Time(t) =>
      && v.Index? && EntryOf(c, log, v.data.offset, v) && t == log[v.data.offset].createTime
      && (b.Some? ==> SparseAt(v.data.offset, b.value))
    case Tag(t, o) => EntryOf(c, log, o, v) && t in log[o].tags
    case Key(k, o) => EntryOf(c, log, o, v) && k == log[o].key && k != ""
    case LastOffset => v.Num? && v.n < |log| && IndexedBelow(c, s, db, log, v.n + 1, b)
    case _ => v.Num?
  }

  ghost predicate DbInv(c: Codec, s: Iden, db: Db, log: seq<Record>, b: Option<int>)
  {
    && (forall n :: Render(s, n) in db ==> Truthful(c, s, db, log, n, db[Render(s, n)], b))
    && (forall k :: k in db && SegmentIndexPrefix(s) <= k ==> exists n :: k == Render(s, n))
    && (log != [] ==> Render(s, OffsetEnd) in db)
  }

  /** The records a read returned are those from its first offset on, each at its position. */
  predicate IsSlice(c: Codec, log: seq<Record>, lo: nat, data: seq<ReadData>)
  {
    && lo + |data| <= |log|
    && forall k :: 0 <= k < |data| ==> data[k] == ReadData(Pos(c, log, lo + k), log[lo + k])
  }

  /** The keys of the first `w` writes are stored, with the values written, except that a later record
      may have replaced a start offset or a timestamp entry. */
  ghost predicate WritesDone(s: Iden, db: Db, ws: seq<(Name, Value)>, w: nat)
  {
    w <= |ws| && forall m :: 0 <= m < w ==>
      Render(s, ws[m].0) in db && (ws[m].0.OffsetStart? || ws[m].0.Time? || db[Render(s, ws[m].0)] == ws[m].1)
  }

  /** Every record the builder will not read again is already indexed. */
  ghost predicate ResumeInv(c: Codec, s: Iden, db: Db, log: seq<Record>, startPosition: nat, last: nat, b: Option<int>)
  {
    && (last == 0 || last < |log|)
    && (startPosition == 0 || StartsRecord(c, log, startPosition))
    && forall i :: 0 <= i < |log| && (i < last || Pos(c, log, i) < startPosition) ==> Indexed(c, s, db, log, i, b)
  }

  ghost predicate PhaseInv(c: Codec, s: Iden, db: Db, log: seq<Record>, bd: Builder, b: Option<int>)
  {
    match bd.phase
    case Reading => true
    case Saving(data, d, w) =>
      && data != [] && 0 <= data[0].record.offset && IsSlice(c, log, data[0].record.offset, data)
      && d <= |data| && IndexedBelow(c, s, db, log, data[0].record.offset + d, b)
      && (d < |data| ==> data[d].record.offset >= 0 && WritesDone(s, db, RecordWrites(data[d], bd.base), w))
    case Committing => bd.last < |log| && IndexedBelow(c, s, db, log, bd.last + 1, b)
  }

  ghost predicate BuilderInv(c: Codec, s: Iden, db: Db, log: seq<Record>, bd: Builder, b: Option<int>)
  {
    && (b.Some? ==> bd.base == b.value)
    && ResumeInv(c, s, db, log, bd.startPosition, bd.last, b)
    && PhaseInv(c, s, db, log, bd, b)
  }

  /** The four copies of the end offset agree: thread, memory, store, file. */
  ghost predicate WriterInv(c: Codec, st: Seg)
  {
    && Contiguous(st.log) && AllStorable(c, st.log) && |st.log| < TWO_63
    && st.memEnd == |st.log| - 1
    && (st.writer.Some? ==> st.writer.value == |st.log| - 1)
    && (st.metaEnd.Some? ==> IsI64(st.metaEnd.value) && (st.metaEnd.value > 0 ==> |st.log| - 1 <= st.metaEnd.value))
  }

  ghost predicate Inv(c: Codec, s: Iden, st: Seg, b: Option<int>)
  {
    && WriterInv(c, st)
    && DbInv(c, s, st.db, st.log, b)
    && (st.builder.Some? ==> BuilderInv(c, s, st.db, st.log, st.builder.value, b))
  }

  // ---------------------------------------------------------------- a true entry spoils nothing

  /** An entry that is true, or is not one that `Indexed` speaks of. */
  ghost predicate Harmless(c: Codec, s: Iden, db: Db, log: seq<Record>, n: Name, v: Value, b: Option<int>)
  {
    (n.Position? || n.Tag? || n.Key?) ==> Truthful(c, s, db, log, n, v, b)
  }

  lemma PutKeepsHolds(c: Codec, s: Iden, db: Db, log: seq<Record>, n: Name, v: Value, b: Option<int>, m: Name, i: nat)
    requires Harmless(c, s, db, log, n, v, b)
    requires i < |log| && (m == Position(i) || (m.Tag? && m.offset == i) || (m.Key? && m.offset == i))
    requires Holds(db, Render(s, m), Index(DataOf(c, log, i)))
    ensures Holds(db[Render(s, n) := v], Render(s, m), Index(DataOf(c, log, i)))
  {
    if Render(s, m) == Render(s, n) { RenderInjective(s, m, n); }
  }

  lemma PutKeepsIndexed(c: Codec, s: Iden, db: Db, log: seq<Record>, n: Name, v: Value, b: Option<int>)
    requires Harmless(c, s, db, log, n, v, b)
    ensures forall i :: 0 <= i < |log| && Indexed(c, s, db, log, i, b) ==> Indexed(c, s, db[Render(s, n) := v], log, i, b)
  {
    hide Render, SparseAt, Harmless;
    forall i | 0 <= i < |log| && Indexed(c, s, db, log, i, b) ensures Indexed(c, s, db[Render(s, n) := v], log, i, b) {
      if log[i].key != "" { PutKeepsHolds(c, s, db, log, n, v, b, Key(log[i].key, i), i); }
      forall t | t in log[i].tags ensures Holds(db[Render(s, n) := v], Render(s, Tag(t, i)), Index(DataOf(c, log, i))) {
        PutKeepsHolds(c, s, db, log, n, v, b, Tag(t, i), i);
      }
      if b.Some? && SparseAt(i, b.value) { PutKeepsHolds(c, s, db, log, n, v, b, Position(i), i); }
    }
  }

  lemma TruthfulKept(c: Codec, s: Iden, db: Db, db': Db, log: seq<Record>, n: Name, v: Value, b: Option<int>)
    requires Truthful(c, s, db, log, n, v, b)
    requires forall i :: 0 <= i < |log| && Indexed(c, s, db, log, i, b) ==> Indexed(c, s, db', log, i, b)
    ensures Truthful(c, s, db', log, n, v, b)
  {}

  /** Storing a true value under a name of the segment keeps everything stored true. */
  lemma PutKeepsDb(c: Codec, s: Iden, db: Db, log: seq<Record>, n: Name, v: Value, b: Option<int>)
    requires DbInv(c, s, db, log, b) && Truthful(c, s, db, log, n, v, b)
    ensures DbInv(c, s, db[Render(s, n) := v], log, b)
    ensures forall i :: 0 <= i < |log| && Indexed(c, s, db, log, i, b) ==> Indexed(c, s, db[Render(s, n) := v], log, i, b)
  {
    hide Render, SparseAt, Indexed, Truthful, SegmentIndexPrefix;
    var db' := db[Render(s, n) := v];
    PutKeepsIndexed(c, s, db, log, n, v, b);
    forall m | Render(s, m) in db' ensures Truthful(c, s, db', log, m, db'[Render(s, m)], b) {
      if Render(s, m) == Render(s, n) {
        RenderInjective(s, m, n);
      }
      TruthfulKept(c, s, db, db', log, m, db'[Render(s, m)], b);
    }
  }

  /** Keys outside the segment's prefix do not matter to it. */
  lemma ForeignKeepsDb(c: Codec, s: Iden, db: Db, log: seq<Record>, k: string, v: Value, b: Option<int>)
    requires DbInv(c, s, db, log, b) && !(SegmentIndexPrefix(s) <= k)
    ensures DbInv(c, s, db[k := v], log, b)
    ensures forall i :: 0 <= i < |log| && Indexed(c, s, db, log, i, b) ==> Indexed(c, s, db[k := v], log, i, b)
  {
    hide SparseAt, SegmentIndexPrefix, Render, Truthful;
    forall n ensures Render(s, n) != k { UnderPrefix(s, n); }
    forall i | 0 <= i < |log| && Indexed(c, s, db, log, i, b) ensures Indexed(c, s, db[k := v], log, i, b) {}
    forall n | Render(s, n) in db[k := v] ensures Truthful(c, s, db[k := v], log, n, db[k := v][Render(s, n)], b) {
      TruthfulKept(c, s, db, db[k := v], log, n, db[Render(s, n)], b);
    }
  }

  /** Nor does deleting them. */
  lemma ForeignDeleteKeepsDb(c: Codec, s: Iden, db: Db, log: seq<Record>, k: string, b: Option<int>)
    requires DbInv(c, s, db, log, b) && !(SegmentIndexPrefix(s) <= k)
    ensures DbInv(c, s, db - {k}, log, b)
    ensures forall i :: 0 <= i < |log| && Indexed(c, s, db, log, i, b) ==> Indexed(c, s, db - {k}, log, i, b)
  {
    hide SparseAt, SegmentIndexPrefix, Render, Truthful;
    forall n ensures Render(s, n) != k { UnderPrefix(s, n); }
    forall i | 0 <= i < |log| && Indexed(c, s, db, log, i, b) ensures Indexed(c, s, db - {k}, log, i, b) {}
    forall n | Render(s, n) in db - {k} ensures Truthful(c, s, db - {k}, log, n, (db - {k})[Render(s, n)], b) {
      TruthfulKept(c, s, db, db - {k}, log, n, db[Render(s, n)], b);
    }
  }

  lemma UnderPrefix(s: Iden, n: Name)
    ensures SegmentIndexPrefix(s) <= Render(s, n)
  {}

  // ---------------------------------------------------------------- growth of the file

  lemma GrowthKeepsIndexed(c: Codec, s: Iden, db: Db, log: seq<Record>, more: seq<Record>, i: nat, b: Option<int>)
    requires i < |log|
    ensures DataOf(c, log + more, i) == DataOf(c, log, i)
    ensures Indexed(c, s, db, log + more, i, b) <==> Indexed(c, s, db, log, i, b)
  {
    PosOfAppend(c, log, more, i);
    assert (log + more)[i] == log[i];
  }

  lemma GrowthKeepsTruth(c: Codec, s: Iden, db: Db, log: seq<Record>, more: seq<Record>, n: Name, v: Value, b: Option<int>)
    requires Truthful(c, s, db, log, n, v, b) && !n.OffsetEnd?
    ensures Truthful(c, s, db, log + more, n, v, b)
  {
    hide Indexed, SparseAt;
    forall i | 0 <= i < |log|
      ensures DataOf(c, log + more, i) == DataOf(c, log, i) && (log + more)[i] == log[i]
      ensures Indexed(c, s, db, log + more, i, b) == Indexed(c, s, db, log, i, b)
    {
      GrowthKeepsIndexed(c, s, db, log, more, i, b);
    }
  }

  /** A batch appended to the file, with its end offset stored. */
  lemma BatchKeepsDb(c: Codec, s: Iden, db: Db, log: seq<Record>, more: seq<Record>, end: Value, b: Option<int>)
    requires DbInv(c, s, db, log, b) && more != [] && end == Num(|log| + |more| - 1)
    ensures DbInv(c, s, db[Render(s, OffsetEnd) := end], log + more, b)
  {
    hide Render, SparseAt, Indexed, Truthful, SegmentIndexPrefix;
    var db' := db[Render(s, OffsetEnd) := end];
    PutKeepsIndexed(c, s, db, log, OffsetEnd, end, b);
    forall n | Render(s, n) in db' ensures Truthful(c, s, db', log + more, n, db'[Render(s, n)], b) {
      if n == OffsetEnd {
        EndTruth(c, s, db', log + more, end, b);
      } else {
        if Render(s, n) == Render(s, OffsetEnd) { RenderInjective(s, n, OffsetEnd); }
        TruthfulKept(c, s, db, db', log, n, db[Render(s, n)], b);
        GrowthKeepsTruth(c, s, db', log, more, n, db[Render(s, n)], b);
      }
    }
  }

  lemma EndTruth(c: Codec, s: Iden, db: Db, log: seq<Record>, v: Value, b: Option<int>)
    requires log != [] && v == Num(|log| - 1)
    ensures Truthful(c, s, db, log, OffsetEnd, v, b)
  {}

  /** Then with the time of its last record. */
  lemma TimeKeepsDb(c: Codec, s: Iden, db: Db, log: seq<Record>, b: Option<int>)
    requires DbInv(c, s, db, log, b) && log != []
    ensures DbInv(c, s, db[Render(s, TimeEnd) := Num(log[|log| - 1].createTime)], log, b)
  {
    hide DbInv, Render;
    PutKeepsDb(c, s, db, log, TimeEnd, Num(log[|log| - 1].createTime), b);
  }

  // ---------------------------------------------------------------- one builder write

  /** What a write for record `i` can be. */
  lemma WriteShape(rd: ReadData, base: int, m: nat)
    requires rd.record.offset >= 0 && m < |RecordWrites(rd, base)|
    ensures
      var (n, v) := RecordWrites(rd, base)[m];
      var r, e := rd.record, EntryFor(rd);
      || (n == OffsetStart && v == Num(r.offset) && rd.position == 0)
      || (n == Position(r.offset) && v == Index(e) && SparseAt(r.offset, base))
      || (n == Time(r.createTime) && v == Index(e) && SparseAt(r.offset, base))
      || (n == Key(r.key, r.offset) && v == Index(e) && r.key != "")
      || (n.Tag? && n.offset == r.offset && n.tag in r.tags && v == Index(e))
  {
    hide SparseAt;
  }

  /** The writes for a record include its key entry, every tag entry and, where due, its position entry. */
  lemma WritesCover(rd: ReadData, base: int)
    requires rd.record.offset >= 0
    ensures
      var ws, r, v := RecordWrites(rd, base), rd.record, Index(EntryFor(rd));
      && (r.key != "" ==> (Key(r.key, r.offset), v) in ws)
      && (forall t :: t in r.tags ==> (Tag(t, r.offset), v) in ws)
      && (SparseAt(r.offset, base) ==> (Position(r.offset), v) in ws && (Time(r.createTime), v) in ws)
      && (rd.position == 0 ==> (OffsetStart, Num(r.offset)) in ws)
  {
    hide SparseAt;
    var ws, r, e := RecordWrites(rd, base), rd.record, EntryFor(rd);
    var tagWrites := TagWrites(r.tags, e);
    assert forall x :: x in tagWrites ==> x in ws;
    forall t | t in r.tags ensures (Tag(t, r.offset), Index(e)) in ws {
      var i :| 0 <= i < |r.tags| && r.tags[i] == t;
      assert tagWrites[i] == (Tag(t, r.offset), Index(e));
    }
  }

  /** The write a builder is about to make is true of the file. */
  lemma WriteIsTrue(c: Codec, s: Iden, db: Db, log: seq<Record>, i: nat, base: int, m: nat, b: Option<int>)
    requires i < |log| && Contiguous(log) && IndexedBelow(c, s, db, log, i, b) && (b.Some? ==> base == b.value)
    requires
      var rd := ReadData(Pos(c, log, i), log[i]);
      m < |RecordWrites(rd, base)|
    ensures
      var (n, v) := RecordWrites(ReadData(Pos(c, log, i), log[i]), base)[m];
      Truthful(c, s, db, log, n, v, b)
  {
    hide SparseAt, Indexed, RecordWrites;
    var rd := ReadData(Pos(c, log, i), log[i]);
    WriteShape(rd, base, m);
    assert EntryFor(rd) == DataOf(c, log, i);
    if RecordWrites(rd, base)[m].0.OffsetStart? { PosInjective(c, log, i, 0); }
  }

  lemma AllWritesIndex(c: Codec, s: Iden, db: Db, log: seq<Record>, i: nat, base: int, b: Option<int>)
    requires i < |log| && Contiguous(log) && (b.Some? ==> base == b.value)
    requires
      var ws := RecordWrites(ReadData(Pos(c, log, i), log[i]), base);
      WritesDone(s, db, ws, |ws|)
    ensures Indexed(c, s, db, log, i, b)
  {
    hide SparseAt, RecordWrites, Render;
    var rd := ReadData(Pos(c, log, i), log[i]);
    var ws := RecordWrites(rd, base);
    WritesCover(rd, base);
    assert EntryFor(rd) == DataOf(c, log, i);
    PosZero(c, log);
    assert forall x :: x in ws ==> Render(s, x.0) in db && (x.0.OffsetStart? || x.0.Time? || db[Render(s, x.0)] == x.1);
  }

  /** A further true write keeps the writes already made for a record. */
  lemma PutKeepsWritesDone(c: Codec, s: Iden, db: Db, log: seq<Record>, n: Name, v: Value, b: Option<int>, i: nat, base: int, w: nat)
    requires Harmless(c, s, db, log, n, v, b) && i < |log| && Contiguous(log)
    requires WritesDone(s, db, RecordWrites(ReadData(Pos(c, log, i), log[i]), base), w)
    ensures WritesDone(s, db[Render(s, n) := v], RecordWrites(ReadData(Pos(c, log, i), log[i]), base), w)
  {
    hide SparseAt, RecordWrites, Render, Harmless;
    var rd := ReadData(Pos(c, log, i), log[i]);
    var ws := RecordWrites(rd, base);
    forall m | 0 <= m < w && !ws[m].0.OffsetStart? && !ws[m].0.Time? ensures db[Render(s, n) := v][Render(s, ws[m].0)] == ws[m].1 {
      WriteShape(rd, base, m);
      assert EntryFor(rd) == DataOf(c, log, i);
      PutKeepsHolds(c, s, db, log, n, v, b, ws[m].0, i);
    }
  }

  // ---------------------------------------------------------------- the builder between writes

  ghost predicate IndexedKept(c: Codec, s: Iden, db: Db, db': Db, log: seq<Record>, b: Option<int>)
  {
    forall i :: 0 <= i < |log| && Indexed(c, s, db, log, i, b) ==> Indexed(c, s, db', log, i, b)
  }

  /** A builder stays in order when the store keeps what is indexed and the writes under way. */
  lemma BuilderKept(c: Codec, s: Iden, db: Db, db': Db, log: seq<Record>, bd: Builder, b: Option<int>)
    requires BuilderInv(c, s, db, log, bd, b) && IndexedKept(c, s, db, db', log, b)
    requires bd.phase.Saving? && bd.phase.d < |bd.phase.data| ==>
      WritesDone(s, db', RecordWrites(bd.phase.data[bd.phase.d], bd.base), bd.phase.w)
    ensures BuilderInv(c, s, db', log, bd, b)
  {
    hide Indexed, RecordWrites, WritesDone, Pos;
  }

  lemma BuilderPut(c: Codec, s: Iden, db: Db, log: seq<Record>, n: Name, v: Value, bd: Builder, b: Option<int>)
    requires BuilderInv(c, s, db, log, bd, b) && Harmless(c, s, db, log, n, v, b) && Contiguous(log)
    ensures BuilderInv(c, s, db[Render(s, n) := v], log, bd, b)
  {
    hide Indexed, Render, Harmless, RecordWrites, WritesDone, Pos;
    PutKeepsIndexed(c, s, db, log, n, v, b);
    if bd.phase.Saving? && bd.phase.d < |bd.phase.data| {
      var i := bd.phase.data[0].record.offset + bd.phase.d;
      assert bd.phase.data[bd.phase.d] == ReadData(Pos(c, log, i), log[i]);
      PutKeepsWritesDone(c, s, db, log, n, v, b, i, bd.base, bd.phase.w);
    }
    BuilderKept(c, s, db, db[Render(s, n) := v], log, bd, b);
  }

  lemma BuilderForeign(c: Codec, s: Iden, db: Db, log: seq<Record>, k: string, v: Value, bd: Builder, b: Option<int>)
    requires BuilderInv(c, s, db, log, bd, b) && DbInv(c, s, db, log, b) && !(SegmentIndexPrefix(s) <= k)
    ensures BuilderInv(c, s, db[k := v], log, bd, b)
  {
    hide Indexed, Render, RecordWrites, SegmentIndexPrefix, DbInv, Pos;
    ForeignKeepsDb(c, s, db, log, k, v, b);
    forall n ensures Render(s, n) != k { UnderPrefix(s, n); }
    BuilderKept(c, s, db, db[k := v], log, bd, b);
  }

  lemma BuilderForeignDelete(c: Codec, s: Iden, db: Db, log: seq<Record>, k: string, bd: Builder, b: Option<int>)
    requires BuilderInv(c, s, db, log, bd, b) && DbInv(c, s, db, log, b) && !(SegmentIndexPrefix(s) <= k)
    ensures BuilderInv(c, s, db - {k}, log, bd, b)
  {
    hide Indexed, Render, RecordWrites, SegmentIndexPrefix, DbInv, Pos;
    ForeignDeleteKeepsDb(c, s, db, log, k, b);
    forall n ensures Render(s, n) != k { UnderPrefix(s, n); }
    BuilderKept(c, s, db, db - {k}, log, bd, b);
  }

  lemma PosZero(c: Codec, log: seq<Record>)
    ensures Pos(c, log, 0) == 0
  {}

  lemma ResumeGrowth(c: Codec, s: Iden, db: Db, log: seq<Record>, more: seq<Record>, startPosition: nat, last: nat, b: Option<int>)
    requires ResumeInv(c, s, db, log, startPosition, last, b)
    ensures ResumeInv(c, s, db, log + more, startPosition, last, b)
  {
    hide Indexed, Pos;
    var log' := log + more;
    var at := if startPosition == 0 then 0 else IndexAt(c, log, startPosition);
    PosZero(c, log');
    PosOfAppend(c, log, more, at);
    forall i | 0 <= i < |log'| && (i < last || Pos(c, log', i) < startPosition) ensures Indexed(c, s, db, log', i, b) {
      if i >= |log| { PosMonotone(c, log', at, i); }
      PosOfAppend(c, log, more, i);
      GrowthKeepsIndexed(c, s, db, log, more, i, b);
    }
  }

  lemma BuilderGrowth(c: Codec, s: Iden, db: Db, log: seq<Record>, more: seq<Record>, bd: Builder, b: Option<int>)
    requires BuilderInv(c, s, db, log, bd, b)
    ensures BuilderInv(c, s, db, log + more, bd, b)
  {
    hide Indexed, RecordWrites, WritesDone, Pos, ResumeInv;
    ResumeGrowth(c, s, db, log, more, bd.startPosition, bd.last, b);
    forall i | 0 <= i < |log| ensures Indexed(c, s, db, log + more, i, b) == Indexed(c, s, db, log, i, b) {
      GrowthKeepsIndexed(c, s, db, log, more, i, b);
    }
    if bd.phase.Saving? {
      var lo := bd.phase.data[0].record.offset;
      forall k | 0 <= k < |bd.phase.data| ensures bd.phase.data[k] == ReadData(Pos(c, log + more, lo + k), (log + more)[lo + k]) {
        PosOfAppend(c, log, more, lo + k);
      }
    }
  }
}
