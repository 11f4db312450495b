/** The invariant holds in every state of every run. */
module JournalRuns {
  import opened Options
  import opened Bytes
  import opened SegmentLog
  import opened Segments
  import opened Strings
  import opened Store
  import opened Keys
  import opened JournalSystem
  import opened JournalInvariant

  function Max(a: nat, b: nat): nat { if a < b then b else a }

  /** On contiguous offsets a read returns consecutive records from the first one it may return,
      at least one if there is one, and a second one unless the first is the last or too large. */
  lemma {:induction false} ReadIsSlice(c: Codec, log: seq<Record>, i: nat, start: nat, maxSize: nat, room: nat, already: nat)
    requires Contiguous(log) && AllStorable(c, log) && i <= |log| && room >= 1
    ensures
      var got, lo := ReadFrom(c, log, i, start, maxSize, room, already), Max(i, start);
      && (lo <= |log| ==> IsSlice(c, log, lo, got))
      && (got == [] <==> lo >= |log| || already > maxSize)
      && (got != [] ==> (|got| == 1 <==> room == 1 || lo + 1 == |log| || already + c.Size(log[lo]) > maxSize))
    decreases |log| - i
  {
    hide Pos, IsSlice;
    SliceNil(c, log, Max(i, start));
    if i < |log| && already <= maxSize {
      if i < start {
        ReadIsSlice(c, log, i + 1, start, maxSize, room, already);
      } else {
        SliceNil(c, log, i + 1);
        SliceCons(c, log, i, []);
        assert [ReadData(Pos(c, log, i), log[i])] + [] == [ReadData(Pos(c, log, i), log[i])];
        if room > 1 {
          var a := already + c.Size(log[i]);
          ReadIsSlice(c, log, i + 1, start, maxSize, room - 1, a);
          SliceCons(c, log, i, ReadFrom(c, log, i + 1, start, maxSize, room - 1, a));
        }
      }
    }
  }

  lemma SliceNil(c: Codec, log: seq<Record>, lo: nat)
    ensures lo <= |log| ==> IsSlice(c, log, lo, [])
  {}

  lemma SliceCons(c: Codec, log: seq<Record>, i: nat, rest: seq<ReadData>)
    requires i < |log| && IsSlice(c, log, i + 1, rest)
    ensures IsSlice(c, log, i, [ReadData(Pos(c, log, i), log[i])] + rest)
  {
    hide Pos;
    var all := [ReadData(Pos(c, log, i), log[i])] + rest;
    forall k | 0 <= k < |all| ensures all[k] == ReadData(Pos(c, log, i + k), log[i + k]) {
      if k > 0 { assert all[k] == rest[k - 1] == ReadData(Pos(c, log, i + 1 + (k - 1)), log[i + 1 + (k - 1)]); }
    }
  }

  /** The entry a resuming builder starts from is a true one: everything before it is indexed. */
  lemma StartIsSafe(c: Codec, s: Iden, db: Db, log: seq<Record>, b: Option<int>)
    requires DbInv(c, s, db, log, b)
    ensures ResumeInv(c, s, db, log, ResumePosition(s, db), LastBuilt(s, db), b)
  {
    hide Indexed, SegmentIndexPrefix, Render;
    assert Pos(c, log, 0) == 0;
    var last := LastBuilt(s, db);
    var hits := Hits(db, db.Keys, PositionPrefix(s), ByOffset, last);
    if hits != {} {
      var k := Least(hits);
      var n := NameUnder(c, s, db, log, b, PositionPrefix(s), k);
      PositionKeys(s, n);
      var o := n.offset;
      assert ResumePosition(s, db) == Pos(c, log, o);
      forall i | 0 <= i < |log| && Pos(c, log, i) < Pos(c, log, o) ensures Indexed(c, s, db, log, i, b) {
        if o <= i { PosMonotone(c, log, o, i); }
      }
    }
  }

  /** A stored key under a prefix of the segment is the rendering of a name. */
  lemma NameUnder(c: Codec, s: Iden, db: Db, log: seq<Record>, b: Option<int>, p: string, k: string) returns (n: Name)
    requires DbInv(c, s, db, log, b) && k in db && p <= k && SegmentIndexPrefix(s) <= p
    ensures k == Render(s, n) && Truthful(c, s, db, log, n, db[k], b)
  {
    hide Truthful;
    assert SegmentIndexPrefix(s) <= k;
    n :| k == Render(s, n);
  }

  // ---------------------------------------------------------------- single steps

  /** What a batch leaves in file and store, seen without the threads, if its end offset was saved. */
  lemma BatchLeaves(c: Codec, iden: Iden, s: Seg, data: seq<Record>, fault: Fault, b: Option<int>)
    requires Inv(c, iden, s, b) && Batchable(c, s, data) && !fault.EndOffsetFault?
    ensures Inv(c, iden, AfterBatch(c, iden, s, data, fault).(writer := None, builder := None), b)
  {
    hide DbInv, AfterBatch, AllStorable, Stamp, Render, BuilderInv;
    LeavesFile(c, iden, s, data, fault);
    LeavesStore(c, iden, s, data, fault, b);
  }

  lemma LeavesFile(c: Codec, iden: Iden, s: Seg, data: seq<Record>, fault: Fault)
    requires WriterInv(c, s) && Batchable(c, s, data)
    ensures WriterInv(c, AfterBatch(c, iden, s, data, fault).(writer := None))
  {
    hide Render;
    var localEnd := s.writer.value;
    if s.metaEnd.Some? { EndOffsetMeaning(s.metaEnd.value, localEnd, |data|); }
    StampContiguous(s.log, data, localEnd);
    OffsetMeaning(localEnd, |data| - 1);
  }

  lemma LeavesStore(c: Codec, iden: Iden, s: Seg, data: seq<Record>, fault: Fault, b: Option<int>)
    requires Batchable(c, s, data) && s.writer.value == |s.log| - 1 && !fault.EndOffsetFault? && DbInv(c, iden, s.db, s.log, b)
    ensures DbInv(c, iden, AfterBatch(c, iden, s, data, fault).db, AfterBatch(c, iden, s, data, fault).log, b)
  {
    hide Render, DbInv, AllStorable;
    if Accepted(s, data) && fault.AfterAppend() {
      var more := Stamp(data, s.writer.value);
      var end := more[|more| - 1].offset;
      OffsetMeaning(s.writer.value, |data| - 1);
      BatchKeepsDb(c, iden, s.db, s.log, more, Num(AsU64(end)), b);
      TimeKeepsDb(c, iden, s.db[Render(iden, OffsetEnd) := Num(AsU64(end))], s.log + more, b);
    }
  }

  /** A stop inside a batch, wherever it falls but between append and save of the end offset. */
  lemma StopStep(c: Codec, iden: Iden, s: Seg, data: seq<Record>, fault: Fault, loaded: Option<Status>, b: Option<int>)
    requires Inv(c, iden, s, b) && Batchable(c, s, data) && !fault.EndOffsetFault?
    ensures Enabled(c, iden, s, StopInBatch(data, fault, loaded))
    ensures Inv(c, iden, Step(c, iden, s, StopInBatch(data, fault, loaded)), b)
    ensures
      var t := Step(c, iden, s, StopInBatch(data, fault, loaded));
      t.memStart == if Render(iden, OffsetStart) in t.db then 0 else -1
  {
    hide Inv, Render, AfterBatch, Batchable;
    var t := AfterBatch(c, iden, s, data, fault);
    BatchLeaves(c, iden, s, data, fault, b);
    RestartStep(c, iden, t.(writer := None, builder := None), loaded, b);
  }

  lemma BatchStep(c: Codec, iden: Iden, s: Seg, data: seq<Record>, b: Option<int>)
    requires Inv(c, iden, s, b) && Batchable(c, s, data)
    ensures Inv(c, iden, AfterBatch(c, iden, s, data, NoFault), b)
  {
    hide Indexed, Truthful, Render, SparseAt, PhaseInv, ResumeInv, DbInv;
    BatchLeaves(c, iden, s, data, NoFault, b);
    var localEnd := s.writer.value;
    if Accepted(s, data) {
      var more := Stamp(data, localEnd);
      var last := more[|more| - 1];
      OffsetMeaning(localEnd, |data| - 1);
      if s.builder.Some? {
        var db1 := s.db[Render(iden, OffsetEnd) := Num(AsU64(last.offset))];
        BuilderPut(c, iden, s.db, s.log, OffsetEnd, Num(AsU64(last.offset)), s.builder.value, b);
        BuilderPut(c, iden, db1, s.log, TimeEnd, Num(last.createTime), s.builder.value, b);
        BuilderGrowth(c, iden, db1[Render(iden, TimeEnd) := Num(last.createTime)], s.log, more, s.builder.value, b);
      }
    }
  }

  lemma ReadStep(c: Codec, iden: Iden, s: Seg, b: Option<int>)
    requires Inv(c, iden, s, b) && ReadReady(c, s)
    ensures NextRead(c, s.log, s.builder.value) == [] <==> s.log == []
    ensures Inv(c, iden, Step(c, iden, s, BuilderRead), b)
  {
    hide Indexed, Truthful, Render, SparseAt, DbInv, RecordWrites, Pos;
    var bd := s.builder.value;
    var at := FrameIndex(c, s.log, bd.startPosition);
    ReadIsSlice(c, s.log, at, bd.last, BATCH_BYTES, BATCH_RECORDS, 0);
    var data := NextRead(c, s.log, bd);
    ReachesRecord(c, iden, s, b);
    if data != [] {
      var lo := Max(at, bd.last);
      assert data[0] == ReadData(Pos(c, s.log, lo), s.log[lo]);
      forall i | 0 <= i < lo ensures Indexed(c, iden, s.db, s.log, i, b) {
        if bd.last <= i { PosMonotone(c, s.log, i, at); }
      }
    }
  }

  /** The position a builder reads from is never the end of a file that has records: it is 0 or the
      start of a record. */
  lemma ReachesRecord(c: Codec, iden: Iden, s: Seg, b: Option<int>)
    requires Inv(c, iden, s, b) && s.builder.Some?
    ensures Aligned(c, s.log, s.builder.value.startPosition)
    ensures s.log != [] ==> FrameIndex(c, s.log, s.builder.value.startPosition) < |s.log|
  {
    hide Indexed, DbInv, PhaseInv;
    var p := s.builder.value.startPosition;
    PosZero(c, s.log);
    var at := if p == 0 then 0 else IndexAt(c, s.log, p);
    assert Pos(c, s.log, at) == p;
    PosInjective(c, s.log, at, FrameIndex(c, s.log, p));
  }

  lemma SaveStep(c: Codec, iden: Iden, s: Seg, b: Option<int>)
    requires Enabled(c, iden, s, BuilderSave) && Inv(c, iden, s, b)
    ensures Inv(c, iden, Step(c, iden, s, BuilderSave), b)
  {
    hide Indexed, Truthful, Render, SparseAt, RecordWrites, Pos, DbInv, ResumeInv;
    var bd := s.builder.value;
    var data, d, w := bd.phase.data, bd.phase.d, bd.phase.w;
    var i := data[0].record.offset + d;
    assert data[d] == ReadData(Pos(c, s.log, i), s.log[i]);
    var ws := RecordWrites(data[d], bd.base);
    var (n, v) := ws[w];
    WriteIsTrue(c, iden, s.db, s.log, i, bd.base, w, b);
    PutKeepsDb(c, iden, s.db, s.log, n, v, b);
    BuilderPut(c, iden, s.db, s.log, n, v, bd, b);
  }

  lemma AdvanceStep(c: Codec, iden: Iden, s: Seg, b: Option<int>)
    requires Inv(c, iden, s, b) && Enabled(c, iden, s, BuilderAdvance)
    ensures Inv(c, iden, Step(c, iden, s, BuilderAdvance), b)
  {
    hide Indexed, Truthful, Render, SparseAt, RecordWrites, Pos, DbInv, ResumeInv;
    var bd := s.builder.value;
    var data, d := bd.phase.data, bd.phase.d;
    var i := data[0].record.offset + d;
    assert data[d] == ReadData(Pos(c, s.log, i), s.log[i]);
    AllWritesIndex(c, iden, s.db, s.log, i, bd.base, b);
    if d + 1 < |data| { assert data[d + 1] == ReadData(Pos(c, s.log, i + 1), s.log[i + 1]); }
  }

  lemma DoneStep(c: Codec, iden: Iden, s: Seg, b: Option<int>)
    requires Inv(c, iden, s, b) && Enabled(c, iden, s, BuilderDone)
    ensures Inv(c, iden, Step(c, iden, s, BuilderDone), b)
  {
    hide Indexed, Truthful, Render, SparseAt, RecordWrites, Pos, DbInv;
    var data := s.builder.value.phase.data;
    var i := data[0].record.offset + (|data| - 1);
    assert data[|data| - 1] == ReadData(Pos(c, s.log, i), s.log[i]);
  }

  lemma CommitStep(c: Codec, iden: Iden, s: Seg, b: Option<int>)
    requires Inv(c, iden, s, b) && Enabled(c, iden, s, BuilderCommit)
    ensures Inv(c, iden, Step(c, iden, s, BuilderCommit), b)
  {
    hide Indexed, Render, SparseAt, RecordWrites, Pos, DbInv, ResumeInv;
    var bd := s.builder.value;
    PutKeepsDb(c, iden, s.db, s.log, LastOffset, Num(bd.last), b);
    BuilderPut(c, iden, s.db, s.log, LastOffset, Num(bd.last), bd, b);
  }

  /** A restart is always possible, and what is loaded is what was in memory before it. */
  lemma RestartStep(c: Codec, iden: Iden, s: Seg, loaded: Option<Status>, b: Option<int>)
    requires Inv(c, iden, s, b)
    ensures Enabled(c, iden, s, Restart(loaded))
    ensures Inv(c, iden, Step(c, iden, s, Restart(loaded)), b)
    ensures Step(c, iden, s, Restart(loaded)).memEnd == s.memEnd
    ensures Step(c, iden, s, Restart(loaded)).memStart == if Render(iden, OffsetStart) in s.db then 0 else -1
  {
    hide Indexed, Render, IndexedBelow;
    assert Render(iden, OffsetEnd) in s.db ==> Truthful(c, iden, s.db, s.log, OffsetEnd, s.db[Render(iden, OffsetEnd)], b);
    assert Render(iden, OffsetStart) in s.db ==> Truthful(c, iden, s.db, s.log, OffsetStart, s.db[Render(iden, OffsetStart)], b);
  }

  /** The base condition under which sparse contents are pinned: every builder starts from base `b`. */
  ghost predicate BaseFixed(s: Seg, e: Event, b: Option<int>) { e.BuilderStart? && b.Some? ==> s.memStart == b.value }

  /** Every step keeps the invariant. */
  lemma StepKeepsInv(c: Codec, iden: Iden, s: Seg, e: Event, b: Option<int>)
    requires Inv(c, iden, s, b) && Enabled(c, iden, s, e) && BaseFixed(s, e, b)
    ensures Inv(c, iden, Step(c, iden, s, e), b)
  {
    hide Indexed, Truthful, Render, SparseAt, RecordWrites, Pos, DbInv, ResumeInv, AfterBatch, SegmentIndexPrefix, NextRead, Validate;
    match e
    case Batch(data) => BatchStep(c, iden, s, data, b);
    case BuilderStart => StartIsSafe(c, iden, s.db, s.log, b);
    case BuilderRead => ReadStep(c, iden, s, b);
    case BuilderSave => SaveStep(c, iden, s, b);
    case BuilderAdvance => AdvanceStep(c, iden, s, b);
    case BuilderDone => DoneStep(c, iden, s, b);
    case BuilderCommit => CommitStep(c, iden, s, b);
    case MarkFinished(now) =>
      FinishTruth(c, iden, s.db, s.log, now, b);
      PutKeepsDb(c, iden, s.db, s.log, Finish, Num(now), b);
      BuilderPut(c, iden, s.db, s.log, Finish, Num(now), s.builder.value, b);
    case ForeignPut(k, v) =>
      ForeignKeepsDb(c, iden, s.db, s.log, k, v, b);
      if s.builder.Some? { BuilderForeign(c, iden, s.db, s.log, k, v, s.builder.value, b); }
    case ForeignDelete(k) =>
      ForeignDeleteKeepsDb(c, iden, s.db, s.log, k, b);
      if s.builder.Some? { BuilderForeignDelete(c, iden, s.db, s.log, k, s.builder.value, b); }
    case Restart(loaded) => RestartStep(c, iden, s, loaded, b);
    case StopInBatch(data, fault, loaded) => StopStep(c, iden, s, data, fault, loaded, b);
    case _ =>
  }

  lemma FinishTruth(c: Codec, iden: Iden, db: Db, log: seq<Record>, now: nat, b: Option<int>)
    ensures Truthful(c, iden, db, log, Finish, Num(now), b)
  {}

  lemma InitInv(c: Codec, iden: Iden, s: Seg, b: Option<int>)
    requires Init(iden, s)
    ensures Inv(c, iden, s, b)
  {
    forall n ensures Render(iden, n) !in s.db { UnderPrefix(iden, n); }
  }

  /** Every state of every run satisfies the invariant. */
  lemma {:induction false} RunsKeepInv(c: Codec, iden: Iden, run: seq<Seg>, es: seq<Event>, i: nat, b: Option<int>)
    requires IsRun(c, iden, run, es) && i < |run|
    requires forall j :: 0 <= j < |es| ==> BaseFixed(run[j], es[j], b)
    ensures Inv(c, iden, run[i], b)
  {
    hide Inv, Enabled, Step, Init;
    if i == 0 {
      InitInv(c, iden, run[0], b);
    } else {
      RunsKeepInv(c, iden, run, es, i - 1, b);
      StepKeepsInv(c, iden, run[i - 1], es[i - 1], b);
    }
  }
}
