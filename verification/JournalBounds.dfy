/** Bounds on what a run can reach: the start offset, the places of sparse entries, and how far a builder
    gets past a record that is too large. */
module JournalBounds {
  import opened Options
  import opened Bytes
  import opened SegmentLog
  import opened Segments
  import opened Strings
  import opened Store
  import opened Keys
  import opened JournalSystem
  import opened JournalInvariant
  import opened JournalRuns

  // ---------------------------------------------------------------- who writes what

  /** Step `e` of `s` stores `v` under name `n`. */
  ghost predicate Puts(c: Codec, s: Seg, e: Event, n: Name, v: Value)
  {
    match e
    case Batch(_) => n.OffsetEnd? || n.TimeEnd?
    case StopInBatch(_, _, _) => n.OffsetEnd? || n.TimeEnd?
    case BuilderSave =>
      SaveReady(s) &&
      var b := s.builder.value;
      RecordWrites(b.phase.data[b.phase.d], b.base)[b.phase.w] == (n, v)
    case BuilderCommit => s.builder.Some? && n.LastOffset? && v == Num(s.builder.value.last)
    case MarkFinished(_) => n.Finish?
    case _ => false
  }

  lemma BatchPuts(c: Codec, iden: Iden, s: Seg, data: seq<Record>, fault: Fault, n: Name)
    requires Batchable(c, s, data)
    ensures
      var db, k := AfterBatch(c, iden, s, data, fault).db, Render(iden, n);
      k in db && !n.OffsetEnd? && !n.TimeEnd? ==> k in s.db && s.db[k] == db[k]
    ensures forall k :: k in s.db ==> k in AfterBatch(c, iden, s, data, fault).db
  {
    hide Render, Validate;
    if Render(iden, n) == Render(iden, OffsetEnd) { RenderInjective(iden, n, OffsetEnd); }
    if Render(iden, n) == Render(iden, TimeEnd) { RenderInjective(iden, n, TimeEnd); }
  }

  /** Whatever is stored under a name after a step was there before, or the step put it there. */
  lemma StoredBefore(c: Codec, iden: Iden, s: Seg, e: Event, n: Name)
    requires Enabled(c, iden, s, e) && Render(iden, n) in Step(c, iden, s, e).db
    ensures
      var k := Render(iden, n);
      (k in s.db && s.db[k] == Step(c, iden, s, e).db[k]) || Puts(c, s, e, n, Step(c, iden, s, e).db[k])
  {
    hide Render, RecordWrites, NextRead, SegmentIndexPrefix, Validate;
    UnderPrefix(iden, n);
    match e
    case Batch(data) => BatchPuts(c, iden, s, data, NoFault, n);
    case StopInBatch(data, fault, _) => BatchPuts(c, iden, s, data, fault, n);
    case BuilderSave =>
      var b := s.builder.value;
      var m := RecordWrites(b.phase.data[b.phase.d], b.base)[b.phase.w].0;
      if Render(iden, n) == Render(iden, m) { RenderInjective(iden, n, m); }
    case BuilderCommit =>
      if Render(iden, n) == Render(iden, LastOffset) { RenderInjective(iden, n, LastOffset); }
    case MarkFinished(_) =>
      if Render(iden, n) == Render(iden, Finish) { RenderInjective(iden, n, Finish); }
    case _ =>
  }

  /** Nothing stored under a name of the segment goes. */
  lemma NamesStay(c: Codec, iden: Iden, s: Seg, e: Event, n: Name)
    requires Enabled(c, iden, s, e) && Render(iden, n) in s.db
    ensures Render(iden, n) in Step(c, iden, s, e).db
  {
    hide Render, RecordWrites, NextRead, SegmentIndexPrefix, Validate;
    UnderPrefix(iden, n);
    if e.Batch? { BatchPuts(c, iden, s, e.data, NoFault, n); }
    if e.StopInBatch? { BatchPuts(c, iden, s, e.data, e.fault, n); }
  }

  // ---------------------------------------------------------------- the base of the sparse index

  predicate Spaced(o: nat) { o % 10000 == 0 || o % 10000 == 9999 }

  /** The start offset in memory is unknown, or 0 for a file that holds a record; builders use one of the
      two as their base; and position entries stand where one of the two puts them. */
  ghost predicate BaseInv(iden: Iden, s: Seg)
  {
    && (s.memStart == -1 || (s.memStart == 0 && s.log != []))
    && (s.builder.Some? ==> -1 <= s.builder.value.base <= 0)
    && forall o :: Render(iden, Position(o)) in s.db ==> Spaced(o)
  }

  lemma SpacedAt(o: nat, base: int)
    requires -1 <= base <= 0 && SparseAt(o, base)
    ensures Spaced(o)
  {}

  lemma BaseStep(c: Codec, iden: Iden, s: Seg, e: Event)
    requires Inv(c, iden, s, None) && Enabled(c, iden, s, e) && BaseInv(iden, s)
    ensures BaseInv(iden, Step(c, iden, s, e))
  {
    hide Render, Spaced;
    var t := Step(c, iden, s, e);
    forall o | Render(iden, Position(o)) in t.db ensures Spaced(o) {
      hide Inv, Enabled, Step;
      PositionSpaced(c, iden, s, e, o);
    }
    hide DbInv, RecordWrites, SparseAt, NextRead, Enabled, BuilderInv, ResumePosition;
    if e.Restart? { RestartStep(c, iden, s, e.loaded, None); StartMeansRecords(c, iden, s); }
    if e.StopInBatch? {
      StopStep(c, iden, s, e.data, e.fault, e.loaded, None);
      StartMeansRecords(c, iden, t);
    }
  }

  lemma StartMeansRecords(c: Codec, iden: Iden, s: Seg)
    requires Inv(c, iden, s, None)
    ensures Render(iden, OffsetStart) in s.db ==> s.log != []
  {
    hide Render, Indexed, Pos;
    assert Render(iden, OffsetStart) in s.db ==> Truthful(c, iden, s.db, s.log, OffsetStart, s.db[Render(iden, OffsetStart)], None);
  }

  lemma PositionSpaced(c: Codec, iden: Iden, s: Seg, e: Event, o: nat)
    requires Enabled(c, iden, s, e) && BaseInv(iden, s) && Render(iden, Position(o)) in Step(c, iden, s, e).db
    ensures Spaced(o)
  {
    hide Render, Spaced, RecordWrites, SparseAt, Step, Enabled;
    StoredBefore(c, iden, s, e, Position(o));
    if Render(iden, Position(o)) !in s.db {
      var b := s.builder.value;
      WriteShape(b.phase.data[b.phase.d], b.base, b.phase.w);
      SpacedAt(o, b.base);
    }
  }

  lemma {:induction false} RunsKeepBase(c: Codec, iden: Iden, run: seq<Seg>, es: seq<Event>, i: nat)
    requires IsRun(c, iden, run, es) && i < |run|
    ensures BaseInv(iden, run[i])
  {
    hide Inv, Enabled, Step, BaseInv;
    if i == 0 {
      BaseAtInit(iden, run[0]);
    } else {
      RunsKeepBase(c, iden, run, es, i - 1);
      RunsKeepInv(c, iden, run, es, i - 1, None);
      BaseStep(c, iden, run[i - 1], es[i - 1]);
    }
  }

  lemma BaseAtInit(iden: Iden, s: Seg)
    requires Init(iden, s)
    ensures BaseInv(iden, s)
  {
    hide Render, SegmentIndexPrefix;
    forall n ensures Render(iden, n) !in s.db { UnderPrefix(iden, n); }
  }

  /** Whatever mixture of bases a run goes through, its position entries stand at 0 or 9999 modulo 10000. */
  lemma SparseEntriesSpaced(c: Codec, iden: Iden, run: seq<Seg>, es: seq<Event>, i: nat, o: nat)
    requires IsRun(c, iden, run, es) && i < |run| && Render(iden, Position(o)) in run[i].db
    ensures o % 10000 == 0 || o % 10000 == 9999
  {
    hide IsRun, Render;
    RunsKeepBase(c, iden, run, es, i);
  }

  /** No offset given to a record is the start offset in memory, read as `u64`: the branch of the write
      request that would save a start offset is never taken. */
  lemma StartOffsetIsNotGiven(c: Codec, iden: Iden, run: seq<Seg>, es: seq<Event>, i: nat, data: seq<Record>, j: nat)
    requires IsRun(c, iden, run, es) && i < |run| && Batchable(c, run[i], data) && j < |data|
    ensures run[i].memStart == -1 || (run[i].memStart == 0 && run[i].log != [])
    ensures AsU64(run[i].memStart) != WrapAdd(AsU64(run[i].writer.value), j + 1)
  {
    hide IsRun, DbInv, Render;
    RunsKeepBase(c, iden, run, es, i);
    RunsKeepInv(c, iden, run, es, i, None);
    OffsetMeaning(run[i].writer.value, j);
  }

  // ---------------------------------------------------------------- a record that is too large

  predicate Named(n: Name) { n.Position? || n.Tag? || n.Key? }

  /** Nothing past record `j` has been indexed or is about to be. */
  ghost predicate HeldAt(c: Codec, iden: Iden, s: Seg, j: nat)
  {
    && (forall n :: Named(n) && Render(iden, n) in s.db ==> n.offset <= j)
    && (Render(iden, LastOffset) in s.db ==> LastBuilt(iden, s.db) <= j)
    && (s.builder.Some? ==> BuilderHeld(c, s.log, s.builder.value, j))
  }

  ghost predicate BuilderHeld(c: Codec, log: seq<Record>, bd: Builder, j: nat)
  {
    && bd.last <= j && (j < |log| ==> bd.startPosition <= Pos(c, log, j))
    && (bd.phase.Saving? ==> forall k :: 0 <= k < |bd.phase.data| ==> bd.phase.data[k].record.offset <= j)
  }

  ghost predicate TooLarge(c: Codec, log: seq<Record>, j: nat) { j < |log| ==> c.Size(log[j]) > BATCH_BYTES }

  /** A read that begins at or before a record larger than its size limit ends with it at the latest. */
  lemma {:induction false} ReadStopsAt(c: Codec, log: seq<Record>, i: nat, start: nat, maxSize: nat, room: nat, already: nat, j: nat)
    requires Contiguous(log) && AllStorable(c, log) && i <= |log| && Max(i, start) <= j < |log| && c.Size(log[j]) > maxSize
    ensures forall k :: 0 <= k < |ReadFrom(c, log, i, start, maxSize, room, already)| ==>
      ReadFrom(c, log, i, start, maxSize, room, already)[k].record.offset <= j
    decreases |log| - i
  {
    hide Pos;
    if already <= maxSize {
      if i < start {
        ReadStopsAt(c, log, i + 1, start, maxSize, room, already, j);
      } else if room > 1 {
        if i < j { ReadStopsAt(c, log, i + 1, start, maxSize, room - 1, already + c.Size(log[i]), j); }
        assert i == j ==> ReadFrom(c, log, i + 1, start, maxSize, room - 1, already + c.Size(log[i])) == [];
      }
    }
  }

  lemma ReadHeld(c: Codec, iden: Iden, s: Seg, j: nat)
    requires Inv(c, iden, s, None) && ReadReady(c, s) && TooLarge(c, s.log, j) && BuilderHeld(c, s.log, s.builder.value, j)
    ensures forall k :: 0 <= k < |NextRead(c, s.log, s.builder.value)| ==> NextRead(c, s.log, s.builder.value)[k].record.offset <= j
  {
    hide DbInv, Indexed, Pos, ReadFrom;
    var bd := s.builder.value;
    var at := FrameIndex(c, s.log, bd.startPosition);
    if j < |s.log| {
      if j < at { PosMonotone(c, s.log, j, at); }
      ReadStopsAt(c, s.log, at, bd.last, BATCH_BYTES, BATCH_RECORDS, 0, j);
    } else {
      ReadIsSlice(c, s.log, at, bd.last, BATCH_BYTES, BATCH_RECORDS, 0);
      var lo := Max(at, bd.last);
      forall k | 0 <= k < |NextRead(c, s.log, bd)| ensures NextRead(c, s.log, bd)[k].record.offset <= j {
        assert NextRead(c, s.log, bd)[k] == ReadData(Pos(c, s.log, lo + k), s.log[lo + k]);
      }
    }
  }

  /** A builder that starts begins at 0 or at the record of a stored position entry. */
  lemma ResumesAtEntry(c: Codec, iden: Iden, db: Db, log: seq<Record>)
    requires DbInv(c, iden, db, log, None)
    ensures ResumePosition(iden, db) == 0 ||
      exists o: nat :: Render(iden, Position(o)) in db && o < |log| && ResumePosition(iden, db) == Pos(c, log, o)
  {
    hide Indexed, SegmentIndexPrefix, Render;
    var hits := Hits(db, db.Keys, PositionPrefix(iden), ByOffset, LastBuilt(iden, db));
    if hits != {} {
      var n := NameUnder(c, iden, db, log, None, PositionPrefix(iden), Least(hits));
      PositionKeys(iden, n);
      assert ResumePosition(iden, db) == Pos(c, log, n.offset);
    }
  }

  lemma StartHeld(c: Codec, iden: Iden, s: Seg, j: nat)
    requires Inv(c, iden, s, None) && HeldAt(c, iden, s, j) && Enabled(c, iden, s, BuilderStart)
    ensures BuilderHeld(c, s.log, Step(c, iden, s, BuilderStart).builder.value, j)
  {
    hide DbInv, Render, Pos, ResumePosition, LastBuilt;
    ResumesAtEntry(c, iden, s.db, s.log);
    LastBuiltHeld(c, iden, s, j);
    if ResumePosition(iden, s.db) != 0 && j < |s.log| {
      var o: nat :| Render(iden, Position(o)) in s.db && o < |s.log| && ResumePosition(iden, s.db) == Pos(c, s.log, o);
      assert Named(Position(o));
      PosMonotone(c, s.log, o, j);
    }
  }

  lemma LastBuiltHeld(c: Codec, iden: Iden, s: Seg, j: nat)
    requires HeldAt(c, iden, s, j)
    ensures LastBuilt(iden, s.db) <= j
  {
    hide Render;
  }

  /** Growth of the file leaves a builder's bound. */
  lemma GrowthHeld(c: Codec, iden: Iden, s: Seg, more: seq<Record>, j: nat)
    requires Inv(c, iden, s, None) && s.builder.Some? && BuilderHeld(c, s.log, s.builder.value, j)
    ensures BuilderHeld(c, s.log + more, s.builder.value, j)
  {
    hide DbInv, Indexed, Pos, PhaseInv;
    var p := s.builder.value.startPosition;
    if j < |s.log + more| {
      if j < |s.log| {
        PosOfAppend(c, s.log, more, j);
      } else if p != 0 {
        var at := IndexAt(c, s.log, p);
        PosOfAppend(c, s.log, more, at);
        PosMonotone(c, s.log + more, at, j);
      }
    }
  }

  lemma BuilderStepHeld(c: Codec, iden: Iden, s: Seg, e: Event, j: nat)
    requires Inv(c, iden, s, None) && Enabled(c, iden, s, e) && TooLarge(c, s.log, j) && HeldAt(c, iden, s, j)
    requires Step(c, iden, s, e).builder.Some?
    ensures BuilderHeld(c, Step(c, iden, s, e).log, Step(c, iden, s, e).builder.value, j)
  {
    hide Inv, Render, Pos, NextRead, RecordWrites, ResumePosition, LastBuilt, Validate, Aligned, AllStorable, Stamp;
    match e
    case Batch(data) => GrowthHeld(c, iden, s, Stamp(data, s.writer.value), j);
    case BuilderStart => StartHeld(c, iden, s, j);
    case BuilderRead => ReadHeld(c, iden, s, j);
    case _ =>
  }

  lemma StoredHeld(c: Codec, iden: Iden, s: Seg, e: Event, j: nat, n: Name)
    requires Enabled(c, iden, s, e) && HeldAt(c, iden, s, j)
    requires Named(n) && Render(iden, n) in Step(c, iden, s, e).db
    ensures n.offset <= j
  {
    hide Render, RecordWrites, Step, Enabled, LastBuilt;
    StoredBefore(c, iden, s, e, n);
    if Render(iden, n) !in s.db {
      var b := s.builder.value;
      WriteShape(b.phase.data[b.phase.d], b.base, b.phase.w);
    }
  }

  lemma FrontierHeld(c: Codec, iden: Iden, s: Seg, e: Event, j: nat)
    requires Enabled(c, iden, s, e) && HeldAt(c, iden, s, j)
    ensures LastBuilt(iden, Step(c, iden, s, e).db) <= j
  {
    hide Render, RecordWrites, Step, Enabled;
    if Render(iden, LastOffset) in Step(c, iden, s, e).db {
      StoredBefore(c, iden, s, e, LastOffset);
      if e.BuilderSave? && SaveReady(s) {
        var b := s.builder.value;
        WriteShape(b.phase.data[b.phase.d], b.base, b.phase.w);
      }
    }
  }

  lemma HeldStep(c: Codec, iden: Iden, s: Seg, e: Event, j: nat)
    requires Inv(c, iden, s, None) && Enabled(c, iden, s, e) && TooLarge(c, s.log, j) && HeldAt(c, iden, s, j)
    ensures HeldAt(c, iden, Step(c, iden, s, e), j)
  {
    hide Render, Inv, Enabled, Step, LastBuilt, BuilderHeld;
    forall n | Named(n) && Render(iden, n) in Step(c, iden, s, e).db ensures n.offset <= j { StoredHeld(c, iden, s, e, j, n); }
    FrontierHeld(c, iden, s, e, j);
    if Step(c, iden, s, e).builder.Some? { BuilderStepHeld(c, iden, s, e, j); }
  }

  lemma LogGrows(c: Codec, iden: Iden, s: Seg, e: Event)
    requires Enabled(c, iden, s, e)
    ensures s.log <= Step(c, iden, s, e).log
  {
    hide Render, NextRead, RecordWrites, Validate;
  }

  lemma {:induction false} RunHeld(c: Codec, iden: Iden, run: seq<Seg>, es: seq<Event>, i: nat, j: nat)
    requires IsRun(c, iden, run, es) && i < |run| && TooLarge(c, run[i].log, j)
    ensures HeldAt(c, iden, run[i], j)
  {
    hide Inv, Enabled, Step, HeldAt, Init;
    if i == 0 {
      HeldAtInit(c, iden, run[0], j);
    } else {
      LogGrows(c, iden, run[i - 1], es[i - 1]);
      RunHeld(c, iden, run, es, i - 1, j);
      RunsKeepInv(c, iden, run, es, i - 1, None);
      HeldStep(c, iden, run[i - 1], es[i - 1], j);
    }
  }

  lemma HeldAtInit(c: Codec, iden: Iden, s: Seg, j: nat)
    requires Init(iden, s)
    ensures HeldAt(c, iden, s, j)
  {
    hide Render, SegmentIndexPrefix;
    forall n ensures Render(iden, n) !in s.db { UnderPrefix(iden, n); }
  }

  /** A record larger than 10 MiB holds the builder up for good: in every state of every run, whatever
      stops, starts and restarts, the saved frontier is at or below it, a running builder has not passed
      it, and no record after it has a position, key or tag entry. */
  lemma HeldUpForGood(c: Codec, iden: Iden, run: seq<Seg>, es: seq<Event>, i: nat, j: nat)
    requires IsRun(c, iden, run, es) && i < |run| && j < |run[i].log| && c.Size(run[i].log[j]) > 10485760
    ensures LastBuilt(iden, run[i].db) <= j
    ensures run[i].builder.Some? ==> run[i].builder.value.last <= j
    ensures forall n: Name :: (n.Position? || n.Tag? || n.Key?) && n.offset > j ==> Render(iden, n) !in run[i].db
  {
    hide IsRun, Render, LastBuilt;
    RunHeld(c, iden, run, es, i, j);
    LastBuiltHeld(c, iden, run[i], j);
    forall n: Name | (n.Position? || n.Tag? || n.Key?) && n.offset > j ensures Render(iden, n) !in run[i].db {
      assert Named(n);
    }
  }
}
