/** What the invariant means for the users of a segment. */
module JournalTheorems {
  import opened Options
  import opened Bytes
  import opened SegmentLog
  import opened Segments
  import opened Store
  import opened Keys
  import opened JournalSystem
  import opened JournalInvariant
  import opened JournalRuns

  ghost predicate Reachable(c: Codec, iden: Iden, run: seq<Seg>, es: seq<Event>, i: nat, b: Option<int>)
  {
    && IsRun(c, iden, run, es) && i < |run|
    && forall j :: 0 <= j < |es| ==> BaseFixed(run[j], es[j], b)
  }

  // ---------------------------------------------------------------- the four copies of the end offset

  function LastFrameOffset(log: seq<Record>): int { if log == [] then -1 else log[|log| - 1].offset }

  /** In every state of every run the thread's counter, the offset in memory, the offset in the store
      and the offset of the last frame agree, -1 standing for none, and the file holds the offsets
      0, 1, 2 and so on with no gap and no duplicate. */
  lemma EndOffsetsAgree(c: Codec, iden: Iden, run: seq<Seg>, es: seq<Event>, i: nat)
    requires Reachable(c, iden, run, es, i, None)
    ensures
      var s := run[i];
      && LastFrameOffset(s.log) == s.memEnd == LoadI64(s.db, Render(iden, OffsetEnd)) == |s.log| - 1
      && (s.writer.Some? ==> s.writer.value == s.memEnd)
      && (forall k :: 0 <= k < |s.log| ==> s.log[k].offset == k)
  {
    hide Indexed, Render, IsRun;
    RunsKeepInv(c, iden, run, es, i, None);
    var s := run[i];
    assert Render(iden, OffsetEnd) in s.db ==> Truthful(c, iden, s.db, s.log, OffsetEnd, s.db[Render(iden, OffsetEnd)], None);
  }

  // ---------------------------------------------------------------- crash safety of the index

  /** Key and tag entries of record `j` are stored with its true offset, time and byte position. */
  ghost predicate InIndexes(c: Codec, iden: Iden, s: Seg, j: nat)
    requires j < |s.log|
  {
    var entry := Index(IndexData(j, s.log[j].createTime, Pos(c, s.log, j)));
    && (s.log[j].key != "" ==> Holds(s.db, Render(iden, Key(s.log[j].key, j)), entry))
    && (forall t :: t in s.log[j].tags ==> Holds(s.db, Render(iden, Tag(t, j)), entry))
  }

  /** Stop everything in any state of any run: every record that a builder started from the stored
      state would pass over is already in the key and tag indexes. */
  lemma NoRecordSkipped(c: Codec, iden: Iden, run: seq<Seg>, es: seq<Event>, i: nat, j: nat)
    requires Reachable(c, iden, run, es, i, None) && j < |run[i].log|
    requires run[i].log[j].offset < LastBuilt(iden, run[i].db) || Pos(c, run[i].log, j) < ResumePosition(iden, run[i].db)
    ensures run[i].log[j].offset == j && InIndexes(c, iden, run[i], j)
  {
    hide Render, IsRun, DbInv, LastBuilt, ResumePosition, Pos;
    RunsKeepInv(c, iden, run, es, i, None);
    StartIsSafe(c, iden, run[i].db, run[i].log, None);
    assert Indexed(c, iden, run[i].db, run[i].log, j, None);
  }

  /** A position entry for offset `o` is true, and means that all records below `o` are indexed. */
  lemma SparseEntryMeansIndexedBelow(c: Codec, iden: Iden, run: seq<Seg>, es: seq<Event>, i: nat, o: nat, j: nat)
    requires Reachable(c, iden, run, es, i, None) && Render(iden, Position(o)) in run[i].db && j < o
    ensures o < |run[i].log| && run[i].db[Render(iden, Position(o))] == Index(DataOf(c, run[i].log, o))
    ensures InIndexes(c, iden, run[i], j)
  {
    hide Render, IsRun, Pos;
    RunsKeepInv(c, iden, run, es, i, None);
    var s := run[i];
    assert Truthful(c, iden, s.db, s.log, Position(o), s.db[Render(iden, Position(o))], None);
    assert Indexed(c, iden, s.db, s.log, j, None);
  }

  /** The saved last built offset is a frontier: every record up to it is indexed. */
  lemma FrontierIndexed(c: Codec, iden: Iden, run: seq<Seg>, es: seq<Event>, i: nat, j: nat)
    requires Reachable(c, iden, run, es, i, None)
    requires Render(iden, LastOffset) in run[i].db && j <= LastBuilt(iden, run[i].db)
    ensures LastBuilt(iden, run[i].db) < |run[i].log| && InIndexes(c, iden, run[i], j)
    ensures Render(iden, OffsetStart) in run[i].db
  {
    hide Render, IsRun, Pos;
    RunsKeepInv(c, iden, run, es, i, None);
    var s := run[i];
    assert Truthful(c, iden, s.db, s.log, LastOffset, s.db[Render(iden, LastOffset)], None);
    assert Indexed(c, iden, s.db, s.log, j, None) && Indexed(c, iden, s.db, s.log, 0, None);
  }

  /** When the frontier is the last record, the index covers the file. */
  lemma FrontierCovers(c: Codec, iden: Iden, run: seq<Seg>, es: seq<Event>, i: nat)
    requires Reachable(c, iden, run, es, i, None)
    requires Render(iden, LastOffset) in run[i].db && LastBuilt(iden, run[i].db) == |run[i].log| - 1
    ensures Inv(c, iden, run[i], None) && IndexedBelow(c, iden, run[i].db, run[i].log, |run[i].log|, None)
  {
    hide Render, IsRun, Pos, Indexed;
    RunsKeepInv(c, iden, run, es, i, None);
    var s := run[i];
    assert Truthful(c, iden, s.db, s.log, LastOffset, s.db[Render(iden, LastOffset)], None);
  }

  // ---------------------------------------------------------------- what the sparse index holds

  /** When every builder of the run uses one base, the processed records with a position entry are
      exactly those whose offset is congruent to the base modulo 10000, and the entry is true. */
  lemma SparseContents(c: Codec, iden: Iden, run: seq<Seg>, es: seq<Event>, i: nat, base: int, j: nat)
    requires Reachable(c, iden, run, es, i, Some(base))
    requires Render(iden, LastOffset) in run[i].db && j <= LastBuilt(iden, run[i].db)
    ensures j < |run[i].log|
    ensures Render(iden, Position(j)) in run[i].db <==> (j - base) % 10000 == 0
    ensures Render(iden, Position(j)) in run[i].db ==> run[i].db[Render(iden, Position(j))] == Index(DataOf(c, run[i].log, j))
    ensures Render(iden, Position(j)) in run[i].db ==> Render(iden, Time(run[i].log[j].createTime)) in run[i].db
  {
    hide Render, IsRun, Pos;
    RunsKeepInv(c, iden, run, es, i, Some(base));
    var s := run[i];
    assert Truthful(c, iden, s.db, s.log, LastOffset, s.db[Render(iden, LastOffset)], Some(base));
    assert Indexed(c, iden, s.db, s.log, j, Some(base));
    assert Render(iden, Position(j)) in s.db ==> Truthful(c, iden, s.db, s.log, Position(j), s.db[Render(iden, Position(j))], Some(base));
  }

  lemma {:induction false} StartUnknownBeforeRestart(c: Codec, iden: Iden, run: seq<Seg>, es: seq<Event>, i: nat)
    requires IsRun(c, iden, run, es) && i < |run| && forall k :: 0 <= k < |es| ==> !es[k].Restarts()
    ensures run[i].memStart == -1
  {
    if i > 0 {
      StartUnknownBeforeRestart(c, iden, run, es, i - 1);
      hide Enabled, Render, NextRead, RecordWrites;
      assert run[i] == Step(c, iden, run[i - 1], es[i - 1]);
    }
  }

  /** Until the process restarts the base is -1, so the sparse entries stand at 9999, 19999 and so on;
      a restart after the first record has been indexed moves the base to 0. */
  lemma SparseEntriesOfFirstLife(c: Codec, iden: Iden, run: seq<Seg>, es: seq<Event>, i: nat, j: nat)
    requires IsRun(c, iden, run, es) && i < |run| && forall k :: 0 <= k < |es| ==> !es[k].Restarts()
    requires Render(iden, LastOffset) in run[i].db && j <= LastBuilt(iden, run[i].db)
    ensures Render(iden, Position(j)) in run[i].db <==> j % 10000 == 9999
    ensures forall loaded :: Enabled(c, iden, run[i], Restart(loaded)) && Step(c, iden, run[i], Restart(loaded)).memStart == 0
  {
    hide Render, LastBuilt, Inv, Step, Enabled, Init;
    forall k | 0 <= k < |es| ensures BaseFixed(run[k], es[k], Some(-1)) {
      StartUnknownBeforeRestart(c, iden, run, es, k);
    }
    SparseContents(c, iden, run, es, i, -1, j);
    FrontierIndexed(c, iden, run, es, i, 0);
    RunsKeepInv(c, iden, run, es, i, None);
    forall loaded ensures Enabled(c, iden, run[i], Restart(loaded)) && Step(c, iden, run[i], Restart(loaded)).memStart == 0 {
      RestartStep(c, iden, run[i], loaded, None);
    }
  }

  /** The timestamp entry of record `j` names another record of the same second. */
  ghost predicate TimeTaken(c: Codec, iden: Iden, s: Seg, j: nat)
    requires j < |s.log|
  {
    exists o: nat :: o < |s.log| && o != j && s.log[o].createTime == s.log[j].createTime
      && Holds(s.db, Render(iden, Time(s.log[j].createTime)), Index(DataOf(c, s.log, o)))
  }

  /** Making a write for a record again, as every batch does with the last record of the one before, and as
      a builder with another base does, changes nothing, unless it is a timestamp entry that names another
      record of that second. */
  lemma ReindexingChangesNothing(c: Codec, iden: Iden, run: seq<Seg>, es: seq<Event>, i: nat, base: int, j: nat, m: nat)
    requires Reachable(c, iden, run, es, i, None) && j < |run[i].log|
    requires run[i].log[j].offset >= 0 && m < |RecordWrites(ReadData(Pos(c, run[i].log, j), run[i].log[j]), base)|
    ensures
      var (n, v) := RecordWrites(ReadData(Pos(c, run[i].log, j), run[i].log[j]), base)[m];
      Render(iden, n) in run[i].db ==> run[i].db[Render(iden, n) := v] == run[i].db || (n.Time? && TimeTaken(c, iden, run[i], j))
  {
    hide Render, IsRun, Pos, RecordWrites, SparseAt, Indexed;
    RunsKeepInv(c, iden, run, es, i, None);
    var s := run[i];
    var rd := ReadData(Pos(c, s.log, j), s.log[j]);
    WriteShape(rd, base, m);
    assert EntryFor(rd) == DataOf(c, s.log, j);
    var (n, v) := RecordWrites(rd, base)[m];
    if n.OffsetStart? {
      PosZero(c, s.log);
      PosInjective(c, s.log, j, 0);
    }
    if Render(iden, n) in s.db {
      assert Truthful(c, iden, s.db, s.log, n, s.db[Render(iden, n)], None);
    }
  }

  // ---------------------------------------------------------------- where the builder's loop falls short

  /** A builder of a segment that holds a record never reads nothing, so it can mark the index as
      finished exactly when it is about to read a sealed segment that is empty. */
  lemma FinishedOnlyWhenEmpty(c: Codec, iden: Iden, run: seq<Seg>, es: seq<Event>, i: nat, now: nat)
    requires Reachable(c, iden, run, es, i, None)
    ensures Enabled(c, iden, run[i], MarkFinished(now)) <==>
      run[i].log == [] && run[i].status == Some(SealUp) && run[i].builder.Some? && run[i].builder.value.phase.Reading?
  {
    hide IsRun, DbInv, NextRead, PhaseInv, ResumeInv;
    RunsKeepInv(c, iden, run, es, i, None);
    if run[i].builder.Some? && run[i].builder.value.phase.Reading? {
      ReachesRecord(c, iden, run[i], None);
      ReadStep(c, iden, run[i], None);
    }
  }

  /** A round begins with the later of the last built record and the one it starts to read at, and ends
      past the last built record exactly when it begins past it, or there is a later record and the
      first one read is not larger than 10 MiB. */
  lemma RoundMovesFrontier(c: Codec, iden: Iden, run: seq<Seg>, es: seq<Event>, i: nat)
    requires Reachable(c, iden, run, es, i, None) && ReadReady(c, run[i]) && run[i].log != []
    ensures RoundEnds(c, run[i])
  {
    hide IsRun, Inv, ReadReady, RoundEnds;
    RunsKeepInv(c, iden, run, es, i, None);
    ReadEnds(c, iden, run[i]);
  }

  ghost predicate RoundEnds(c: Codec, s: Seg)
    requires ReadReady(c, s)
  {
    var bd := s.builder.value;
    var data, lo := NextRead(c, s.log, bd), Max(FrameIndex(c, s.log, bd.startPosition), bd.last);
    && data != [] && lo < |s.log| && data[0].record == s.log[lo] && lo <= data[|data| - 1].record.offset < |s.log|
    && (data[|data| - 1].record.offset > bd.last <==> lo > bd.last || (lo + 1 < |s.log| && c.Size(s.log[lo]) <= BATCH_BYTES))
  }

  lemma ReadEnds(c: Codec, iden: Iden, s: Seg)
    requires Inv(c, iden, s, None) && ReadReady(c, s) && s.log != []
    ensures RoundEnds(c, s)
  {
    hide DbInv, Indexed, Pos;
    var bd := s.builder.value;
    ReachesRecord(c, iden, s, None);
    var at := FrameIndex(c, s.log, bd.startPosition);
    var lo := Max(at, bd.last);
    ReadIsSlice(c, s.log, at, bd.last, BATCH_BYTES, BATCH_RECORDS, 0);
    var data := NextRead(c, s.log, bd);
    assert data[0] == ReadData(Pos(c, s.log, lo), s.log[lo]);
    var k := |data| - 1;
    assert data[k] == ReadData(Pos(c, s.log, lo + k), s.log[lo + k]);
  }

  // ---------------------------------------------------------------- sealing

  /** No offset in the file ever exceeds a positive installed end offset. */
  lemma NeverPastTheEnd(c: Codec, iden: Iden, run: seq<Seg>, es: seq<Event>, i: nat, k: nat)
    requires Reachable(c, iden, run, es, i, None) && k < |run[i].log|
    requires run[i].metaEnd.Some? && run[i].metaEnd.value > 0
    ensures run[i].log[k].offset <= run[i].metaEnd.value
  {
    hide IsRun, DbInv;
    RunsKeepInv(c, iden, run, es, i, None);
  }

  /** A batch that would pass the installed end seals the segment and writes nothing; one that would
      not is appended whole to a segment that is known and not sealed, and refused by any other. */
  lemma BatchAtTheEnd(c: Codec, iden: Iden, run: seq<Seg>, es: seq<Event>, i: nat, data: seq<Record>)
    requires Reachable(c, iden, run, es, i, None) && Batchable(c, run[i], data)
    ensures
      var s, s' := run[i], AfterBatch(c, iden, run[i], data, NoFault);
      if s.status.None? || s.status == Some(SealUp) || s.metaEnd.None? then s' == s
      else if s.metaEnd.value > 0 && |s.log| - 1 + |data| > s.metaEnd.value then s' == s.(status := Some(SealUp))
      else s'.status == s.status && |s'.log| == |s.log| + |data| && s.log <= s'.log
  {
    hide IsRun, DbInv, Render;
    RunsKeepInv(c, iden, run, es, i, None);
    if run[i].metaEnd.Some? { EndOffsetMeaning(run[i].metaEnd.value, run[i].writer.value, |data|); }
  }

  /** What the steps that neither write nor read do to a segment. */
  lemma StatusSteps(c: Codec, iden: Iden, s: Seg, st: Status, n: int)
    requires IsI64(n) && (n <= 0 || s.memEnd <= n)
    ensures Step(c, iden, s, SetSegment(st)) == s.(status := Some(st)) && Step(c, iden, s, DeleteSegment) == s.(status := None, metaEnd := None)
    ensures Step(c, iden, s, InstallEnd(n)) == s.(metaEnd := Some(n)) && Step(c, iden, s, BuilderStop) == s.(builder := None)
    ensures Step(c, iden, s, ToPreWrite).status == if s.status == Some(Idle) then Some(PreWrite) else s.status
    ensures Step(c, iden, s, Promote).status == if s.status == None then None else Some(Write)
    ensures Step(c, iden, s, ToPreSealUp).status == if s.status == Some(Write) then Some(PreSealUp) else s.status
    ensures Step(c, iden, s, ToSealUp).status == if s.status == Some(PreSealUp) then Some(SealUp) else s.status
  {
    hide Render;
  }

  /** The mark is stored with its time, and keeps builders from starting. */
  lemma MarkStops(c: Codec, iden: Iden, s: Seg, now: nat)
    requires Enabled(c, iden, s, MarkFinished(now))
    ensures
      var t := Step(c, iden, s, MarkFinished(now));
      && Holds(t.db, Render(iden, Finish), Num(now)) && t.log == s.log
      && !Enabled(c, iden, Step(c, iden, t, BuilderStop), BuilderStart)
  {
    hide Render, NextRead;
  }

  /** A sealed segment, or one the cache has forgotten. */
  predicate Closed(s: Seg) { s.status.None? || s.status == Some(SealUp) }

  /** Promotion hits only segments not past Write, and a status that comes from the placement center or
      with a restart does not reopen a segment. */
  ghost predicate Guarded(s: Seg, e: Event)
  {
    && (e.Promote? && s.status.Some? ==> s.status.value.Rank() <= Write.Rank())
    && (e.SetSegment? ==> e.known == SealUp) && (e.Restarts() ==> e.loaded.None? || e.loaded == Some(SealUp))
  }

  /** After it the cache does not know the segment. */
  predicate Forgets(e: Event) { e.DeleteSegment? || (e.Restarts() && e.loaded.None?) }

  /** Once sealed, a segment stays closed and its file does not change, over any run whose later steps
      are guarded; unless the cache forgets it, it stays sealed. */
  lemma {:induction false} SealedStaysFrozen(c: Codec, iden: Iden, run: seq<Seg>, es: seq<Event>, i: nat, j: nat)
    requires IsRun(c, iden, run, es) && i <= j < |run| && Closed(run[i])
    requires forall k :: i <= k < j ==> Guarded(run[k], es[k])
    ensures Closed(run[j]) && run[j].log == run[i].log
    ensures
      run[i].status == Some(SealUp) && (forall k :: i <= k < j ==> !Forgets(es[k])) ==>
      run[j].status == Some(SealUp)
  {
    hide Init, Enabled, Step, Guarded;
    if i < j {
      SealedStaysFrozen(c, iden, run, es, i, j - 1);
      ClosedStep(c, iden, run[j - 1], es[j - 1]);
    }
  }

  lemma ClosedStep(c: Codec, iden: Iden, s: Seg, e: Event)
    requires Enabled(c, iden, s, e) && Closed(s) && Guarded(s, e)
    ensures Closed(Step(c, iden, s, e)) && Step(c, iden, s, e).log == s.log
    ensures s.status == Some(SealUp) && !Forgets(e) ==> Step(c, iden, s, e).status == Some(SealUp)
  {
    hide Render, NextRead, RecordWrites, ResumePosition, LastBuilt, LoadI64;
  }
}
