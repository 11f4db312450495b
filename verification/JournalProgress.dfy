/** What the steps of a builder can come to: the rounds that are possible from a state, and from which
    states the whole file can still be indexed. */
module JournalProgress {
  import opened Options
  import opened Bytes
  import opened SegmentLog
  import opened Segments
  import opened Keys
  import opened JournalSystem
  import opened JournalInvariant
  import opened JournalRuns
  import opened JournalTheorems
  import opened JournalBounds
  import opened JournalBases
  import opened SegmentNodes
  import opened IndexBuilders

  predicate IsBuilders(e: Event)
  {
    || e.BuilderStart? || e.BuilderRead? || e.BuilderSave? || e.BuilderSaveFails? || e.BuilderAdvance? || e.BuilderDone?
    || e.BuilderCommit? || e.BuilderCommitFails?
  }

  /** The builder alone leads from `s` to `t`. */
  ghost predicate Builds(c: Codec, iden: Iden, s: Seg, es: seq<Event>, t: Seg)
  {
    Leads(c, iden, s, es, t) && t.log == s.log && forall k :: 0 <= k < |es| ==> IsBuilders(es[k])
  }

  lemma BuildsNowhere(c: Codec, iden: Iden, s: Seg)
    ensures Builds(c, iden, s, [], s)
  {}

  lemma BuildsOne(c: Codec, iden: Iden, s: Seg, e: Event)
    requires Enabled(c, iden, s, e) && IsBuilders(e)
    ensures Builds(c, iden, s, [e], Step(c, iden, s, e))
  {
    hide Leads, Enabled, Render, NextRead, RecordWrites, ResumePosition, LastBuilt;
    LeadsOne(c, iden, s, e);
  }

  lemma BuildsTrans(c: Codec, iden: Iden, s: Seg, es: seq<Event>, m: Seg, es': seq<Event>, t: Seg)
    requires Builds(c, iden, s, es, m) && Builds(c, iden, m, es', t)
    ensures Builds(c, iden, s, es + es', t)
  {
    hide Leads;
    LeadsTrans(c, iden, s, es, m, es', t);
  }

  /** One more step, and what it does to the saved frontier. */
  lemma BuildsStep(c: Codec, iden: Iden, s: Seg, es: seq<Event>, t: Seg, e: Event) returns (es': seq<Event>)
    requires (e.BuilderCommit? ==> t.builder.Some?) && Enabled(c, iden, t, e)
    requires Builds(c, iden, s, es, t) && IsBuilders(e) && Inv(c, iden, t, None)
    ensures Builds(c, iden, s, es', Step(c, iden, t, e)) && Inv(c, iden, Step(c, iden, t, e), None)
    ensures LastBuilt(iden, Step(c, iden, t, e).db) == if e.BuilderCommit? then t.builder.value.last else LastBuilt(iden, t.db)
  {
    hide Builds, Enabled, Step, Inv, LastBuilt;
    BuildsOne(c, iden, t, e);
    BuildsTrans(c, iden, s, es, t, [e], Step(c, iden, t, e));
    es' := es + [e];
    StepKeepsInv(c, iden, t, e, None);
    FrontierMoves(c, iden, t, e);
  }

  // ---------------------------------------------------------------- one round

  /** The builder stands in the middle of what it has read. */
  ghost predicate SavingIn(s: Seg) { InSaving(s) && s.builder.value.phase.d < |s.builder.value.phase.data| }

  lemma NextSave(c: Codec, iden: Iden, s: Seg)
    requires Inv(c, iden, s, None) && SavingIn(s)
    ensures
      var p := s.builder.value.phase;
      && p.data[p.d].record.offset >= 0 && p.w <= |RecordWrites(p.data[p.d], s.builder.value.base)|
      && (if p.w < |RecordWrites(p.data[p.d], s.builder.value.base)| then Enabled(c, iden, s, BuilderSave) else Enabled(c, iden, s, BuilderAdvance))
  {
    hide WriterInv, DbInv, ResumeInv, RecordWrites, Render, IsSlice, IndexedBelow;
  }

  ghost function WritesLeft(s: Seg): nat
    requires InSaving(s)
  {
    var p := s.builder.value.phase;
    if p.d < |p.data| && p.data[p.d].record.offset >= 0 then
      var n := |RecordWrites(p.data[p.d], s.builder.value.base)|;
      if p.w <= n then n - p.w else 0
    else 0
  }

  /** All that was read can be indexed. */
  lemma {:induction false} CanSave(c: Codec, iden: Iden, s: Seg) returns (es: seq<Event>, t: Seg)
    requires Inv(c, iden, s, None) && InSaving(s) && s.builder.value.phase.d <= |s.builder.value.phase.data|
    ensures Builds(c, iden, s, es, t) && Inv(c, iden, t, None) && LastBuilt(iden, t.db) == LastBuilt(iden, s.db)
    ensures InSaving(t) && t.builder.value.phase.data == s.builder.value.phase.data && t.builder.value.phase.d == |t.builder.value.phase.data|
    ensures t.builder.value.(phase := Reading) == s.builder.value.(phase := Reading)
    decreases |s.builder.value.phase.data| - s.builder.value.phase.d, WritesLeft(s)
  {
    hide Inv, Builds, LastBuilt, RecordWrites, Render;
    BuildsNowhere(c, iden, s);
    if !SavingIn(s) {
      return [], s;
    }
    NextSave(c, iden, s);
    var p := s.builder.value.phase;
    var e := if p.w < |RecordWrites(p.data[p.d], s.builder.value.base)| then BuilderSave else BuilderAdvance;
    var first := BuildsStep(c, iden, s, [], s, e);
    var rest;
    rest, t := CanSave(c, iden, Step(c, iden, s, e));
    es := first + rest;
    BuildsTrans(c, iden, s, first, Step(c, iden, s, e), rest, t);
  }

  /** A builder about to read. */
  ghost predicate Reads(s: Seg) { s.builder.Some? && s.builder.value.phase.Reading? }

  /** A round from `s` to `t`: the builder keeps the offset of the last record read, and saves it if `commits`. */
  ghost predicate Round(c: Codec, iden: Iden, s: Seg, t: Seg, commits: bool)
  {
    && Reads(s) && Reads(t) && ReadReady(c, s)
    && var data := NextRead(c, s.log, s.builder.value);
       && data != [] && data[|data| - 1].record.offset >= 0
       && t.builder.value == s.builder.value.(last := data[|data| - 1].record.offset)
       && LastBuilt(iden, t.db) == (if commits then t.builder.value.last else LastBuilt(iden, s.db))
       && (commits ==> Render(iden, LastOffset) in t.db)
  }

  /** A round is possible, with its last save or with a failure of it. */
  lemma CanRound(c: Codec, iden: Iden, s: Seg, commits: bool) returns (es: seq<Event>, t: Seg)
    requires Inv(c, iden, s, None) && Reads(s) && s.log != []
    ensures Builds(c, iden, s, es, t) && Inv(c, iden, t, None) && Round(c, iden, s, t, commits)
  {
    hide Inv, Builds, LastBuilt, Render, NextRead, AllStorable, Aligned;
    ReadReadyHere(c, iden, s);
    ReadEnds(c, iden, s);
    BuildsNowhere(c, iden, s);
    var e1 := BuildsStep(c, iden, s, [], s, BuilderRead);
    var s1 := Step(c, iden, s, BuilderRead);
    var e2, s2 := CanSave(c, iden, s1);
    BuildsTrans(c, iden, s, e1, s1, e2, s2);
    var e3 := BuildsStep(c, iden, s, e1 + e2, s2, BuilderDone);
    var s3 := Step(c, iden, s2, BuilderDone);
    var e := if commits then BuilderCommit else BuilderCommitFails;
    es := BuildsStep(c, iden, s, e3, s3, e);
    t := Step(c, iden, s3, e);
  }

  lemma {:induction false} ReadAtMost(c: Codec, log: seq<Record>, i: nat, start: nat, maxSize: nat, room: nat, already: nat)
    requires AllStorable(c, log) && i <= |log| && room >= 1
    ensures |ReadFrom(c, log, i, start, maxSize, room, already)| <= room
    decreases |log| - i
  {
    hide Pos;
    if i < |log| && already <= maxSize {
      if AsU64(log[i].offset) < start {
        ReadAtMost(c, log, i + 1, start, maxSize, room, already);
      } else if room > 1 {
        ReadAtMost(c, log, i + 1, start, maxSize, room - 1, already + c.Size(log[i]));
      }
    }
  }

  /** When the records are small, a read takes as many as it may. */
  lemma {:induction false} ReadFull(c: Codec, log: seq<Record>, i: nat, start: nat, maxSize: nat, room: nat, already: nat, size: nat)
    requires Contiguous(log) && AllStorable(c, log) && i <= |log| && room >= 1 && Max(i, start) <= |log|
    requires (forall k :: 0 <= k < |log| ==> c.Size(log[k]) <= size) && already + size * (room - 1) <= maxSize
    ensures
      var left := |log| - Max(i, start);
      |ReadFrom(c, log, i, start, maxSize, room, already)| == if left < room then left else room
    decreases |log| - i
  {
    hide Pos;
    if i < |log| {
      if i < start {
        ReadFull(c, log, i + 1, start, maxSize, room, already, size);
      } else if room > 1 {
        assert already + c.Size(log[i]) + size * (room - 2) <= maxSize;
        ReadFull(c, log, i + 1, start, maxSize, room - 1, already + c.Size(log[i]), size);
      }
    }
  }

  /** A round over records of at most 100 KiB reads a hundred of them, or all that are left. */
  lemma FullRound(c: Codec, iden: Iden, s: Seg)
    requires Inv(c, iden, s, None) && ReadReady(c, s) && s.log != [] && forall k :: 0 <= k < |s.log| ==> c.Size(s.log[k]) <= 102400
    ensures
      var left := |s.log| - BeginOf(c, s.log, s.builder.value);
      |NextRead(c, s.log, s.builder.value)| == if left < 100 then left else 100
  {
    hide DbInv, Pos, PhaseInv, ReadFrom, Indexed;
    var bd := s.builder.value;
    ReachesRecord(c, iden, s, None);
    ReadFull(c, s.log, FrameIndex(c, s.log, bd.startPosition), bd.last, BATCH_BYTES, BATCH_RECORDS, 0, 102400);
  }

  /** How far a round goes. */
  lemma RoundGoes(c: Codec, iden: Iden, s: Seg, t: Seg, commits: bool)
    requires Inv(c, iden, s, None) && s.log != [] && Round(c, iden, s, t, commits)
    ensures t.builder.value.last <= BeginOf(c, s.log, s.builder.value) + 99 && t.builder.value.last < |s.log|
    ensures NoneTooLarge(c, s.log) ==> t.builder.value.last > s.builder.value.last || t.builder.value.last == |s.log| - 1
  {
    hide DbInv, Pos, PhaseInv, Render, LastBuilt, ReadFrom, Indexed;
    var bd := s.builder.value;
    ReadEnds(c, iden, s);
    var at := FrameIndex(c, s.log, bd.startPosition);
    ReadIsSlice(c, s.log, at, bd.last, BATCH_BYTES, BATCH_RECORDS, 0);
    ReadAtMost(c, s.log, at, bd.last, BATCH_BYTES, BATCH_RECORDS, 0);
    var data, lo := NextRead(c, s.log, bd), Max(at, bd.last);
    assert data[|data| - 1] == ReadData(Pos(c, s.log, lo + (|data| - 1)), s.log[lo + (|data| - 1)]);
  }

  // ---------------------------------------------------------------- many rounds

  /** If no record is in the way, a builder can get to any record, saving its frontier or not. */
  lemma {:induction false} CanReach(c: Codec, iden: Iden, s: Seg, goal: nat, commits: bool) returns (es: seq<Event>, t: Seg)
    requires Inv(c, iden, s, None) && Reads(s) && goal < |s.log| && NoneTooLarge(c, s.log) && Aligned(c, s.log, s.builder.value.startPosition)
    requires s.builder.value.last < goal
    ensures Builds(c, iden, s, es, t) && Inv(c, iden, t, None) && Reads(t)
    ensures t.builder.value.startPosition == s.builder.value.startPosition
    ensures goal <= t.builder.value.last <= Max(BeginOf(c, s.log, s.builder.value), goal) + 99
    ensures LastBuilt(iden, t.db) == if commits then t.builder.value.last else LastBuilt(iden, s.db)
    ensures commits ==> Render(iden, LastOffset) in t.db
    decreases goal - s.builder.value.last
  {
    hide Inv, Builds, LastBuilt, Render, NextRead, AllStorable, Aligned, NoneTooLarge;
    es, t := CanRound(c, iden, s, commits);
    RoundGoes(c, iden, s, t, commits);
    assert t.log == s.log by { SameLog(c, iden, s, es, t); }
    if t.builder.value.last < goal {
      var m, rest := t, [];
      rest, t := CanReach(c, iden, m, goal, commits);
      BuildsTrans(c, iden, s, es, m, rest, t);
      es := es + rest;
    }
  }

  lemma SameLog(c: Codec, iden: Iden, s: Seg, es: seq<Event>, t: Seg)
    requires Builds(c, iden, s, es, t)
    ensures t.log == s.log && Leads(c, iden, s, es, t)
  {}

  // ---------------------------------------------------------------- when the file can be covered

  /** A builder runs, or one may start. */
  predicate MayBuild(iden: Iden, s: Seg) { s.builder.Some? || Render(iden, Finish) !in s.db }

  /** Some steps that append nothing bring the saved frontier to the last record. */
  ghost predicate Coverable(c: Codec, iden: Iden, s: Seg)
  {
    exists es, t :: Leads(c, iden, s, es, t) && t.log == s.log && Covered(iden, t)
  }

  lemma CanRead(c: Codec, iden: Iden, s: Seg) returns (es: seq<Event>, t: Seg)
    requires Inv(c, iden, s, None) && MayBuild(iden, s)
    ensures Builds(c, iden, s, es, t) && Inv(c, iden, t, None) && Reads(t)
  {
    hide Inv, Builds, LastBuilt, Render, ResumePosition;
    BuildsNowhere(c, iden, s);
    if Reads(s) {
      return [], s;
    }
    var e := if s.builder.None? then BuilderStart else if s.builder.value.phase.Saving? then BuilderSaveFails else BuilderCommitFails;
    es := BuildsStep(c, iden, s, [], s, e);
    t := Step(c, iden, s, e);
  }

  lemma CanCover(c: Codec, iden: Iden, s: Seg)
    requires Inv(c, iden, s, None) && s.log != [] && MayBuild(iden, s) && NoneTooLarge(c, s.log)
    ensures Coverable(c, iden, s)
  {
    hide Inv, Builds, LastBuilt, Render, MayBuild, NoneTooLarge, Aligned, Covered, ReadReady;
    var es, m := CanRead(c, iden, s);
    assert m.log == s.log by { SameLog(c, iden, s, es, m); }
    ReadReadyHere(c, iden, m);
    assert m.builder.value.last < |s.log| && Aligned(c, s.log, m.builder.value.startPosition) by { LastInFile(c, iden, m); }
    var rest, t;
    if m.builder.value.last < |s.log| - 1 {
      rest, t := CanReach(c, iden, m, |s.log| - 1, true);
    } else {
      rest, t := CanRound(c, iden, m, true);
      RoundGoes(c, iden, m, t, true);
    }
    BuildsTrans(c, iden, s, es, m, rest, t);
    assert t.log == s.log && Leads(c, iden, s, es + rest, t) by { SameLog(c, iden, s, es + rest, t); }
    assert Covered(iden, t) by { AtTheEnd(c, iden, t); }
  }

  lemma LastInFile(c: Codec, iden: Iden, s: Seg)
    requires Inv(c, iden, s, None) && s.log != [] && s.builder.Some?
    ensures s.builder.value.last < |s.log| && Aligned(c, s.log, s.builder.value.startPosition)
  {
    hide DbInv, PhaseInv, Pos, Indexed;
    ReachesRecord(c, iden, s, None);
  }

  lemma AtTheEnd(c: Codec, iden: Iden, s: Seg)
    requires Inv(c, iden, s, None) && Render(iden, LastOffset) in s.db && LastBuilt(iden, s.db) >= |s.log| - 1
    ensures Covered(iden, s)
  {
    hide WriterInv, BuilderInv, Render, IndexedBelow;
    assert Truthful(c, iden, s.db, s.log, LastOffset, s.db[Render(iden, LastOffset)], None);
  }

  /** Without a builder, and with the mark that keeps one from starting, the frontier stays. */
  lemma {:induction false} FinishedStays(c: Codec, iden: Iden, s: Seg, es: seq<Event>, t: Seg)
    requires Leads(c, iden, s, es, t) && !MayBuild(iden, s)
    ensures !MayBuild(iden, t) && LastBuilt(iden, t.db) == LastBuilt(iden, s.db)
    ensures Render(iden, LastOffset) in t.db ==> Render(iden, LastOffset) in s.db
    decreases |es|
  {
    hide Step, Enabled, MayBuild, Render, LastBuilt;
    if es != [] {
      var e, before := es[|es| - 1], es[..|es| - 1];
      var m :| Leads(c, iden, s, before, m) && Enabled(c, iden, m, e) && t == Step(c, iden, m, e);
      FinishedStays(c, iden, s, before, m);
      FinishedStep(c, iden, m, e);
    }
  }

  lemma FinishedStep(c: Codec, iden: Iden, s: Seg, e: Event)
    requires Enabled(c, iden, s, e) && !MayBuild(iden, s)
    ensures !MayBuild(iden, Step(c, iden, s, e)) && LastBuilt(iden, Step(c, iden, s, e).db) == LastBuilt(iden, s.db)
    ensures Render(iden, LastOffset) in Step(c, iden, s, e).db ==> Render(iden, LastOffset) in s.db
  {
    hide Render, RecordWrites, NextRead, AfterBatch, Batchable, LastBuilt, ResumePosition;
    NamesStay(c, iden, s, e, Finish);
    FrontierMoves(c, iden, s, e);
    if Render(iden, LastOffset) in Step(c, iden, s, e).db { StoredBefore(c, iden, s, e, LastOffset); }
    if e.Batch? { BatchKeepsBuilder(c, iden, s, e.data); }
  }

  lemma BatchKeepsBuilder(c: Codec, iden: Iden, s: Seg, data: seq<Record>)
    requires Batchable(c, s, data)
    ensures AfterBatch(c, iden, s, data, NoFault).builder == s.builder
  {
    hide Render, AllStorable;
  }

  /** From any state of any run the index can come to cover the file, with nothing appended meanwhile, exactly
      when it does already, or a builder runs or may start and no record before the last is above 10 MiB. */
  lemma CoverableIff(c: Codec, iden: Iden, run: seq<Seg>, es: seq<Event>)
    requires IsRun(c, iden, run, es) && run[|es|].log != []
    ensures
      var s := run[|es|];
      Coverable(c, iden, s) <==> Covered(iden, s) || (MayBuild(iden, s) && NoneTooLarge(c, s.log))
  {
    hide IsRun, Leads, Inv, Covered, MayBuild, NoneTooLarge;
    assert |run| == |es| + 1 by { Length(c, iden, run, es); }
    var s := run[|es|];
    RunsKeepNone(c, iden, run, es, |es|);
    if Covered(iden, s) {
      LeadsNowhere(c, iden, s);
      assert Leads(c, iden, s, [], s) && s.log == s.log && Covered(iden, s);
    } else if MayBuild(iden, s) && NoneTooLarge(c, s.log) {
      CanCover(c, iden, s);
    } else if Coverable(c, iden, s) {
      var more, t :| Leads(c, iden, s, more, t) && t.log == s.log && Covered(iden, t);
      var whole := LeadsExtends(c, iden, run, es, more, t);
      CoveredIsSmall(c, iden, whole, es + more);
      SameCover(c, iden, s, more, t);
    }
  }

  lemma Length(c: Codec, iden: Iden, run: seq<Seg>, es: seq<Event>)
    requires IsRun(c, iden, run, es)
    ensures |run| == |es| + 1
  {}

  lemma CoveredIsSmall(c: Codec, iden: Iden, run: seq<Seg>, es: seq<Event>)
    requires IsRun(c, iden, run, es) && |run| == |es| + 1 && Covered(iden, run[|es|])
    ensures NoneTooLarge(c, run[|es|].log)
  {
    hide IsRun, Render;
    if !NoneTooLarge(c, run[|es|].log) {
      var j :| 0 <= j < |run[|es|].log| - 1 && c.Size(run[|es|].log[j]) > BATCH_BYTES;
      HeldUpForGood(c, iden, run, es, |es|, j);
    }
  }

  lemma SameCover(c: Codec, iden: Iden, s: Seg, es: seq<Event>, t: Seg)
    requires Leads(c, iden, s, es, t) && t.log == s.log && Covered(iden, t)
    ensures MayBuild(iden, s) || Covered(iden, s)
  {
    hide Leads, Render, MayBuild, LastBuilt;
    if !MayBuild(iden, s) { FinishedStays(c, iden, s, es, t); }
  }
}
