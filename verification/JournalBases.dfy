/** What the sparse index holds when a restart changes the base from which its entries are counted. */
module JournalBases {
  import opened Options
  import opened SegmentLog
  import opened Segments
  import opened Strings
  import opened Decimal
  import opened Store
  import opened Keys
  import opened JournalSystem
  import opened JournalInvariant
  import opened JournalRuns
  import opened JournalTheorems
  import opened JournalBounds
  import opened Reads

  predicate HasEntry(iden: Iden, s: Seg, o: nat) { Render(iden, Position(o)) in s.db }

  /** The first record that a builder started in this state would read. */
  ghost function FirstRead(c: Codec, iden: Iden, s: Seg): nat
    requires Aligned(c, s.log, ResumePosition(iden, s.db))
  {
    Max(FrameIndex(c, s.log, ResumePosition(iden, s.db)), LastBuilt(iden, s.db))
  }

  /** The entries are those that base -1 puts, without a gap. */
  ghost predicate Complete(iden: Iden, s: Seg)
  {
    forall o: nat, j: nat :: HasEntry(iden, s, o) && j <= o ==> (HasEntry(iden, s, j) <==> j % 10000 == 9999)
  }

  /** Every record from `f` to below `n` that is due under base 0 has its entry. */
  ghost predicate DueBelow(iden: Iden, s: Seg, f: nat, n: nat)
  {
    forall j: nat :: f <= j < n && SparseAt(j, 0) ==> HasEntry(iden, s, j)
  }

  /** Where the next read of a builder begins. */
  ghost function BeginOf(c: Codec, log: seq<Record>, bd: Builder): nat
    requires Aligned(c, log, bd.startPosition)
  {
    Max(FrameIndex(c, log, bd.startPosition), bd.last)
  }

  ghost predicate BuilderDue(c: Codec, iden: Iden, s: Seg, f: nat, bd: Builder)
  {
    && bd.base == 0 && Aligned(c, s.log, bd.startPosition)
    && f <= BeginOf(c, s.log, bd) && DueBelow(iden, s, f, BeginOf(c, s.log, bd))
    && match bd.phase
       case Reading => true
       case Saving(data, d, w) =>
         && data != [] && d <= |data| && BeginOf(c, s.log, bd) <= data[0].record.offset
         && DueBelow(iden, s, f, data[0].record.offset + d)
       case Committing => f <= bd.last && DueBelow(iden, s, f, bd.last + 1)
  }

  /** State `s` follows `s0` with base 0 throughout. */
  ghost predicate Since(c: Codec, iden: Iden, s0: Seg, s: Seg, f: nat)
  {
    && (forall o: nat :: HasEntry(iden, s0, o) ==> HasEntry(iden, s, o))
    && (forall o: nat :: HasEntry(iden, s, o) && !HasEntry(iden, s0, o) ==> f <= o && SparseAt(o, 0) && DueBelow(iden, s, f, o))
    && (LastBuilt(iden, s.db) == LastBuilt(iden, s0.db) ||
        (f <= LastBuilt(iden, s.db) && DueBelow(iden, s, f, LastBuilt(iden, s.db) + 1)))
    && (s.builder.Some? ==> BuilderDue(c, iden, s, f, s.builder.value))
  }

  // ---------------------------------------------------------------- steps

  /** A new entry is that of the record whose index is being saved. */
  lemma NewEntry(c: Codec, iden: Iden, s: Seg, e: Event, o: nat)
    requires Enabled(c, iden, s, e) && HasEntry(iden, Step(c, iden, s, e), o) && !HasEntry(iden, s, o)
    ensures e.BuilderSave? && SaveReady(s)
    ensures var b := s.builder.value; o == b.phase.data[b.phase.d].record.offset && SparseAt(o, b.base)
  {
    hide Render, RecordWrites, SparseAt, Step, Enabled;
    StoredBefore(c, iden, s, e, Position(o));
    var b := s.builder.value;
    WriteShape(b.phase.data[b.phase.d], b.base, b.phase.w);
  }

  lemma DueStays(iden: Iden, s: Seg, t: Seg, f: nat)
    requires forall o: nat :: HasEntry(iden, s, o) ==> HasEntry(iden, t, o)
    ensures forall n: nat :: DueBelow(iden, s, f, n) ==> DueBelow(iden, t, f, n)
  {
    hide HasEntry, SparseAt;
  }

  /** Where a builder started now begins: at the entry that is first as text among those at or above the
      last built offset, or at the start of the file. */
  lemma ResumeAt(c: Codec, iden: Iden, s: Seg) returns (at: nat, hit: bool)
    requires Inv(c, iden, s, None)
    ensures Aligned(c, s.log, ResumePosition(iden, s.db)) && FrameIndex(c, s.log, ResumePosition(iden, s.db)) == at
    ensures hit ==> LastBuilt(iden, s.db) <= at && HasEntry(iden, s, at)
    ensures hit ==> forall o: nat :: HasEntry(iden, s, o) && LastBuilt(iden, s.db) <= o ==> LexLeq(Dec(at), Dec(o))
    ensures !hit ==> at == 0 && forall o: nat :: HasEntry(iden, s, o) ==> o < LastBuilt(iden, s.db)
  {
    hide WriterInv, BuilderInv, DbInv, Render, LexLess, Dec, Pos, LastBuilt, First;
    FirstPosition(c, iden, s.db, s.log, None, LastBuilt(iden, s.db));
    var found := First(s.db, PositionPrefix(iden), ByOffset, LastBuilt(iden, s.db));
    hit := found.Some?;
    at := if hit then found.value.offset else 0;
    PosZero(c, s.log);
    assert Pos(c, s.log, at) == ResumePosition(iden, s.db);
    PosInjective(c, s.log, at, FrameIndex(c, s.log, ResumePosition(iden, s.db)));
  }

  lemma SameText(a: nat, b: nat)
    requires LexLeq(Dec(a), Dec(b)) && LexLeq(Dec(b), Dec(a))
    ensures a == b
  {
    hide LexLess, Dec;
    if Dec(a) != Dec(b) { LexAsym(Dec(a), Dec(b)); }
    DecInjective(a, b);
  }

  /** A builder that starts begins at or past the first record read since the change, and everything due
      before it has its entry. */
  lemma StartDue(c: Codec, iden: Iden, s0: Seg, s: Seg, f: nat)
    requires Inv(c, iden, s0, None) && Inv(c, iden, s, None) && Since(c, iden, s0, s, f) && Complete(iden, s0)
    requires Aligned(c, s0.log, ResumePosition(iden, s0.db)) && f == FirstRead(c, iden, s0)
    ensures Aligned(c, s.log, ResumePosition(iden, s.db)) && f <= FirstRead(c, iden, s)
    ensures DueBelow(iden, s, f, FirstRead(c, iden, s))
  {
    hide Inv, HasEntry, SparseAt, LexLess, LexLeq, Dec, ResumePosition, LastBuilt, BuilderDue, DueBelow, Aligned, Complete;
    var at0, hit0 := ResumeAt(c, iden, s0);
    var at, hit := ResumeAt(c, iden, s);
    var l0, l := LastBuilt(iden, s0.db), LastBuilt(iden, s.db);
    if l == l0 {
      if hit0 {
        assert hit;
        if HasEntry(iden, s0, at) { SameText(at0, at); }
      }
      DueNothing(iden, s, f, f);
    } else {
      DueLess(iden, s, f, l, l + 1);
      if hit && HasEntry(iden, s0, at) {
        assert hit0;
        OldEntryDue(iden, s0, s, f, l, at);
      }
    }
  }

  /** A builder that resumes from an entry made before the change has at most one due record between its
      frontier and that entry, and that one has been read. */
  lemma OldEntryDue(iden: Iden, s0: Seg, s: Seg, f: nat, l: nat, at: nat)
    requires Complete(iden, s0) && HasEntry(iden, s0, f) && HasEntry(iden, s0, at) && f <= l <= at
    requires forall o: nat :: HasEntry(iden, s0, o) ==> HasEntry(iden, s, o)
    requires forall o: nat :: HasEntry(iden, s, o) && l <= o ==> LexLeq(Dec(at), Dec(o))
    requires LexLeq(Dec(f), Dec(at)) && DueBelow(iden, s, f, l + 1)
    ensures DueBelow(iden, s, f, at)
  {
    hide HasEntry, LexLess, Dec;
    if l + 10000 <= at {
      var a := at - 10000;
      assert HasEntry(iden, s0, a);
      NinesOrder(f, a);
      LexAsym(Dec(at), Dec(f));
    }
  }

  lemma DueNothing(iden: Iden, s: Seg, f: nat, n: nat)
    requires n <= f
    ensures DueBelow(iden, s, f, n)
  {}

  lemma DueLess(iden: Iden, s: Seg, f: nat, m: nat, n: nat)
    requires m <= n && DueBelow(iden, s, f, n)
    ensures DueBelow(iden, s, f, m)
  {
    hide HasEntry, SparseAt;
  }

  lemma BeginStays(c: Codec, log: seq<Record>, more: seq<Record>, bd: Builder)
    requires Aligned(c, log, bd.startPosition)
    ensures Aligned(c, log + more, bd.startPosition) && BeginOf(c, log + more, bd) == BeginOf(c, log, bd)
  {
    hide Pos;
    var at := FrameIndex(c, log, bd.startPosition);
    PosOfAppend(c, log, more, at);
    PosInjective(c, log + more, at, FrameIndex(c, log + more, bd.startPosition));
  }

  lemma ReadBegins(c: Codec, iden: Iden, s: Seg)
    requires Inv(c, iden, s, None) && ReadReady(c, s)
    ensures
      var data := NextRead(c, s.log, s.builder.value);
      data != [] ==> data[0].record.offset == BeginOf(c, s.log, s.builder.value)
  {
    hide DbInv, Indexed, Pos, ReadFrom;
    var bd := s.builder.value;
    var at := FrameIndex(c, s.log, bd.startPosition);
    ReadIsSlice(c, s.log, at, bd.last, BATCH_BYTES, BATCH_RECORDS, 0);
    var data, lo := NextRead(c, s.log, bd), Max(at, bd.last);
    if data != [] { assert data[0] == ReadData(Pos(c, s.log, lo + 0), s.log[lo + 0]); }
  }

  /** The record being indexed, once all its writes are made, has its entry if it is due. */
  lemma AdvanceDue(c: Codec, iden: Iden, s: Seg)
    requires Inv(c, iden, s, None) && Enabled(c, iden, s, BuilderAdvance)
    ensures
      var b := s.builder.value;
      var o := b.phase.data[b.phase.d].record.offset;
      && o >= 0 && o == b.phase.data[0].record.offset + b.phase.d
      && (SparseAt(o, b.base) ==> HasEntry(iden, s, o))
  {
    hide DbInv, Indexed, Pos, RecordWrites, Render, SparseAt, ResumeInv;
    var b := s.builder.value;
    var rd := b.phase.data[b.phase.d];
    var i := b.phase.data[0].record.offset + b.phase.d;
    assert rd == ReadData(Pos(c, s.log, i), s.log[i]);
    WritesCover(rd, b.base);
    var ws := RecordWrites(rd, b.base);
    assert forall x :: x in ws ==> Render(iden, x.0) in s.db;
  }

  lemma LastOfBatch(c: Codec, iden: Iden, s: Seg)
    requires Inv(c, iden, s, None) && Enabled(c, iden, s, BuilderDone)
    ensures
      var data := s.builder.value.phase.data;
      data[|data| - 1].record.offset == data[0].record.offset + |data| - 1
  {
    hide DbInv, Indexed, Pos, RecordWrites, ResumeInv, IndexedBelow;
    var data := s.builder.value.phase.data;
    var i := data[0].record.offset + (|data| - 1);
    assert data[|data| - 1] == ReadData(Pos(c, s.log, i), s.log[i]);
  }

  lemma DueNext(iden: Iden, s: Seg, f: nat, n: nat)
    requires DueBelow(iden, s, f, n) && (SparseAt(n, 0) ==> HasEntry(iden, s, n))
    ensures DueBelow(iden, s, f, n + 1)
  {
    hide HasEntry, SparseAt;
  }

  /** The builder's part of a step, seen with the entries of the state before it. */
  lemma BuilderStepDue(c: Codec, iden: Iden, s0: Seg, s: Seg, e: Event, f: nat)
    requires Inv(c, iden, s0, None) && Inv(c, iden, s, None) && Since(c, iden, s0, s, f) && Complete(iden, s0) && Enabled(c, iden, s, e)
    requires Aligned(c, s0.log, ResumePosition(iden, s0.db)) && f == FirstRead(c, iden, s0) && BaseFixed(s, e, Some(0))
    requires Step(c, iden, s, e).builder.Some?
    ensures BuilderDue(c, iden, s.(log := Step(c, iden, s, e).log), f, Step(c, iden, s, e).builder.value)
  {
    hide Inv, Render, Pos, NextRead, RecordWrites, ResumePosition, LastBuilt, AfterBatch, Batchable, AllStorable, SparseAt, DueBelow, Aligned, HasEntry, SegmentIndexPrefix, Loadable, LoadI64, Complete;
    var t := Step(c, iden, s, e);
    DueSameLog(iden, s, t.log, f);
    match e
    case Batch(data) => BatchDue(c, iden, s, data, f);
    case BuilderStart => StartDue(c, iden, s0, s, f);
    case BuilderRead => ReadDue(c, iden, s, f);
    case BuilderAdvance => NextDue(c, iden, s, f);
    case BuilderDone => DoneDue(c, iden, s, f);
    case _ =>
  }

  lemma ReadDue(c: Codec, iden: Iden, s: Seg, f: nat)
    requires Inv(c, iden, s, None) && Enabled(c, iden, s, BuilderRead) && BuilderDue(c, iden, s, f, s.builder.value)
    ensures BuilderDue(c, iden, s, f, Step(c, iden, s, BuilderRead).builder.value)
  {
    hide Inv, Pos, NextRead, SparseAt, DueBelow, Aligned, AllStorable;
    ReadBegins(c, iden, s);
  }

  lemma NextDue(c: Codec, iden: Iden, s: Seg, f: nat)
    requires Inv(c, iden, s, None) && Enabled(c, iden, s, BuilderAdvance) && BuilderDue(c, iden, s, f, s.builder.value)
    ensures BuilderDue(c, iden, s, f, Step(c, iden, s, BuilderAdvance).builder.value)
  {
    hide Inv, Pos, RecordWrites, SparseAt, DueBelow, Aligned, HasEntry;
    AdvanceDue(c, iden, s);
    var b := s.builder.value;
    DueNext(iden, s, f, b.phase.data[0].record.offset + b.phase.d);
  }

  lemma BatchDue(c: Codec, iden: Iden, s: Seg, data: seq<Record>, f: nat)
    requires Batchable(c, s, data) && (s.builder.Some? ==> BuilderDue(c, iden, s, f, s.builder.value))
    ensures
      var t := AfterBatch(c, iden, s, data, NoFault);
      t.builder == s.builder && (t.builder.Some? ==> BuilderDue(c, iden, s.(log := t.log), f, t.builder.value))
  {
    hide Render, Pos, Validate, AllStorable, Stamp, SparseAt, DueBelow, Aligned;
    DueSameLog(iden, s, AfterBatch(c, iden, s, data, NoFault).log, f);
    if s.builder.Some? { BeginStays(c, s.log, Stamp(data, s.writer.value), s.builder.value); }
  }

  lemma DoneDue(c: Codec, iden: Iden, s: Seg, f: nat)
    requires Inv(c, iden, s, None) && Enabled(c, iden, s, BuilderDone) && BuilderDue(c, iden, s, f, s.builder.value)
    ensures BuilderDue(c, iden, s, f, Step(c, iden, s, BuilderDone).builder.value)
  {
    hide Inv, Render, Pos, RecordWrites, SparseAt, DueBelow, Aligned;
    LastOfBatch(c, iden, s);
    var data := s.builder.value.phase.data;
    DueLess(iden, s, f, data[|data| - 1].record.offset, data[|data| - 1].record.offset + 1);
  }

  lemma DueSameLog(iden: Iden, s: Seg, log: seq<Record>, f: nat)
    ensures forall n: nat :: DueBelow(iden, s.(log := log), f, n) == DueBelow(iden, s, f, n)
  {
    hide SparseAt, Render;
  }

  lemma SinceStep(c: Codec, iden: Iden, s0: Seg, s: Seg, e: Event, f: nat)
    requires Inv(c, iden, s0, None) && Inv(c, iden, s, None) && Since(c, iden, s0, s, f) && Complete(iden, s0) && Enabled(c, iden, s, e)
    requires Aligned(c, s0.log, ResumePosition(iden, s0.db)) && f == FirstRead(c, iden, s0) && BaseFixed(s, e, Some(0))
    ensures Since(c, iden, s0, Step(c, iden, s, e), f)
  {
    hide Inv, Step, Enabled, Render, SparseAt, DueBelow, LastBuilt, Aligned, ResumePosition, RecordWrites;
    var t := Step(c, iden, s, e);
    forall o: nat | HasEntry(iden, s, o) ensures HasEntry(iden, t, o) { NamesStay(c, iden, s, e, Position(o)); }
    DueStays(iden, s, t, f);
    forall o: nat | HasEntry(iden, t, o) && !HasEntry(iden, s, o) ensures f <= o && SparseAt(o, 0) && DueBelow(iden, t, f, o) {
      NewEntry(c, iden, s, e, o);
      NewEntryPlace(c, iden, s);
    }
    FrontierDue(c, iden, s0, s, e, f);
    if t.builder.Some? {
      BuilderStepDue(c, iden, s0, s, e, f);
      BuilderDueStays(c, iden, s, t, f, t.builder.value);
    }
  }

  lemma NewEntryPlace(c: Codec, iden: Iden, s: Seg)
    requires Inv(c, iden, s, None) && SaveReady(s)
    ensures var p := s.builder.value.phase; p.data[p.d].record.offset == p.data[0].record.offset + p.d
  {
    hide DbInv, Indexed, Pos, RecordWrites, ResumeInv, IndexedBelow, WritesDone;
    var p := s.builder.value.phase;
    var i := p.data[0].record.offset + p.d;
    assert p.data[p.d] == ReadData(Pos(c, s.log, i), s.log[i]);
  }

  lemma FrontierDue(c: Codec, iden: Iden, s0: Seg, s: Seg, e: Event, f: nat)
    requires Since(c, iden, s0, s, f) && Enabled(c, iden, s, e)
    requires forall n: nat :: DueBelow(iden, s, f, n) ==> DueBelow(iden, Step(c, iden, s, e), f, n)
    ensures
      var l := LastBuilt(iden, Step(c, iden, s, e).db);
      l == LastBuilt(iden, s0.db) || (f <= l && DueBelow(iden, Step(c, iden, s, e), f, l + 1))
  {
    hide Render, RecordWrites, HasEntry, SparseAt, DueBelow, Aligned;
    FrontierMoves(c, iden, s, e);
  }

  /** The saved frontier changes only when a builder saves its own. */
  lemma FrontierMoves(c: Codec, iden: Iden, s: Seg, e: Event)
    requires Enabled(c, iden, s, e)
    ensures
      LastBuilt(iden, Step(c, iden, s, e).db) ==
      if e.BuilderCommit? then s.builder.value.last else LastBuilt(iden, s.db)
  {
    hide Render, RecordWrites, NextRead, SegmentIndexPrefix, Validate;
    UnderPrefix(iden, LastOffset);
    match e
    case Batch(data) => BatchPuts(c, iden, s, data, NoFault, LastOffset);
    case StopInBatch(data, fault, _) => BatchPuts(c, iden, s, data, fault, LastOffset);
    case BuilderSave =>
      var b := s.builder.value;
      WriteShape(b.phase.data[b.phase.d], b.base, b.phase.w);
      var m := RecordWrites(b.phase.data[b.phase.d], b.base)[b.phase.w].0;
      if Render(iden, LastOffset) == Render(iden, m) { RenderInjective(iden, LastOffset, m); }
    case MarkFinished(_) =>
      if Render(iden, LastOffset) == Render(iden, Finish) { RenderInjective(iden, LastOffset, Finish); }
    case _ =>
  }

  lemma BuilderDueStays(c: Codec, iden: Iden, s: Seg, t: Seg, f: nat, bd: Builder)
    requires BuilderDue(c, iden, s.(log := t.log), f, bd)
    requires forall n: nat :: DueBelow(iden, s, f, n) ==> DueBelow(iden, t, f, n)
    ensures BuilderDue(c, iden, t, f, bd)
  {
    hide DueBelow, Aligned;
    DueSameLog(iden, s, t.log, f);
  }

  /** How records are passed over: entries compare as text.  A builder that resumes from an offset between
      20000 and 99999 when 109999 has its entry, as it may when saves of the last built offset have failed,
      begins past 100000. */
  lemma ResumePassesOver(c: Codec, iden: Iden, s: Seg)
    requires Inv(c, iden, s, None) && 20000 <= LastBuilt(iden, s.db) < 100000 && HasEntry(iden, s, 109999)
    ensures Aligned(c, s.log, ResumePosition(iden, s.db)) && FirstRead(c, iden, s) >= 100000
  {
    hide Inv, HasEntry, ResumePosition, LastBuilt, Aligned, LexLess, Dec;
    var at, hit := ResumeAt(c, iden, s);
    if at < 100000 {
      FiveDigits(at);
      LeadOf109999();
      OneBeforeTwo(at);
    }
  }

  lemma SameLead(n: nat)
    requires n >= 10
    ensures Dec(n)[0] == Dec(n / 10)[0]
  {}

  lemma FiveDigits(n: nat)
    requires 20000 <= n < 100000
    ensures Dec(n)[0] == Digit(n / 10000)
  {
    assert Dec(n / 10000) == [Digit(n / 10000)];
    hide Dec;
    SameLead(n);
    SameLead(n / 10);
    SameLead(n / 10 / 10);
    SameLead(n / 10 / 10 / 10);
    assert n / 10 / 10 / 10 / 10 == n / 10000;
  }

  lemma LeadOf109999()
    ensures Dec(109999)[0] == '1'
  {
    assert Dec(1) == "1";
    hide Dec;
    SameLead(109999);
    SameLead(10999);
    SameLead(1099);
    SameLead(109);
    SameLead(10);
  }

  lemma OneBeforeTwo(n: nat)
    requires 20000 <= n < 100000 && Dec(n)[0] == Digit(n / 10000) && Dec(109999)[0] == '1'
    ensures !LexLeq(Dec(n), Dec(109999))
  {
    hide Dec;
  }

  // ---------------------------------------------------------------- the one change of base

  /** Step `i0` moves the start offset in memory, and with it the base, from -1 to 0. */
  predicate MovesBase(run: seq<Seg>, i0: nat) { i0 + 1 < |run| && run[i0].memStart == -1 && run[i0 + 1].memStart == 0 }

  /** Only a restart does so, and what it finds stored it finds stored ever after. */
  ghost predicate StartStored(iden: Iden, s: Seg) { s.memStart == 0 ==> Render(iden, OffsetStart) in s.db }

  lemma StartKept(c: Codec, iden: Iden, s: Seg, e: Event)
    requires Inv(c, iden, s, None) && Enabled(c, iden, s, e) && StartStored(iden, s)
    ensures StartStored(iden, Step(c, iden, s, e)) && (s.memStart == 0 ==> Step(c, iden, s, e).memStart == 0)
    ensures !e.Restarts() ==> Step(c, iden, s, e).memStart == s.memStart
    ensures e.Restarts() ==> Step(c, iden, s, e).builder.None?
  {
    hide Render, Inv, NextRead, RecordWrites, AfterBatch;
    if Render(iden, OffsetStart) in s.db { NamesStay(c, iden, s, e, OffsetStart); }
    match e
    case Restart(loaded) => RestartStep(c, iden, s, loaded, None);
    case StopInBatch(data, fault, loaded) => StopStep(c, iden, s, data, fault, loaded, None);
    case _ => OtherKeepsStart(c, iden, s, e);
  }

  lemma OtherKeepsStart(c: Codec, iden: Iden, s: Seg, e: Event)
    requires Enabled(c, iden, s, e) && !e.Restarts()
    ensures Step(c, iden, s, e).memStart == s.memStart
  {
    hide Enabled, Render, NextRead, RecordWrites;
  }

  lemma {:induction false} RunStart(c: Codec, iden: Iden, run: seq<Seg>, es: seq<Event>, i: nat)
    requires IsRun(c, iden, run, es) && i < |run|
    ensures StartStored(iden, run[i])
  {
    hide Inv, Enabled, Step, StartStored;
    if i == 0 {
      assert StartStored(iden, run[0]) by { hide *; InitStart(iden, run[0]); }
    } else {
      RunStart(c, iden, run, es, i - 1);
      RunsKeepNone(c, iden, run, es, i - 1);
      StartKept(c, iden, run[i - 1], es[i - 1]);
    }
  }

  lemma InitStart(iden: Iden, s: Seg)
    requires Init(iden, s)
    ensures StartStored(iden, s)
  {}

  lemma {:induction false} StartStays(c: Codec, iden: Iden, run: seq<Seg>, es: seq<Event>, k: nat, i: nat)
    requires IsRun(c, iden, run, es) && k <= i < |run| && run[k].memStart == 0
    ensures run[i].memStart == 0
    decreases i
  {
    hide Inv, Enabled, Step, StartStored, Init;
    if k < i {
      StartStays(c, iden, run, es, k, i - 1);
      RunStart(c, iden, run, es, i - 1);
      RunsKeepNone(c, iden, run, es, i - 1);
      StartKept(c, iden, run[i - 1], es[i - 1]);
    }
  }

  /** The base changes at most once in a run, with a restart: before it is -1 and afterwards 0. */
  lemma BaseMovesOnce(c: Codec, iden: Iden, run: seq<Seg>, es: seq<Event>, i0: nat, k: nat)
    requires IsRun(c, iden, run, es) && MovesBase(run, i0) && k < |run|
    ensures es[i0].Restarts() && run[i0 + 1].builder.None?
    ensures run[k].memStart == if k <= i0 then -1 else 0
    ensures MovesBase(run, k) ==> k == i0
  {
    hide Inv, Enabled, Step, StartStored, Init, BaseInv;
    RunStart(c, iden, run, es, i0);
    RunsKeepNone(c, iden, run, es, i0);
    StartKept(c, iden, run[i0], es[i0]);
    if k <= i0 {
      assert run[k].memStart == -1 || run[k].memStart == 0 by { KnownStart(c, iden, run, es, k); }
      if run[k].memStart == 0 { StartStays(c, iden, run, es, k, i0); }
      if k < i0 && run[k + 1].memStart == 0 { StartStays(c, iden, run, es, k + 1, i0); }
    } else {
      StartStays(c, iden, run, es, i0 + 1, k);
    }
  }

  lemma KnownStart(c: Codec, iden: Iden, run: seq<Seg>, es: seq<Event>, k: nat)
    requires IsRun(c, iden, run, es) && k < |run|
    ensures run[k].memStart == -1 || run[k].memStart == 0
  {
    hide IsRun;
    RunsKeepBase(c, iden, run, es, k);
  }

  /** Where it never changes it is -1 throughout. */
  lemma {:induction false} NeverMoves(c: Codec, iden: Iden, run: seq<Seg>, es: seq<Event>, i: nat)
    requires IsRun(c, iden, run, es) && i < |run| && forall k :: !MovesBase(run, k)
    ensures run[i].memStart == -1
  {
    hide Inv, Enabled, Step;
    if i > 0 {
      NeverMoves(c, iden, run, es, i - 1);
      KnownStart(c, iden, run, es, i);
      assert !MovesBase(run, i - 1);
    }
  }

  /** In such a run the entries up to the frontier stand exactly at 9999 modulo 10000. */
  lemma SparseWithoutMove(c: Codec, iden: Iden, run: seq<Seg>, es: seq<Event>, i: nat, j: nat)
    requires IsRun(c, iden, run, es) && i < |run| && forall k :: !MovesBase(run, k)
    requires Render(iden, LastOffset) in run[i].db && j <= LastBuilt(iden, run[i].db)
    ensures HasEntry(iden, run[i], j) <==> j % 10000 == 9999
  {
    hide Inv, Enabled, Step, Init, Render, LastBuilt;
    forall k | 0 <= k < |es| ensures BaseFixed(run[k], es[k], Some(-1)) { NeverMoves(c, iden, run, es, k); }
    SparseContents(c, iden, run, es, i, -1, j);
  }

  /** What is stored when the base changes was put there under base -1. */
  lemma InvAtMove(c: Codec, iden: Iden, run: seq<Seg>, es: seq<Event>, i0: nat)
    requires IsRun(c, iden, run, es) && MovesBase(run, i0)
    ensures Inv(c, iden, run[i0 + 1], Some(-1))
  {
    hide Inv, Enabled, Step, Init;
    var run', es' := run[..i0 + 2], es[..i0 + 1];
    assert IsRun(c, iden, run', es');
    forall k | 0 <= k < |es'| ensures BaseFixed(run'[k], es'[k], Some(-1)) { BaseMovesOnce(c, iden, run, es, i0, k); }
    RunsKeepInv(c, iden, run', es', i0 + 1, Some(-1));
  }

  lemma EntriesComplete(c: Codec, iden: Iden, s: Seg)
    requires Inv(c, iden, s, Some(-1))
    ensures Complete(iden, s)
  {
    hide Render, WriterInv, BuilderInv, Pos;
    forall o: nat, j: nat | HasEntry(iden, s, o) && j <= o ensures HasEntry(iden, s, j) <==> j % 10000 == 9999 {
      assert Truthful(c, iden, s.db, s.log, Position(o), s.db[Render(iden, Position(o))], Some(-1));
      if j < o { assert Indexed(c, iden, s.db, s.log, j, Some(-1)); }
      if HasEntry(iden, s, j) { assert Truthful(c, iden, s.db, s.log, Position(j), s.db[Render(iden, Position(j))], Some(-1)); }
    }
  }

  lemma FrontierComplete(c: Codec, iden: Iden, s: Seg, j: nat)
    requires Inv(c, iden, s, Some(-1)) && j < LastBuilt(iden, s.db)
    ensures HasEntry(iden, s, j) <==> j % 10000 == 9999
  {
    hide Render, WriterInv, BuilderInv, Pos;
    assert Truthful(c, iden, s.db, s.log, LastOffset, s.db[Render(iden, LastOffset)], Some(-1));
    assert Indexed(c, iden, s.db, s.log, j, Some(-1));
    if HasEntry(iden, s, j) { assert Truthful(c, iden, s.db, s.log, Position(j), s.db[Render(iden, Position(j))], Some(-1)); }
  }

  /** Below the first record that is read next, exactly the offsets 9999 modulo 10000 have entries. */
  lemma BelowFirstRead(c: Codec, iden: Iden, s: Seg, j: nat)
    requires Inv(c, iden, s, Some(-1)) && Inv(c, iden, s, None)
    ensures Aligned(c, s.log, ResumePosition(iden, s.db))
    ensures j < FirstRead(c, iden, s) ==> (HasEntry(iden, s, j) <==> j % 10000 == 9999)
  {
    hide Inv, HasEntry, ResumePosition, LastBuilt, Aligned, LexLess, Dec;
    var at, hit := ResumeAt(c, iden, s);
    EntriesComplete(c, iden, s);
    if j < LastBuilt(iden, s.db) { FrontierComplete(c, iden, s, j); }
  }

  /** Such entries end somewhere. */
  lemma {:induction false} EntriesEnd(iden: Iden, s: Seg, n: nat) returns (g: nat)
    requires Complete(iden, s) && forall o: nat :: HasEntry(iden, s, o) ==> o < n
    ensures forall o: nat :: HasEntry(iden, s, o) <==> o < g && o % 10000 == 9999
    decreases n
  {
    hide HasEntry;
    if n == 0 || HasEntry(iden, s, n - 1) { g := n; } else { g := EntriesEnd(iden, s, n - 1); }
  }

  lemma EntriesInFile(c: Codec, iden: Iden, s: Seg, o: nat)
    requires Inv(c, iden, s, None) && HasEntry(iden, s, o)
    ensures o < |s.log|
  {
    hide Render, WriterInv, BuilderInv, Pos, IndexedBelow;
    assert Truthful(c, iden, s.db, s.log, Position(o), s.db[Render(iden, Position(o))], None);
  }

  // ---------------------------------------------------------------- runs

  lemma SinceItself(c: Codec, iden: Iden, s: Seg)
    requires Inv(c, iden, s, None) && s.builder.None? && Aligned(c, s.log, ResumePosition(iden, s.db))
    ensures Since(c, iden, s, s, FirstRead(c, iden, s))
  {
    hide Inv, HasEntry, SparseAt, ResumePosition, LastBuilt, Aligned, DueBelow;
  }

  lemma {:induction false} RunSince(c: Codec, iden: Iden, run: seq<Seg>, es: seq<Event>, i0: nat, i: nat)
    requires IsRun(c, iden, run, es) && i0 < i < |run| && MovesBase(run, i0)
    ensures Aligned(c, run[i0 + 1].log, ResumePosition(iden, run[i0 + 1].db))
    ensures Since(c, iden, run[i0 + 1], run[i], FirstRead(c, iden, run[i0 + 1]))
    decreases i
  {
    hide Inv, Enabled, Step, Init, Since, ResumePosition, Aligned, Complete;
    var s0 := run[i0 + 1];
    RunsKeepNone(c, iden, run, es, i0 + 1);
    BaseMovesOnce(c, iden, run, es, i0, i - 1);
    if i == i0 + 1 {
      var at, hit := ResumeAt(c, iden, s0);
      SinceItself(c, iden, s0);
    } else {
      RunSince(c, iden, run, es, i0, i - 1);
      RunsKeepNone(c, iden, run, es, i - 1);
      InvAtMove(c, iden, run, es, i0);
      EntriesComplete(c, iden, s0);
      SinceStep(c, iden, s0, run[i - 1], es[i - 1], FirstRead(c, iden, s0));
    }
  }

  lemma RunsKeepNone(c: Codec, iden: Iden, run: seq<Seg>, es: seq<Event>, i: nat)
    requires IsRun(c, iden, run, es) && i < |run|
    ensures Inv(c, iden, run[i], None)
  {
    hide IsRun, Inv;
    RunsKeepInv(c, iden, run, es, i, None);
  }

  /** Record `j` has been processed by a builder that saved its frontier since state `s0`. */
  predicate ProcessedSince(iden: Iden, s0: Seg, s: Seg, j: nat)
  {
    j < LastBuilt(iden, s.db) || (j == LastBuilt(iden, s.db) && LastBuilt(iden, s.db) != LastBuilt(iden, s0.db))
  }

  /** What the sparse index holds in every state of every run after the restart that moves the base.  Below
      the first record read since, nothing changes any more; from there on, a processed record has an entry
      exactly if it had one or its offset is a multiple of 10000; and other entries have not come. */
  lemma SparseAcrossBases(c: Codec, iden: Iden, run: seq<Seg>, es: seq<Event>, i0: nat, i: nat, j: nat)
    requires IsRun(c, iden, run, es) && i0 < i < |run| && MovesBase(run, i0)
    ensures Aligned(c, run[i0 + 1].log, ResumePosition(iden, run[i0 + 1].db))
    ensures j < FirstRead(c, iden, run[i0 + 1]) ==> (HasEntry(iden, run[i], j) <==> HasEntry(iden, run[i0 + 1], j))
    ensures FirstRead(c, iden, run[i0 + 1]) <= j && ProcessedSince(iden, run[i0 + 1], run[i], j) ==>
      (HasEntry(iden, run[i], j) <==> HasEntry(iden, run[i0 + 1], j) || j % 10000 == 0)
    ensures HasEntry(iden, run[i], j) ==> HasEntry(iden, run[i0 + 1], j) || j % 10000 == 0
  {
    hide IsRun, HasEntry, ResumePosition, LastBuilt, Aligned;
    RunSince(c, iden, run, es, i0, i);
  }

  /** The same in offsets alone: entries stand at 9999 modulo 10000 below some `g`, and at multiples of 10000
      from the first record `f` read after the restart on. */
  lemma ExactAcrossBases(c: Codec, iden: Iden, run: seq<Seg>, es: seq<Event>, i0: nat) returns (f: nat, g: nat)
    requires IsRun(c, iden, run, es) && MovesBase(run, i0)
    ensures Aligned(c, run[i0 + 1].log, ResumePosition(iden, run[i0 + 1].db)) && f == FirstRead(c, iden, run[i0 + 1])
    ensures forall i: nat, j: nat :: i0 < i < |run| && (j < f || ProcessedSince(iden, run[i0 + 1], run[i], j)) ==>
      (HasEntry(iden, run[i], j) <==> (j < g && j % 10000 == 9999) || (f <= j && j % 10000 == 0))
  {
    hide IsRun, HasEntry, ResumePosition, LastBuilt, Aligned, Inv, Complete;
    var s0 := run[i0 + 1];
    InvAtMove(c, iden, run, es, i0);
    RunsKeepNone(c, iden, run, es, i0 + 1);
    BelowFirstRead(c, iden, s0, 0);
    f := FirstRead(c, iden, s0);
    EntriesComplete(c, iden, s0);
    forall o: nat | HasEntry(iden, s0, o) ensures o < |s0.log| { EntriesInFile(c, iden, s0, o); }
    g := EntriesEnd(iden, s0, |s0.log|);
    forall i: nat, j: nat | i0 < i < |run| && (j < f || ProcessedSince(iden, s0, run[i], j))
      ensures HasEntry(iden, run[i], j) <==> (j < g && j % 10000 == 9999) || (f <= j && j % 10000 == 0)
    {
      SparseAcrossBases(c, iden, run, es, i0, i, j);
    }
  }

  /** A record due under base 0 that lies before the first one read since never gets an entry. */
  lemma PassedOverForGood(c: Codec, iden: Iden, run: seq<Seg>, es: seq<Event>, i0: nat, i: nat, j: nat)
    requires IsRun(c, iden, run, es) && i0 < i < |run| && MovesBase(run, i0)
    requires Aligned(c, run[i0 + 1].log, ResumePosition(iden, run[i0 + 1].db))
    requires j < FirstRead(c, iden, run[i0 + 1]) && j % 10000 == 0
    ensures !HasEntry(iden, run[i], j)
  {
    hide IsRun, HasEntry, ResumePosition, LastBuilt, Aligned;
    var f, g := ExactAcrossBases(c, iden, run, es, i0);
  }
}
