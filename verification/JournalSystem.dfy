/** One journal segment as a state machine: its file, its metadata in memory and in the store,
    the writer thread, and the index builder with one step for each store write, so that a stop
    or a restart can fall between any two of them. */
module JournalSystem {
  import opened Options
  import opened Bytes
  import opened SegmentLog
  import opened Segments
  import opened Store
  import opened Keys

  const BUILD_INDEX_PER_RECORD_NUM: nat := 10000
  const BATCH_BYTES: nat := 10485760
  const BATCH_RECORDS: nat := 100

  /** Where the builder stands inside one round of its loop: about to read, `w` store writes into
      record `d` of what it read, or about to save the last built offset. */
  datatype Phase = Reading | Saving(data: seq<ReadData>, d: nat, w: nat) | Committing

  datatype Builder = Builder(base: int, startPosition: nat, last: nat, phase: Phase)

  /** `status` and `metaEnd` are what the cache knows of the segment, which may be nothing. */
  datatype Seg = Seg(
    log: seq<Record>, memStart: int, memEnd: int, status: Option<Status>, metaEnd: Option<int>,
    writer: Option<int>, builder: Option<Builder>, db: Db)

  /** `StopInBatch` is a batch in which something fails or the process stops, and the restart after it. */
  datatype Event =
    | WriterStart | WriterStop | Batch(data: seq<Record>)
    | SetSegment(known: Status) | DeleteSegment | InstallEnd(endOffset: int)
    | ToPreWrite | Promote | ToPreSealUp | ToSealUp
    | BuilderStart | BuilderRead | BuilderSave | BuilderSaveFails | BuilderAdvance | BuilderDone
    | BuilderCommit | BuilderCommitFails | BuilderStop
    | MarkFinished(now: nat) | ForeignPut(key: string, value: Value) | ForeignDelete(key: string)
    | Restart(loaded: Option<Status>) | StopInBatch(data: seq<Record>, fault: Fault, loaded: Option<Status>)
  {
    predicate Restarts() { Restart? || StopInBatch? }
  }

  // ---------------------------------------------------------------- what the builder writes

  predicate SparseAt(offset: int, base: int) { (offset - base) % BUILD_INDEX_PER_RECORD_NUM == 0 }

  function EntryFor(rd: ReadData): IndexData
    requires rd.record.offset >= 0
  {
    IndexData(rd.record.offset, rd.record.createTime, rd.position)
  }

  function TagWrites(tags: seq<string>, v: IndexData): (ws: seq<(Name, Value)>)
    ensures |ws| == |tags|
    ensures forall i :: 0 <= i < |tags| ==> ws[i] == (Tag(tags[i], v.offset), Index(v))
  {
    seq(|tags|, i requires 0 <= i < |tags| => (Tag(tags[i], v.offset), Index(v)))
  }

  /** The store writes for one record, in order: the start offset for the record at position 0, the
      sparse position and timestamp entries, the key entry, the tag entries. */
  function RecordWrites(rd: ReadData, base: int): seq<(Name, Value)>
    requires rd.record.offset >= 0
  {
    var r, v := rd.record, EntryFor(rd);
    (if rd.position == 0 then [(OffsetStart, Num(r.offset))] else []) +
    (if SparseAt(r.offset, base) then [(Position(r.offset), Index(v)), (Time(r.createTime), Index(v))] else []) +
    (if r.key != "" then [(Key(r.key, r.offset), Index(v))] else []) +
    TagWrites(r.tags, v)
  }

  // ---------------------------------------------------------------- what is loaded from the store

  /** A stored offset that does not read as an `i64` is an error. */
  predicate I64Readable(db: Db, key: string) { key in db ==> db[key].Num? && db[key].n < TWO_63 }

  function LoadI64(db: Db, key: string): int
  {
    if key in db && db[key].Num? && db[key].n < TWO_63 then db[key].n else -1
  }

  predicate Loadable(s: Iden, db: Db) { I64Readable(db, Render(s, OffsetStart)) && I64Readable(db, Render(s, OffsetEnd)) }

  function Restarted(iden: Iden, s: Seg, loaded: Option<Status>): Seg
  {
    s.(writer := None, builder := None, status := loaded,
       memStart := LoadI64(s.db, Render(iden, OffsetStart)), memEnd := LoadI64(s.db, Render(iden, OffsetEnd)))
  }

  function LastBuilt(s: Iden, db: Db): nat
  {
    var k := Render(s, LastOffset);
    if k in db && db[k].Num? then db[k].n else 0
  }

  /** Where a builder that starts now begins to read. */
  function ResumePosition(s: Iden, db: Db): nat
  {
    match First(db, PositionPrefix(s), ByOffset, LastBuilt(s, db))
    case Some(entry) => entry.position
    case None => 0
  }

  // ---------------------------------------------------------------- steps

  /** What the builder reads next. */
  ghost function NextRead(c: Codec, log: seq<Record>, b: Builder): seq<ReadData>
    requires AllStorable(c, log) && Aligned(c, log, b.startPosition)
  {
    ReadFrom(c, log, FrameIndex(c, log, b.startPosition), b.last, BATCH_BYTES, BATCH_RECORDS, 0)
  }

  ghost predicate Batchable(c: Codec, s: Seg, data: seq<Record>)
  {
    && s.writer.Some? && data != [] && IsI64(s.writer.value) && (s.metaEnd.Some? ==> IsI64(s.metaEnd.value))
    && |s.log| + |data| < TWO_63
    && AllStorable(c, Stamp(data, s.writer.value))
  }

  /** The writer takes the batch: the checks before a write pass. */
  predicate Accepted(s: Seg, data: seq<Record>)
    requires s.writer.Some? && IsI64(s.writer.value) && (s.metaEnd.Some? ==> IsI64(s.metaEnd.value))
  {
    Validate(s.status, s.metaEnd, s.writer.value, |data|).Accept?
  }

  /** What goes wrong while a batch is handled.  A failed file write does not keep the builder from
      being triggered, so the trigger can fail as well. */
  datatype Fault = NoFault | FileFault | FileAndTriggerFault | EndOffsetFault | EndTimeFault | TriggerFault {
    /** The records had reached the file. */
    predicate AfterAppend() { !FileFault? && !FileAndTriggerFault? }
  }

  /** A batch handed to the writer thread.  A failed file write is answered with a last offset of 0, which
      the thread takes over unless triggering the builder fails too; every other fault leaves the thread's
      counter where it was. */
  ghost function AfterBatch(c: Codec, iden: Iden, s: Seg, data: seq<Record>, fault: Fault): Seg
    requires Batchable(c, s, data)
  {
    var localEnd := s.writer.value;
    match Validate(s.status, s.metaEnd, localEnd, |data|)
    case Accept =>
      var records := Stamp(data, localEnd);
      var last := records[|records| - 1];
      var endSaved := s.db[Render(iden, OffsetEnd) := Num(AsU64(last.offset))];
      var bothSaved := endSaved[Render(iden, TimeEnd) := Num(last.createTime)];
      var appended := s.(log := s.log + records, memEnd := last.offset);
      (match fault
      case NoFault => appended.(db := bothSaved, writer := Some(last.offset))
      case FileFault => s.(writer := Some(0))
      case FileAndTriggerFault => s
      case EndOffsetFault => appended
      case EndTimeFault => appended.(db := endSaved)
      case TriggerFault => appended.(db := bothSaved))
    case SegmentOffsetAtTheEnd => s.(status := Some(SealUp))
    case _ => s
  }

  ghost predicate InSaving(s: Seg) { s.builder.Some? && s.builder.value.phase.Saving? }

  ghost predicate SaveReady(s: Seg)
  {
    InSaving(s) &&
    var b := s.builder.value;
    && b.phase.d < |b.phase.data| && b.phase.data[b.phase.d].record.offset >= 0
    && b.phase.w < |RecordWrites(b.phase.data[b.phase.d], b.base)|
  }

  ghost predicate ReadReady(c: Codec, s: Seg)
  {
    && s.builder.Some? && s.builder.value.phase.Reading?
    && AllStorable(c, s.log) && Aligned(c, s.log, s.builder.value.startPosition)
  }

  ghost predicate Enabled(c: Codec, iden: Iden, s: Seg, e: Event)
  {
    match e
    case WriterStart => s.writer.None?
    case Batch(data) => Batchable(c, s, data)
    case InstallEnd(n) => IsI64(n) && (n <= 0 || s.memEnd <= n)
    case BuilderStart => s.builder.None? && Render(iden, Finish) !in s.db
    case BuilderRead => ReadReady(c, s)
    case MarkFinished(_) => ReadReady(c, s) && NextRead(c, s.log, s.builder.value) == [] && s.status == Some(SealUp)
    case BuilderSave => SaveReady(s)
    case BuilderSaveFails => InSaving(s)
    case BuilderAdvance =>
      InSaving(s) &&
      var b := s.builder.value;
      && b.phase.d < |b.phase.data| && b.phase.data[b.phase.d].record.offset >= 0
      && b.phase.w == |RecordWrites(b.phase.data[b.phase.d], b.base)|
    case BuilderDone =>
      InSaving(s) &&
      var data := s.builder.value.phase.data;
      s.builder.value.phase.d == |data| && data != [] && data[|data| - 1].record.offset >= 0
    case BuilderCommit => s.builder.Some? && s.builder.value.phase.Committing?
    case BuilderCommitFails => s.builder.Some? && s.builder.value.phase.Committing?
    case ForeignPut(key, _) => !(SegmentIndexPrefix(iden) <= key)
    case ForeignDelete(key) => !(SegmentIndexPrefix(iden) <= key)
    case Restart(_) => Loadable(iden, s.db)
    case StopInBatch(data, fault, _) => Batchable(c, s, data) && !fault.EndOffsetFault? && Loadable(iden, AfterBatch(c, iden, s, data, fault).db)
    case _ => true
  }

  function SetStatus(s: Seg, from: Status, to: Status): Seg { if s.status == Some(from) then s.(status := Some(to)) else s }

  ghost function Step(c: Codec, iden: Iden, s: Seg, e: Event): Seg
    requires Enabled(c, iden, s, e)
  {
    match e
    case WriterStart => s.(writer := Some(s.memEnd))
    case WriterStop => s.(writer := None)
    case Batch(data) => AfterBatch(c, iden, s, data, NoFault)
    case SetSegment(known) => s.(status := Some(known))
    case DeleteSegment => s.(status := None, metaEnd := None)
    case InstallEnd(n) => s.(metaEnd := Some(n))
    case ToPreWrite => SetStatus(s, Idle, PreWrite)
    case Promote => if s.status.Some? then s.(status := Some(Write)) else s
    case ToPreSealUp => SetStatus(s, Write, PreSealUp)
    case ToSealUp => SetStatus(s, PreSealUp, SealUp)
    case BuilderStart =>
      s.(builder := Some(Builder(s.memStart, ResumePosition(iden, s.db), LastBuilt(iden, s.db), Reading)))
    case BuilderRead =>
      var b := s.builder.value;
      var data := NextRead(c, s.log, b);
      if data == [] then s else s.(builder := Some(b.(phase := Saving(data, 0, 0))))
    case BuilderSave =>
      var b := s.builder.value;
      var write := RecordWrites(b.phase.data[b.phase.d], b.base)[b.phase.w];
      s.(db := s.db[Render(iden, write.0) := write.1],
         builder := Some(b.(phase := b.phase.(w := b.phase.w + 1))))
    case BuilderSaveFails => s.(builder := Some(s.builder.value.(phase := Reading)))
    case BuilderAdvance =>
      var b := s.builder.value;
      s.(builder := Some(b.(phase := b.phase.(d := b.phase.d + 1, w := 0))))
    case BuilderDone =>
      var b := s.builder.value;
      s.(builder := Some(b.(last := b.phase.data[|b.phase.data| - 1].record.offset, phase := Committing)))
    case BuilderCommit =>
      var b := s.builder.value;
      s.(db := s.db[Render(iden, LastOffset) := Num(b.last)], builder := Some(b.(phase := Reading)))
    case BuilderCommitFails => s.(builder := Some(s.builder.value.(phase := Reading)))
    case BuilderStop => s.(builder := None)
    case MarkFinished(now) => s.(db := s.db[Render(iden, Finish) := Num(now)])
    case ForeignPut(key, value) => s.(db := s.db[key := value])
    case ForeignDelete(key) => s.(db := s.db - {key})
    case Restart(loaded) => Restarted(iden, s, loaded)
    case StopInBatch(data, fault, loaded) => Restarted(iden, AfterBatch(c, iden, s, data, fault), loaded)
  }

  ghost predicate Init(iden: Iden, s: Seg)
  {
    && s.log == [] && s.memStart == -1 && s.memEnd == -1 && (s.metaEnd.Some? ==> IsI64(s.metaEnd.value))
    && s.writer.None? && s.builder.None?
    && forall k :: k in s.db ==> !(SegmentIndexPrefix(iden) <= k)
  }

  /** A run: a start state and the states its events lead to. */
  ghost predicate IsRun(c: Codec, iden: Iden, run: seq<Seg>, es: seq<Event>)
  {
    && |run| == |es| + 1 && Init(iden, run[0])
    && forall i :: 0 <= i < |es| ==> Enabled(c, iden, run[i], es[i]) && run[i + 1] == Step(c, iden, run[i], es[i])
  }
}
