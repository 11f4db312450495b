/** The running code of one segment: the file, the store, the metadata, the writer thread and the
    index builder, each method tied to the steps of the state machine. */
module SegmentNodes {
  import opened Options
  import opened Bytes
  import opened SegmentLog
  import opened SegmentFiles
  import opened Segments
  import opened Store
  import opened Keys
  import opened JournalSystem
  import opened JournalInvariant
  import opened JournalRuns

  /** Answer of the writer thread to a packet; for an empty packet it answers nothing. */
  datatype WriteResp = NoAnswer | Written(offsets: map<nat, nat>, lastOffset: nat) | Refused(verdict: Verdict) | Failed

  /** `es` leads from `s` to `t` through steps that are enabled. */
  ghost predicate Leads(c: Codec, iden: Iden, s: Seg, es: seq<Event>, t: Seg)
    decreases |es|
  {
    if es == [] then s == t
    else
      var e, before := es[|es| - 1], es[..|es| - 1];
      exists m :: Leads(c, iden, s, before, m) && Enabled(c, iden, m, e) && t == Step(c, iden, m, e)
  }

  lemma LeadsThen(c: Codec, iden: Iden, s: Seg, es: seq<Event>, t: Seg, e: Event)
    requires Leads(c, iden, s, es, t) && Enabled(c, iden, t, e)
    ensures Leads(c, iden, s, es + [e], Step(c, iden, t, e))
  {
    hide Step, Enabled;
    assert (es + [e])[..|es + [e]| - 1] == es;
  }

  /** What steps lead to keeps the invariant. */
  lemma {:induction false} LeadsKeepInv(c: Codec, iden: Iden, s: Seg, es: seq<Event>, t: Seg)
    requires Leads(c, iden, s, es, t) && Inv(c, iden, s, None)
    ensures Inv(c, iden, t, None)
    decreases |es|
  {
    hide Inv, Step, Enabled;
    if es != [] {
      var e, before := es[|es| - 1], es[..|es| - 1];
      var m :| Leads(c, iden, s, before, m) && Enabled(c, iden, m, e) && t == Step(c, iden, m, e);
      LeadsKeepInv(c, iden, s, before, m);
      StepKeepsInv(c, iden, m, e, None);
    }
  }

  /** What steps lead to from an initial state is the last state of a run, so whatever holds in every run
      holds for the code below. */
  lemma {:induction false} LeadsIsRun(c: Codec, iden: Iden, s: Seg, es: seq<Event>, t: Seg) returns (run: seq<Seg>)
    requires Init(iden, s) && Leads(c, iden, s, es, t)
    ensures IsRun(c, iden, run, es) && run[0] == s && run[|es|] == t
    decreases |es|
  {
    hide Init, Step, Enabled;
    if es == [] {
      run := [s];
    } else {
      var e, before := es[|es| - 1], es[..|es| - 1];
      var m :| Leads(c, iden, s, before, m) && Enabled(c, iden, m, e) && t == Step(c, iden, m, e);
      run := LeadsIsRun(c, iden, s, before, m);
      run := run + [t];
      assert forall i :: 0 <= i < |before| ==> es[i] == before[i];
    }
  }

  lemma {:induction false} LeadsTrans(c: Codec, iden: Iden, s: Seg, es: seq<Event>, m: Seg, es': seq<Event>, t: Seg)
    requires Leads(c, iden, s, es, m) && Leads(c, iden, m, es', t)
    ensures Leads(c, iden, s, es + es', t)
    decreases |es'|
  {
    hide Step, Enabled;
    if es' == [] {
      assert es + es' == es;
    } else {
      var e, before := es'[|es'| - 1], es'[..|es'| - 1];
      var n :| Leads(c, iden, m, before, n) && Enabled(c, iden, n, e) && t == Step(c, iden, n, e);
      LeadsTrans(c, iden, s, es, m, before, n);
      assert (es + es')[..|es + es'| - 1] == es + before;
    }
  }

  /** Steps from the last state of a run go on with that run. */
  lemma {:induction false} LeadsExtends(c: Codec, iden: Iden, run: seq<Seg>, es: seq<Event>, es': seq<Event>, t: Seg) returns (run': seq<Seg>)
    requires IsRun(c, iden, run, es) && Leads(c, iden, run[|es|], es', t)
    ensures IsRun(c, iden, run', es + es') && |run'| == |es + es'| + 1 && run'[|es + es'|] == t
    decreases |es'|
  {
    hide Init, Step, Enabled;
    if es' == [] {
      assert es + es' == es;
      run' := run;
    } else {
      var e, before := es'[|es'| - 1], es'[..|es'| - 1];
      var n :| Leads(c, iden, run[|es|], before, n) && Enabled(c, iden, n, e) && t == Step(c, iden, n, e);
      run' := LeadsExtends(c, iden, run, es, before, n);
      run' := run' + [t];
      assert forall i :: 0 <= i < |es + before| ==> (es + es')[i] == (es + before)[i];
    }
  }

  lemma LeadsOne(c: Codec, iden: Iden, s: Seg, e: Event)
    requires Enabled(c, iden, s, e)
    ensures Leads(c, iden, s, [e], Step(c, iden, s, e))
  {
    hide Step, Enabled;
    assert Leads(c, iden, s, [], s);
    LeadsThen(c, iden, s, [], s, e);
    assert [] + [e] == [e];
  }

  class SegmentNode {
    const iden: Iden
    const file: SegmentFile
    const store: RocksStore
    var memStart: int
    var memEnd: int
    var status: Option<Status>
    var metaEnd: Option<int>
    var localEnd: Option<int>
    var builder: Option<Builder>
    /** How often no data directory was found for a writer, and for a builder. */
    ghost var misses: nat
    ghost var builderMisses: nat
    /** How many answers of the writer thread came too late. */
    ghost var timeouts: nat

    ghost function Abs(): Seg
      reads this, file, store
    {
      Seg(file.log, memStart, memEnd, status, metaEnd, localEnd, builder, store.db)
    }

    ghost predicate Sound()
      reads this, file, store
    {
      file.Valid() && Inv(file.codec, iden, Abs(), None)
    }

    /** A new local segment: -1 for every offset, whatever the file holds; it may be one that an earlier
        segment of this name has left behind. */
    constructor (iden: Iden, file: SegmentFile, store: RocksStore, status: Option<Status>, metaEnd: Option<int>)
      requires file.Valid() && (metaEnd.Some? ==> IsI64(metaEnd.value))
      ensures Abs() == Seg(file.log, -1, -1, status, metaEnd, None, None, store.db)
      ensures this.iden == iden && this.file == file && this.store == store && misses == builderMisses == timeouts == 0
      ensures file.log == [] && (forall k :: k in store.db ==> !(SegmentIndexPrefix(iden) <= k)) ==> Sound() && Init(iden, Abs())
    {
      this.iden, this.file, this.store := iden, file, store;
      memStart, memEnd := -1, -1;
      this.status, this.metaEnd := status, metaEnd;
      localEnd, builder := None, None;
      misses, builderMisses, timeouts := 0, 0, 0;
      new;
      if Init(iden, Abs()) { InitInv(file.codec, iden, Abs(), None); }
    }

    /** One step of the machine, as seen from the fields. */
    twostate lemma OneStep(e: Event)
      requires old(Sound()) && file.Valid()
      requires Enabled(file.codec, iden, old(Abs()), e) && Abs() == Step(file.codec, iden, old(Abs()), e)
      ensures Sound() && Leads(file.codec, iden, old(Abs()), [e], Abs())
    {
      hide Step, Enabled, Inv, Leads;
      LeadsOne(file.codec, iden, old(Abs()), e);
      LeadsKeepInv(file.codec, iden, old(Abs()), [e], Abs());
    }

    /** `open_segment_write`: the segment must be in the cache and have a directory here. */
    method OpenSegmentWrite() returns (ok: bool)
      ensures ok ==> status.Some?
    {
      ok := *;
      if status.None? {
        return false;
      }
    }

    /** A thread starts at the end offset in memory, whatever happened before. */
    method CreateWriteThread() returns (ok: bool)
      requires file.Valid() && localEnd.None?
      modifies this`localEnd, this`misses
      ensures misses >= old(misses) && (ok <==> status.Some? && misses == old(misses))
      ensures Abs() == if ok then Step(file.codec, iden, old(Abs()), WriterStart) else old(Abs())
      ensures localEnd == if ok then Some(memEnd) else None
      ensures old(Sound()) ==> Sound() && (ok ==> Leads(file.codec, iden, old(Abs()), [WriterStart], Abs()))
    {
      ok := OpenSegmentWrite();
      if ok {
        localEnd := Some(memEnd);
        if old(Sound()) { OneStep(WriterStart); }
      } else {
        misses := misses + 1;
      }
    }

    method StopWriteThread()
      requires file.Valid()
      modifies this`localEnd
      ensures Abs() == Step(file.codec, iden, old(Abs()), WriterStop) && localEnd == None
      ensures old(Sound()) ==> Sound() && Leads(file.codec, iden, old(Abs()), [WriterStop], Abs())
    {
      localEnd := None;
      if old(Sound()) { OneStep(WriterStop); }
    }

    /** `get_start_offset` and `get_end_offset`: a stored number, or -1; one beyond `i64` is an error. */
    method GetOffset(n: Name) returns (ok: bool, offset: int)
      modifies store`faults
      ensures store.faults >= old(store.faults)
      ensures ok <==> store.faults == old(store.faults) && I64Readable(store.db, Render(iden, n))
      ensures ok ==> offset == LoadI64(store.db, Render(iden, n))
      ensures ok ==> if Render(iden, n) in store.db then offset >= 0 && store.db[Render(iden, n)] == Num(offset) else offset == -1
    {
      hide Render;
      offset := -1;
      var v;
      ok, v := store.Get(Render(iden, n));
      if ok && v.Some? {
        ok := v.value.Num? && v.value.n < TWO_63;
        if ok { offset := v.value.n; }
      }
    }

    /** A restart: threads are gone, offsets come from the store, the status from the placement center.
        When an offset cannot be loaded the process does not come up. */
    method LoadLocalSegment(loaded: Option<Status>) returns (ok: bool)
      requires file.Valid()
      modifies this, store`faults
      ensures ok <==> store.faults == old(store.faults) && Enabled(file.codec, iden, old(Abs()), Restart(loaded))
      ensures Abs() == if ok then Step(file.codec, iden, old(Abs()), Restart(loaded)) else old(Abs())
      ensures ok ==>
        && localEnd == None && builder == None && status == loaded && metaEnd == old(metaEnd)
        && memStart == LoadI64(store.db, Render(iden, OffsetStart)) && memEnd == LoadI64(store.db, Render(iden, OffsetEnd))
      ensures old(Sound()) ==> Sound() && Enabled(file.codec, iden, old(Abs()), Restart(loaded))
      ensures old(Sound()) && ok ==> Leads(file.codec, iden, old(Abs()), [Restart(loaded)], Abs()) && memEnd == old(memEnd)
    {
      hide Inv, Render, Leads, Frames, LoadI64, I64Readable;
      ghost var before := Abs();
      if Sound() { RestartStep(file.codec, iden, before, loaded, None); }
      var start, end;
      ok, start := GetOffset(OffsetStart);
      if ok {
        ok, end := GetOffset(OffsetEnd);
        if ok {
          localEnd, builder, status, memStart, memEnd := None, None, loaded, start, end;
          if old(Sound()) { OneStep(Restart(loaded)); }
        }
      }
    }

    /** The checks before a write; a batch that would pass the installed end seals the segment. */
    method WriteValidator(packetLen: nat) returns (verdict: Verdict)
      requires localEnd.Some? && IsI64(localEnd.value) && (metaEnd.Some? ==> IsI64(metaEnd.value))
      modifies this`status
      ensures verdict == Validate(old(status), metaEnd, localEnd.value, packetLen)
      ensures status == if verdict.SegmentOffsetAtTheEnd? then Some(SealUp) else old(status)
      ensures
        match old(status)
        case None => verdict == SegmentNotExist
        case Some(st) => st == SealUp <==> verdict == SegmentAlreadySealUp
      ensures old(status).Some? && old(status) != Some(SealUp) && -1 <= localEnd.value && localEnd.value + packetLen < TWO_63 && packetLen > 0 ==>
        verdict ==
        if metaEnd.None? then SegmentMetaNotExists
        else if 0 < metaEnd.value < localEnd.value + packetLen then SegmentOffsetAtTheEnd
        else Accept
    {
      if -1 <= localEnd.value && localEnd.value + packetLen < TWO_63 && packetLen > 0 {
        VerdictMeaning(status, metaEnd, localEnd.value, packetLen);
      }
      if status.None? {
        return SegmentNotExist;
      }
      if status.value == SealUp {
        return SegmentAlreadySealUp;
      }
      if metaEnd.None? {
        return SegmentMetaNotExists;
      }
      if IsEndOffset(metaEnd.value, AsU64(localEnd.value), packetLen) {
        status := Some(SealUp);
        return SegmentOffsetAtTheEnd;
      }
      return Accept;
    }

    /** Gives each record the next offset and notes it under the record's packet id. */
    static method AssignOffsets(data: seq<Record>, localEnd: int) returns (records: seq<Record>, offsets: map<nat, nat>)
      requires IsI64(localEnd)
      ensures records == Stamp(data, localEnd)
      ensures offsets == OffsetMap(data, localEnd, |data|)
    {
      hide WrapAdd, AsI64;
      records, offsets := [], map[];
      var current := AsU64(localEnd);
      for i := 0 to |data|
        invariant i > 0 ==> current == WrapAdd(AsU64(localEnd), i)
        invariant i == 0 ==> current == AsU64(localEnd)
        invariant records == Stamp(data, localEnd)[..i]
        invariant offsets == OffsetMap(data, localEnd, i)
      {
        var offset := WrapAdd(current, 1);
        WrapAddNext(AsU64(localEnd), i);
        records := records + [data[i].(offset := AsI64(offset))];
        offsets := offsets[data[i].pkid := offset];
        current := offset;
      }
    }

    /** The builder after a trigger: a new one that stands where the stored state says, unless one runs or
        the index is marked finished. */
    ghost function Triggered(before: Option<Builder>): Option<Builder>
      reads this, store
    {
      if before.None? && Render(iden, Finish) !in store.db then
        Some(Builder(memStart, ResumePosition(iden, store.db), LastBuilt(iden, store.db), Reading))
      else before
    }

    /** `try_trigger_build_index`.  It fails when an access fails or a segment that needs a builder cannot
        be opened, and then changes nothing. */
    method TryTriggerBuildIndex() returns (ok: bool)
      modifies this`builder, this`builderMisses, store`faults
      ensures builder == if ok then Triggered(old(builder)) else old(builder)
      ensures store.faults >= old(store.faults) && builderMisses >= old(builderMisses)
      ensures ok <==> store.faults == old(store.faults) && builderMisses == old(builderMisses)
      ensures ok && builder != old(builder) ==> status.Some?
      ensures ok && old(builder).None? && Render(iden, Finish) !in store.db ==>
        && builder.Some? && builder.value.phase == Reading && builder.value.base == memStart
        && builder.value.last == LastBuilt(iden, store.db) && builder.value.startPosition == ResumePosition(iden, store.db)
      ensures !ok || old(builder).Some? || Render(iden, Finish) in store.db ==> builder == old(builder)
    {
      hide Render, First;
      if builder.Some? {
        return true;
      }
      var finished, saved;
      ok, finished := store.Get(Render(iden, Finish));
      if !ok || finished.Some? {
        return;
      }
      ok, saved := store.Get(Render(iden, LastOffset));
      if !ok {
        return;
      }
      if saved.Some? && !saved.value.Num? {
        store.faults := store.faults + 1;
        return false;
      }
      var last := if saved.Some? then saved.value.n else 0;
      var found := store.FirstFrom(PositionPrefix(iden), ByOffset, last);
      if found.Corrupt? {
        store.faults := store.faults + 1;
        return false;
      }
      ok := OpenSegmentWrite();
      if !ok {
        builderMisses := builderMisses + 1;
        return;
      }
      builder := Some(Builder(memStart, if found.value.Some? then found.value.value.position else 0, last, Reading));
    }

    /** `batch_write0`: give offsets, append to the file, then save the end offset and end timestamp.  A
        failed write is answered with no offsets and a last offset of 0. */
    method BatchWrite0(data: seq<Record>) returns (offsets: map<nat, nat>, lastOffset: nat, fault: Fault)
      requires file.Valid() && localEnd.Some? && IsI64(localEnd.value) && data != []
      requires AllStorable(file.codec, Stamp(data, localEnd.value))
      modifies this`memEnd, file, store
      ensures file.Valid() && !fault.TriggerFault? && !fault.FileAndTriggerFault?
      ensures file.faults >= old(file.faults) && store.faults >= old(store.faults)
      ensures fault.FileFault? <==> file.faults != old(file.faults)
      ensures fault.NoFault? <==> file.faults == old(file.faults) && store.faults == old(store.faults)
      ensures fault.NoFault? ==> offsets == OffsetMap(data, localEnd.value, |data|) && lastOffset == AsU64(OffsetOf(localEnd.value, |data| - 1))
      ensures !fault.NoFault? ==> offsets == map[] && lastOffset == 0
      ensures file.log == if fault.FileFault? then old(file.log) else old(file.log) + Stamp(data, localEnd.value)
      ensures memEnd == if fault.FileFault? then old(memEnd) else OffsetOf(localEnd.value, |data| - 1)
      ensures store.db == SavedEnds(old(store.db), OffsetOf(localEnd.value, |data| - 1), data[|data| - 1].createTime, fault)
      ensures
        var end := old(store.db)[Render(iden, OffsetEnd) := Num(AsU64(OffsetOf(localEnd.value, |data| - 1)))];
        match fault
        case NoFault => store.db == end[Render(iden, TimeEnd) := Num(data[|data| - 1].createTime)]
        case EndTimeFault => store.db == end
        case _ => store.db == old(store.db)
    {
      hide Render, Frames, WrapAdd;
      var records, given;
      records, given := AssignOffsets(data, localEnd.value);
      var last := records[|records| - 1];
      offsets, lastOffset := map[], 0;
      var written := file.Write(records);
      if !written {
        return offsets, lastOffset, FileFault;
      }
      memEnd := last.offset;
      var endSaved := store.Save(Render(iden, OffsetEnd), Num(AsU64(last.offset)));
      if !endSaved {
        return offsets, lastOffset, EndOffsetFault;
      }
      var timeSaved := store.Save(Render(iden, TimeEnd), Num(last.createTime));
      if !timeSaved {
        return offsets, lastOffset, EndTimeFault;
      }
      return given, AsU64(last.offset), NoFault;
    }

    /** What is saved of a batch, up to its fault. */
    ghost function SavedEnds(db: Db, end: int, time: nat, fault: Fault): Db
      requires IsI64(end)
      reads this
    {
      if !fault.AfterAppend() || fault.EndOffsetFault? then db
      else if fault.EndTimeFault? then db[Render(iden, OffsetEnd) := Num(AsU64(end))]
      else db[Render(iden, OffsetEnd) := Num(AsU64(end))][Render(iden, TimeEnd) := Num(time)]
    }

    /** What follows the checks: give offsets, append, save the end offset and the end timestamp, trigger
        the builder, move the counter. */
    method AppendBatch(data: seq<Record>) returns (offsets: map<nat, nat>, lastOffset: nat, fault: Fault)
      requires file.Valid() && localEnd.Some? && Batchable(file.codec, Abs(), data) && Accepted(Abs(), data)
      modifies this`memEnd, this`localEnd, this`builder, this`builderMisses, file, store
      ensures file.Valid()
      ensures Abs().(builder := old(builder)) == AfterBatch(file.codec, iden, old(Abs()), data, fault)
      ensures fault.NoFault? ==>
        offsets == OffsetMap(data, old(localEnd.value), |data|) && lastOffset == AsU64(OffsetOf(old(localEnd.value), |data| - 1))
      ensures fault.AfterAppend() <==> file.faults == old(file.faults)
      ensures file.faults >= old(file.faults) && store.faults >= old(store.faults) && builderMisses >= old(builderMisses)
      ensures fault.NoFault? <==> Quiet(old(file.faults), old(store.faults), old(builderMisses))
      ensures builder == if fault.NoFault? || fault.FileFault? then Triggered(old(builder)) else old(builder)
    {
      hide Inv, Render, Frames, LastBuilt, ResumePosition, AllStorable, OffsetOf, OffsetMap;
      ghost var before := Abs();
      offsets, lastOffset, fault := BatchWrite0(data);
      if !fault.NoFault? && !fault.FileFault? {
        return;
      }
      var triggered := TryTriggerBuildIndex();
      if !triggered {
        fault := if fault.FileFault? then FileAndTriggerFault else TriggerFault;
        return;
      }
      CastRoundTrip(OffsetOf(before.writer.value, |data| - 1));
      localEnd := Some(AsI64(lastOffset));
    }

    /** One packet of the writer thread. */
    method BatchWrite(data: seq<Record>) returns (resp: WriteResp, fault: Fault)
      requires file.Valid() && localEnd.Some? && (data != [] ==> Batchable(file.codec, Abs(), data))
      modifies this`memEnd, this`localEnd, this`status, this`builder, this`builderMisses, file, store
      ensures file.Valid()
      ensures file.faults >= old(file.faults) && store.faults >= old(store.faults) && builderMisses >= old(builderMisses)
      ensures data == [] ==> resp.NoAnswer? && fault.NoFault? && Abs() == old(Abs())
      ensures data != [] ==>
        && Abs().(builder := old(builder)) == AfterBatch(file.codec, iden, old(Abs()), data, fault)
        && resp == Answer(old(Abs()), data, fault)
      ensures fault.NoFault? <==> Quiet(old(file.faults), old(store.faults), old(builderMisses))
      ensures fault.AfterAppend() <==> file.faults == old(file.faults)
      ensures builder ==
        if data != [] && old(Accepted(Abs(), data)) && (fault.NoFault? || fault.FileFault?) then Triggered(old(builder))
        else old(builder)
      ensures data != [] && !old(Accepted(Abs(), data)) ==> fault.NoFault?
      ensures data != [] ==>
        match resp
        case Written(offsets, _) => old(Accepted(Abs(), data)) && fault.NoFault? && offsets == OffsetMap(data, old(localEnd.value), |data|)
        case Failed => old(Accepted(Abs(), data)) && !fault.NoFault?
        case Refused(verdict) => !verdict.Accept? && verdict == Validate(old(status), metaEnd, old(localEnd.value), |data|)
        case NoAnswer => false
      ensures old(Sound()) && fault.NoFault? ==> Sound()
      ensures data != [] && old(Accepted(Abs(), data)) && fault.NoFault? && old(builder).None? && Render(iden, Finish) !in store.db ==>
        && builder.Some? && builder.value.phase == Reading && builder.value.base == memStart
        && builder.value.last == LastBuilt(iden, store.db) && builder.value.startPosition == ResumePosition(iden, store.db)
      ensures old(Sound()) && fault.NoFault? && data != [] ==>
        Leads(file.codec, iden, old(Abs()),
              if old(Accepted(Abs(), data)) && old(builder).None? && Render(iden, Finish) !in store.db then [Batch(data), BuilderStart] else [Batch(data)],
              Abs())
    {
      hide Inv, Render, Frames, LastBuilt, ResumePosition, AllStorable, Leads, OffsetOf, OffsetMap, Stamp;
      fault := NoFault;
      if data == [] {
        return NoAnswer, NoFault;
      }
      ghost var before := Abs();
      if Sound() { BatchLeads(file.codec, iden, before, data); }
      var verdict := WriteValidator(|data|);
      if !verdict.Accept? {
        return Refused(verdict), NoFault;
      }
      hide AfterBatch, Validate, IsEndOffset;
      var offsets, lastOffset;
      offsets, lastOffset, fault := AppendBatch(data);
      resp := if fault.NoFault? then Written(offsets, lastOffset) else Failed;
      if old(Sound()) && fault.NoFault? {
        TriggerLeads(file.codec, iden, before, data, AfterBatch(file.codec, iden, before, data, NoFault), Abs());
      }
    }

    /** No access has failed since the counts were taken. */
    ghost predicate Quiet(files: nat, saves: nat, missed: nat)
      reads this, file, store
    {
      file.faults == files && store.faults == saves && builderMisses == missed
    }

    static ghost function Answer(s: Seg, data: seq<Record>, fault: Fault): WriteResp
      requires s.writer.Some? && IsI64(s.writer.value) && (s.metaEnd.Some? ==> IsI64(s.metaEnd.value)) && data != []
    {
      var verdict := Validate(s.status, s.metaEnd, s.writer.value, |data|);
      if !verdict.Accept? then Refused(verdict)
      else if !fault.NoFault? then Failed
      else Written(OffsetMap(data, s.writer.value, |data|), AsU64(OffsetOf(s.writer.value, |data| - 1)))
    }
  }

  lemma BatchLeads(c: Codec, iden: Iden, s: Seg, data: seq<Record>)
    requires Inv(c, iden, s, None) && Batchable(c, s, data)
    ensures Leads(c, iden, s, [Batch(data)], AfterBatch(c, iden, s, data, NoFault))
    ensures Inv(c, iden, AfterBatch(c, iden, s, data, NoFault), None)
  {
    hide Inv, Leads, AfterBatch, Batchable;
    LeadsOne(c, iden, s, Batch(data));
    BatchStep(c, iden, s, data, None);
  }

  /** A builder that starts after the batch is one more step. */
  lemma TriggerLeads(c: Codec, iden: Iden, s: Seg, data: seq<Record>, mid: Seg, t: Seg)
    requires Inv(c, iden, s, None) && Leads(c, iden, s, [Batch(data)], mid) && Inv(c, iden, mid, None) && t.(builder := mid.builder) == mid
    requires
      t.builder ==
      if mid.builder.None? && Render(iden, Finish) !in mid.db then
        Some(Builder(mid.memStart, ResumePosition(iden, mid.db), LastBuilt(iden, mid.db), Reading))
      else mid.builder
    ensures Leads(c, iden, s, if mid.builder.None? && Render(iden, Finish) !in mid.db then [Batch(data), BuilderStart] else [Batch(data)], t)
    ensures Inv(c, iden, t, None)
  {
    hide Inv, Leads, Render, ResumePosition, LastBuilt;
    assert [Batch(data)] + [BuilderStart] == [Batch(data), BuilderStart];
    if t.builder != mid.builder {
      LeadsThen(c, iden, s, [Batch(data)], mid, BuilderStart);
      StepKeepsInv(c, iden, mid, BuilderStart, None);
    }
  }

  /** A batch with any outcome but a failed save of the end offset, and a restart after it, come to one step of
      the machine: whatever `BatchWrite` leaves, `LoadLocalSegment` can load. */
  lemma RestartAfterBatch(c: Codec, iden: Iden, s: Seg, data: seq<Record>, fault: Fault, mid: Seg, loaded: Option<Status>)
    requires Inv(c, iden, s, None) && Batchable(c, s, data) && !fault.EndOffsetFault?
    requires mid.(builder := s.builder) == AfterBatch(c, iden, s, data, fault)
    ensures Enabled(c, iden, mid, Restart(loaded))
    ensures Leads(c, iden, s, [StopInBatch(data, fault, loaded)], Step(c, iden, mid, Restart(loaded)))
    ensures Inv(c, iden, Step(c, iden, mid, Restart(loaded)), None)
  {
    hide Inv, AfterBatch, Batchable, Render, Leads;
    StopStep(c, iden, s, data, fault, loaded, None);
    LeadsOne(c, iden, s, StopInBatch(data, fault, loaded));
  }
}
