/** What a batch does to a segment when one of its I/O steps fails. */
module BatchFaults {
  import opened Options
  import opened Bytes
  import opened SegmentLog
  import opened Segments
  import opened Store
  import opened Keys
  import opened JournalSystem

  /** Thread, memory, store and file agree on the end offset of a contiguous file. */
  ghost predicate Agree(iden: Iden, s: Seg)
  {
    && Contiguous(s.log) && |s.log| < TWO_63
    && s.writer == Some(|s.log| - 1) && s.memEnd == |s.log| - 1 == LoadI64(s.db, Render(iden, OffsetEnd))
  }

  /** From an agreeing state, a batch leaves the four copies agreeing exactly when it is rejected, or
      nothing fails, or the file write and then the trigger fail, or it is the file write alone that
      fails on a segment of exactly one record. */
  lemma FaultsBreakAgreement(c: Codec, iden: Iden, s: Seg, data: seq<Record>, fault: Fault)
    requires Agree(iden, s) && Batchable(c, s, data)
    ensures
      Agree(iden, AfterBatch(c, iden, s, data, fault)) <==>
      !Accepted(s, data) || fault.NoFault? || fault.FileAndTriggerFault? || (fault.FileFault? && |s.log| == 1)
  {
    hide Render;
    if Accepted(s, data) {
      StampContiguous(s.log, data, s.writer.value);
      OffsetMeaning(s.writer.value, |data| - 1);
      if Render(iden, OffsetEnd) == Render(iden, TimeEnd) { RenderInjective(iden, OffsetEnd, TimeEnd); }
    }
  }

  /** What an accepted batch leaves, fault by fault: nothing but a counter of 0 after a failed write, nothing at all
      if the trigger failed as well; otherwise the records are in the file, memory has the last of their
      offsets, the store has it if it was saved, and with it the time of the last record if that was saved
      too, and the thread has it if nothing failed. */
  lemma BatchLeft(c: Codec, iden: Iden, s: Seg, data: seq<Record>, fault: Fault)
    requires Agree(iden, s) && Batchable(c, s, data) && Accepted(s, data)
    ensures fault.FileFault? ==> AfterBatch(c, iden, s, data, fault) == s.(writer := Some(0))
    ensures fault.FileAndTriggerFault? ==> AfterBatch(c, iden, s, data, fault) == s
    ensures !fault.FileFault? && !fault.FileAndTriggerFault? ==>
      var t, last := AfterBatch(c, iden, s, data, fault), |s.log| + |data| - 1;
      && s.log <= t.log && |t.log| == last + 1 && t.memEnd == last
      && (forall k :: 0 <= k < |data| ==> t.log[|s.log| + k] == data[k].(offset := |s.log| + k))
      && t.writer == (if fault.NoFault? then Some(last) else s.writer)
      && t.db ==
         (if fault.EndOffsetFault? then s.db
          else if fault.EndTimeFault? then s.db[Render(iden, OffsetEnd) := Num(last)]
          else s.db[Render(iden, OffsetEnd) := Num(last)][Render(iden, TimeEnd) := Num(data[|data| - 1].createTime)])
      && t.memStart == s.memStart && t.status == s.status && t.metaEnd == s.metaEnd && t.builder == s.builder
  {
    hide Render, AllStorable, IsEndOffset, OffsetOf, Contiguous;
    StampContiguous(s.log, data, s.writer.value);
    forall k | 0 <= k < |data| ensures OffsetOf(s.writer.value, k) == |s.log| + k { OffsetMeaning(s.writer.value, k); }
  }

  /** Stopping and recreating the thread restores agreement after every fault but a failed save of the
      end offset. */
  lemma RecreatingHeals(c: Codec, iden: Iden, s: Seg, data: seq<Record>, fault: Fault)
    requires Agree(iden, s) && Batchable(c, s, data) && Accepted(s, data)
    ensures
      var after := AfterBatch(c, iden, s, data, fault);
      Agree(iden, after.(writer := Some(after.memEnd))) <==> !fault.EndOffsetFault?
  {
    hide Render;
    StampContiguous(s.log, data, s.writer.value);
    OffsetMeaning(s.writer.value, |data| - 1);
    if Render(iden, OffsetEnd) == Render(iden, TimeEnd) { RenderInjective(iden, OffsetEnd, TimeEnd); }
  }

  /** So does a restart, which is also what follows when the process stops between two of these steps. */
  lemma RestartHeals(c: Codec, iden: Iden, s: Seg, data: seq<Record>, fault: Fault, loaded: Option<Status>)
    requires Agree(iden, s) && Batchable(c, s, data) && Accepted(s, data)
    requires Enabled(c, iden, AfterBatch(c, iden, s, data, fault), Restart(loaded))
    ensures
      var after := Step(c, iden, AfterBatch(c, iden, s, data, fault), Restart(loaded));
      Agree(iden, after.(writer := Some(after.memEnd))) <==> !fault.EndOffsetFault?
  {
    hide Render;
    StampContiguous(s.log, data, s.writer.value);
    OffsetMeaning(s.writer.value, |data| - 1);
    if Render(iden, OffsetEnd) == Render(iden, TimeEnd) { RenderInjective(iden, OffsetEnd, TimeEnd); }
  }

  /** A batch that follows on a counter that lags or leads writes offsets that repeat or leave a gap:
      the file stays contiguous exactly when the counter is the last offset. */
  lemma NextBatchContiguous(c: Codec, iden: Iden, s: Seg, data: seq<Record>)
    requires Contiguous(s.log) && Batchable(c, s, data) && Accepted(s, data)
    requires -1 <= s.writer.value && s.writer.value + |data| < TWO_63
    ensures Contiguous(AfterBatch(c, iden, s, data, NoFault).log) <==> s.writer.value == |s.log| - 1
  {
    StampContiguous(s.log, data, s.writer.value);
  }

  /** Deleting a segment leaves its file behind, and a segment created again under its name takes that file
      over with an end offset of -1: its first batch is given the offsets from 0 again, and the file stays
      contiguous exactly when it was empty. */
  lemma RecreatedRepeats(c: Codec, iden: Iden, s: Seg, data: seq<Record>)
    requires Contiguous(s.log) && Batchable(c, s, data) && Accepted(s, data) && s.memEnd == -1 && s.writer == Some(s.memEnd)
    ensures
      var log := AfterBatch(c, iden, s, data, NoFault).log;
      && |log| == |s.log| + |data| && log[|s.log|].offset == 0
      && (Contiguous(log) <==> s.log == [])
  {
    StampContiguous(s.log, data, -1);
    OffsetMeaning(-1, 0);
  }
}
