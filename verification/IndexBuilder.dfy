/** The code of one round of the index builder, tied write by write to the state machine. */
module IndexBuilders {
  import opened Options
  import opened Bytes
  import opened SegmentLog
  import opened SegmentFiles
  import opened Store
  import opened Keys
  import opened JournalSystem
  import opened JournalInvariant
  import opened JournalRuns
  import opened JournalTheorems
  import opened JournalBounds
  import opened SegmentNodes

  /** The state in the middle of a round: `w` writes into record `d` of `data`. */
  ghost function At(s: Seg, db: Db, data: seq<ReadData>, d: nat, w: nat): Seg
    requires s.builder.Some?
  {
    s.(db := db, builder := Some(s.builder.value.(phase := Saving(data, d, w))))
  }

  predicate NoNegative(data: seq<ReadData>) { forall k :: 0 <= k < |data| ==> data[k].record.offset >= 0 }

  /** Where each write for a record stands in the list of its writes. */
  lemma WriteLayout(rd: ReadData, base: int)
    requires rd.record.offset >= 0
    ensures
      var ws, r, v := RecordWrites(rd, base), rd.record, Index(EntryFor(rd));
      var a := if rd.position == 0 then 1 else 0;
      var p := if SparseAt(r.offset, base) then 2 else 0;
      var k := if r.key != "" then 1 else 0;
      && |ws| == a + p + k + |r.tags|
      && (a == 1 ==> ws[0] == (OffsetStart, Num(r.offset)))
      && (p == 2 ==> ws[a] == (Position(r.offset), v) && ws[a + 1] == (Time(r.createTime), v))
      && (k == 1 ==> ws[a + p] == (Key(r.key, r.offset), v))
      && (forall i :: 0 <= i < |r.tags| ==> ws[a + p + k + i] == (Tag(r.tags[i], r.offset), v))
  {
    hide SparseAt, TagWrites;
    var r, e := rd.record, EntryFor(rd);
    var x := if rd.position == 0 then [(OffsetStart, Num(r.offset))] else [];
    var y := if SparseAt(r.offset, base) then [(Position(r.offset), Index(e)), (Time(r.createTime), Index(e))] else [];
    var z := if r.key != "" then [(Key(r.key, r.offset), Index(e))] else [];
    var ws, tags := RecordWrites(rd, base), TagWrites(r.tags, e);
    assert ws == x + y + z + tags;
    PartsOf(x, y, z, tags);
  }

  lemma PartsOf<T>(x: seq<T>, y: seq<T>, z: seq<T>, u: seq<T>)
    ensures |x + y + z + u| == |x| + |y| + |z| + |u|
    ensures forall i :: 0 <= i < |x| ==> (x + y + z + u)[i] == x[i]
    ensures forall i :: 0 <= i < |y| ==> (x + y + z + u)[|x| + i] == y[i]
    ensures forall i :: 0 <= i < |z| ==> (x + y + z + u)[|x| + |y| + i] == z[i]
    ensures forall i :: 0 <= i < |u| ==> (x + y + z + u)[|x| + |y| + |z| + i] == u[i]
  {}

  /** One save of the builder: one step of the machine, or none if it fails. */
  method SaveEntry(store: RocksStore, ghost c: Codec, iden: Iden, n: Name, v: Value,
                   ghost s: Seg, ghost es: seq<Event>, ghost data: seq<ReadData>, ghost d: nat, ghost w: nat)
      returns (ok: bool, ghost es': seq<Event>)
    requires s.builder.Some? && d < |data| && data[d].record.offset >= 0
    requires w < |RecordWrites(data[d], s.builder.value.base)| && RecordWrites(data[d], s.builder.value.base)[w] == (n, v)
    requires Leads(c, iden, s, es, At(s, store.db, data, d, w))
    modifies store
    ensures Leads(c, iden, s, es', At(s, store.db, data, d, if ok then w + 1 else w))
    ensures store.faults == old(store.faults) + if ok then 0 else 1
  {
    hide RecordWrites, Leads, Render;
    ghost var before := At(s, store.db, data, d, w);
    ok := store.Save(Render(iden, n), v);
    es' := es;
    if ok {
      LeadsThen(c, iden, s, es, before, BuilderSave);
      es' := es + [BuilderSave];
      assert Step(c, iden, before, BuilderSave) == At(s, store.db, data, d, w + 1);
    }
  }

  /** The saves for one record, in the order of the source; stops at the first that fails. */
  method SaveRecord(store: RocksStore, ghost c: Codec, iden: Iden, base: int, rd: ReadData,
                    ghost s: Seg, ghost es: seq<Event>, ghost data: seq<ReadData>, ghost d: nat)
      returns (ok: bool, ghost es': seq<Event>, ghost w: nat)
    requires s.builder.Some? && s.builder.value.base == base
    requires d < |data| && data[d] == rd && rd.record.offset >= 0
    requires Leads(c, iden, s, es, At(s, store.db, data, d, 0))
    modifies store
    ensures w <= |RecordWrites(rd, base)| && (ok ==> w == |RecordWrites(rd, base)|)
    ensures Leads(c, iden, s, es', At(s, store.db, data, d, w))
    ensures store.faults == old(store.faults) + if ok then 0 else 1
  {
    hide RecordWrites, Leads, SparseAt, At;
    var record := rd.record;
    var entry := Index(EntryFor(rd));
    WriteLayout(rd, base);
    w, es' := 0, es;
    if rd.position == 0 {
      ok, es' := SaveEntry(store, c, iden, OffsetStart, Num(record.offset), s, es', data, d, w);
      if !ok { return; }
      w := w + 1;
    }
    if SparseAt(record.offset, base) {
      ok, es' := SaveEntry(store, c, iden, Position(record.offset), entry, s, es', data, d, w);
      if !ok { return; }
      w := w + 1;
      ok, es' := SaveEntry(store, c, iden, Time(record.createTime), entry, s, es', data, d, w);
      if !ok { return; }
      w := w + 1;
    }
    if record.key != "" {
      ok, es' := SaveEntry(store, c, iden, Key(record.key, record.offset), entry, s, es', data, d, w);
      if !ok { return; }
      w := w + 1;
    }
    ghost var front := w;
    for i := 0 to |record.tags|
      invariant w == front + i
      invariant Leads(c, iden, s, es', At(s, store.db, data, d, w)) && store.faults == old(store.faults)
    {
      ok, es' := SaveEntry(store, c, iden, Tag(record.tags[i], record.offset), entry, s, es', data, d, w);
      if !ok { return; }
      w := w + 1;
    }
    ok := true;
  }

  /** `save_record_index`: the saves for every record read, up to the first that fails. */
  method SaveRecordIndex(store: RocksStore, ghost c: Codec, iden: Iden, base: int, data: seq<ReadData>, ghost s: Seg, ghost es: seq<Event>)
      returns (ok: bool, ghost es': seq<Event>, ghost d: nat, ghost w: nat)
    requires s.builder.Some? && s.builder.value.base == base && NoNegative(data)
    requires Leads(c, iden, s, es, At(s, store.db, data, 0, 0))
    modifies store
    ensures d <= |data| && (ok ==> d == |data| && w == 0)
    ensures Leads(c, iden, s, es', At(s, store.db, data, d, w))
    ensures store.faults == old(store.faults) + if ok then 0 else 1
  {
    hide RecordWrites, Leads;
    es', d, w := es, 0, 0;
    for i := 0 to |data|
      invariant d == i && w == 0
      invariant Leads(c, iden, s, es', At(s, store.db, data, d, w)) && store.faults == old(store.faults)
    {
      ok, es', w := SaveRecord(store, c, iden, base, data[i], s, es', data, d);
      if !ok { return; }
      ghost var before := At(s, store.db, data, d, w);
      LeadsThen(c, iden, s, es', before, BuilderAdvance);
      es' := es' + [BuilderAdvance];
      d, w := d + 1, 0;
      assert Step(c, iden, before, BuilderAdvance) == At(s, store.db, data, d, w);
    }
    ok := true;
  }

  /** What a round makes of state `s`: nothing when there is nothing to read; otherwise, without a failed
      save, the records read are indexed and their last offset is kept and saved. */
  ghost predicate RoundResult(c: Codec, iden: Iden, s: Seg, t: Seg, clean: bool)
    requires ReadReady(c, s)
  {
    var bd, data := s.builder.value, NextRead(c, s.log, s.builder.value);
    if data == [] || bd.startPosition >= TWO_63 then t == s
    else
      var last := data[|data| - 1].record.offset;
      && (clean ==> last >= 0 && t.builder == Some(bd.(last := last)) && Holds(t.db, Render(iden, LastOffset), Num(last)))
      && (!clean ==> t.builder == Some(bd) || (last >= 0 && t.builder == Some(bd.(last := last))))
  }

  /** One round of the builder's loop: read, index what was read, save the last offset. */
  method BuildRound(node: SegmentNode) returns (ghost es: seq<Event>)
    requires node.Sound() && node.builder.Some? && node.builder.value.phase.Reading?
    modifies node`builder, node.store
    ensures node.Sound() && unchanged(node.file)
    ensures Leads(node.file.codec, node.iden, old(node.Abs()), es, node.Abs())
    ensures ReadReady(node.file.codec, old(node.Abs()))
    ensures RoundResult(node.file.codec, node.iden, old(node.Abs()), node.Abs(), node.store.faults == old(node.store.faults))
    ensures node.store.faults >= old(node.store.faults)
    ensures node.builder.Some? && node.builder.value.phase.Reading? && node.builder.value.startPosition == old(node.builder.value.startPosition)
  {
    hide Inv, Leads, NextRead, ReadFrom, Frames, Render, Step, Enabled, ReadReady;
    ghost var c, iden, s := node.file.codec, node.iden, node.Abs();
    var bd := node.builder.value;
    es := [];
    assert Leads(c, iden, s, es, s) by { LeadsNowhere(c, iden, s); }
    ReadReadyHere(c, iden, s);
    var read := node.file.ReadByOffset(bd.startPosition, bd.last, BATCH_BYTES, BATCH_RECORDS);
    if bd.startPosition < TWO_63 { RoundRead(c, iden, s, read); }
    if read.Err? || read.data == [] {
      return;
    }
    var data := read.data;
    LeadsThen(c, iden, s, es, s, BuilderRead);
    es := es + [BuilderRead];
    var ok;
    ghost var d, w;
    ok, es, d, w := SaveRecordIndex(node.store, c, node.iden, bd.base, data, s, es);
    ghost var db := node.store.db;
    AfterSaves(c, iden, s, db, data, d, w);
    if !ok {
      LeadsThen(c, iden, s, es, At(s, db, data, d, w), BuilderSaveFails);
      es := es + [BuilderSaveFails];
      LeadsKeepInv(c, iden, s, es, node.Abs());
      return;
    }
    LeadsThen(c, iden, s, es, At(s, db, data, d, w), BuilderDone);
    es := es + [BuilderDone];
    var last := data[|data| - 1].record.offset;
    node.builder := Some(bd.(last := last));
    ok := node.store.Save(Render(node.iden, LastOffset), Num(last));
    ghost var e := if ok then BuilderCommit else BuilderCommitFails;
    LeadsThen(c, iden, s, es, Done(s, db, data), e);
    es := es + [e];
    LeadsKeepInv(c, iden, s, es, node.Abs());
  }

  /** After a round without a failed save everything read so far is indexed. */
  lemma RoundIndexes(c: Codec, iden: Iden, s: Seg, t: Seg, j: nat)
    requires ReadReady(c, s) && RoundResult(c, iden, s, t, true) && Inv(c, iden, t, None) && t.builder.Some?
    requires s.builder.value.startPosition < TWO_63 && NextRead(c, s.log, s.builder.value) != [] && j <= t.builder.value.last
    ensures j < |t.log| && Indexed(c, iden, t.db, t.log, j, None)
  {
    hide NextRead, Indexed, Render;
    assert Truthful(c, iden, t.db, t.log, LastOffset, t.db[Render(iden, LastOffset)], None);
  }

  // ---------------------------------------------------------------- many rounds

  /** The saved frontier is the last record. */
  predicate Covered(iden: Iden, s: Seg) { Render(iden, LastOffset) in s.db && LastBuilt(iden, s.db) == |s.log| - 1 }

  /** No record but possibly the last is larger than 10 MiB. */
  predicate NoneTooLarge(c: Codec, log: seq<Record>) { forall j :: 0 <= j < |log| - 1 ==> c.Size(log[j]) <= 10485760 }

  /** After `k` rounds without a failed save: the frontier is saved, and if no record holds the builder up,
      it has moved by as many records or reached the last. */
  ghost predicate Moved(c: Codec, iden: Iden, s: Seg, k: nat)
  {
    s.builder.Some? &&
    var last := s.builder.value.last;
    && (k > 0 ==> Holds(s.db, Render(iden, LastOffset), Num(last)))
    && (NoneTooLarge(c, s.log) ==> last >= k || last >= |s.log| - 1)
  }

  lemma MovedOn(c: Codec, iden: Iden, s: Seg, t: Seg, k: nat)
    requires Inv(c, iden, s, None) && ReadReady(c, s) && s.log != [] && s.builder.value.startPosition < TWO_63
    requires Moved(c, iden, s, k) && RoundResult(c, iden, s, t, true) && t.log == s.log
    ensures Moved(c, iden, t, k + 1)
  {
    hide Inv, ReadReady, Render, NextRead;
    ReadEnds(c, iden, s);
  }

  /** Enough rounds without a failed save bring a builder of a run to the end of its file exactly when no
      record before the last is larger than 10 MiB.  The source goes on for ever; here `rounds` says how
      long it is watched, and nothing is appended meanwhile. */
  method BuildRounds(node: SegmentNode, rounds: nat, ghost run: seq<Seg>, ghost before: seq<Event>) returns (ghost es: seq<Event>)
    requires node.Sound() && node.builder.Some? && node.builder.value.phase.Reading?
    requires node.file.log != [] && Pos(node.file.codec, node.file.log, |node.file.log|) < TWO_63
    requires IsRun(node.file.codec, node.iden, run, before) && run[|before|] == node.Abs()
    modifies node`builder, node.store
    ensures node.Sound() && unchanged(node.file)
    ensures Leads(node.file.codec, node.iden, old(node.Abs()), es, node.Abs())
    ensures node.store.faults == old(node.store.faults) && rounds >= |node.file.log| ==>
      (Covered(node.iden, node.Abs()) <==> NoneTooLarge(node.file.codec, node.file.log))
  {
    hide Inv, Leads, IsRun, RoundResult, Moved, ReadReady, Pos, Frames, Render;
    ghost var c, iden, s := node.file.codec, node.iden, node.Abs();
    StartInFile(c, iden, s);
    NotMoved(c, iden, s);
    LeadsNowhere(c, iden, s);
    es := [];
    for k := 0 to rounds
      invariant node.Sound() && node.builder.Some? && node.builder.value.phase.Reading? && unchanged(node.file)
      invariant node.builder.value.startPosition == s.builder.value.startPosition
      invariant Leads(c, iden, s, es, node.Abs()) && node.store.faults >= old(node.store.faults)
      invariant node.store.faults == old(node.store.faults) ==> Moved(c, iden, node.Abs(), k)
    {
      ghost var now, faults := node.Abs(), node.store.faults;
      ghost var more := BuildRound(node);
      LeadsTrans(c, iden, s, es, now, more, node.Abs());
      es := es + more;
      if node.store.faults == faults && faults == old(node.store.faults) { MovedOn(c, iden, now, node.Abs(), k); }
    }
    ghost var whole := LeadsExtends(c, iden, run, before, es, node.Abs());
    if node.store.faults == old(node.store.faults) && rounds >= |node.file.log| {
      CoveredIff(c, iden, whole, before + es, node.Abs(), rounds);
    }
  }

  lemma NotMoved(c: Codec, iden: Iden, s: Seg)
    requires s.builder.Some?
    ensures Moved(c, iden, s, 0)
  {}

  lemma StartInFile(c: Codec, iden: Iden, s: Seg)
    requires Inv(c, iden, s, None) && s.builder.Some? && Pos(c, s.log, |s.log|) < TWO_63
    ensures s.builder.value.startPosition < TWO_63
  {
    hide DbInv, PhaseInv, Pos;
    ReachesRecord(c, iden, s, None);
    PosMonotone(c, s.log, FrameIndex(c, s.log, s.builder.value.startPosition), |s.log|);
  }

  lemma CoveredIff(c: Codec, iden: Iden, run: seq<Seg>, es: seq<Event>, s: Seg, k: nat)
    requires IsRun(c, iden, run, es) && |run| == |es| + 1 && run[|es|] == s && s.log != [] && k >= |s.log|
    requires Inv(c, iden, s, None) && Moved(c, iden, s, k)
    ensures Covered(iden, s) <==> NoneTooLarge(c, s.log)
  {
    hide IsRun, Render, DbInv, PhaseInv;
    if !NoneTooLarge(c, s.log) {
      var j :| 0 <= j < |s.log| - 1 && c.Size(s.log[j]) > BATCH_BYTES;
      HeldUpForGood(c, iden, run, es, |es|, j);
    }
  }

  // ---------------------------------------------------------------- the steps of a round

  /** The state after the saves of a round, before the last offset is saved. */
  ghost function Done(s: Seg, db: Db, data: seq<ReadData>): Seg
    requires s.builder.Some? && data != [] && NoNegative(data)
  {
    s.(db := db, builder := Some(s.builder.value.(last := data[|data| - 1].record.offset, phase := Committing)))
  }

  /** The steps that can follow the saves of a round, and where they lead. */
  lemma AfterSaves(c: Codec, iden: Iden, s: Seg, db: Db, data: seq<ReadData>, d: nat, w: nat)
    requires s.builder.Some? && s.builder.value.phase.Reading? && data != [] && NoNegative(data)
    ensures
      var saved, done, bd := At(s, db, data, d, w), Done(s, db, data), s.builder.value;
      var last := data[|data| - 1].record.offset;
      && Enabled(c, iden, saved, BuilderSaveFails) && Step(c, iden, saved, BuilderSaveFails) == s.(db := db)
      && (d == |data| ==> Enabled(c, iden, saved, BuilderDone) && Step(c, iden, saved, BuilderDone) == done)
      && Enabled(c, iden, done, BuilderCommit) && Enabled(c, iden, done, BuilderCommitFails)
      && Step(c, iden, done, BuilderCommit) == s.(db := db[Render(iden, LastOffset) := Num(last)], builder := Some(bd.(last := last)))
      && Step(c, iden, done, BuilderCommitFails) == s.(db := db, builder := Some(bd.(last := last)))
  {
    hide Render;
  }

  lemma LeadsNowhere(c: Codec, iden: Iden, s: Seg)
    ensures Leads(c, iden, s, [], s)
  {}

  lemma ReadReadyHere(c: Codec, iden: Iden, s: Seg)
    requires Inv(c, iden, s, None) && s.builder.Some? && s.builder.value.phase.Reading?
    ensures ReadReady(c, s) && AllStorable(c, s.log)
  {
    hide DbInv, Indexed;
    ReachesRecord(c, iden, s, None);
  }

  /** What the file read returns is what the machine reads. */
  lemma RoundRead(c: Codec, iden: Iden, s: Seg, read: ReadResult)
    requires Inv(c, iden, s, None) && ReadReady(c, s) && s.builder.value.startPosition < TWO_63
    requires
      var bd := s.builder.value;
      forall i :: 0 <= i <= |s.log| && Pos(c, s.log, i) == bd.startPosition && bd.startPosition < TWO_63 ==>
        read == Ok(ReadFrom(c, s.log, i, bd.last, BATCH_BYTES, Max1(BATCH_RECORDS), 0))
    ensures read == Ok(NextRead(c, s.log, s.builder.value)) && NoNegative(read.data)
    ensures Enabled(c, iden, s, BuilderRead)
    ensures read.data != [] ==> Step(c, iden, s, BuilderRead) == At(s, s.db, read.data, 0, 0)
  {
    hide DbInv, Indexed, Pos, RecordWrites;
    ReachesRecord(c, iden, s, None);
    var bd := s.builder.value;
    var at := FrameIndex(c, s.log, bd.startPosition);
    ReadIsSlice(c, s.log, at, bd.last, BATCH_BYTES, BATCH_RECORDS, 0);
  }
}
