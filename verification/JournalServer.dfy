/** The write request on the server: the segments of a request in turn, each through its writer thread. */
module JournalServers {
  import opened Options
  import opened Bytes
  import opened SegmentLog
  import opened Segments
  import opened Store
  import opened Keys
  import opened JournalSystem
  import opened JournalInvariant
  import opened JournalRuns
  import opened JournalBounds
  import opened SegmentNodes
  import opened ClientBatch

  /** The server's answer for one segment: packet ids with offsets, in no particular order. */
  datatype SegResp = SegResp(iden: Iden, messages: seq<(nat, nat)>)

  // ---------------------------------------------------------------- what a request asks for

  /** Message `m` is stored at offset `o`. */
  predicate StoredAt(log: seq<Record>, o: nat, m: ReqMessage)
  {
    && o < |log| && log[o].offset == o
    && log[o].key == m.key && log[o].content == m.value && log[o].tags == m.tags && log[o].pkid == m.pkid
  }

  predicate OwnIds(req: SegReq) { forall i, j :: 0 <= i < j < |req.messages| ==> req.messages[i].pkid != req.messages[j].pkid }

  predicate OnePerSegment(segs: seq<SegReq>) { forall i, j :: 0 <= i < j < |segs| ==> segs[i].iden != segs[j].iden }

  /** The answer names, for every message, its packet id and the offset it was given, and nothing else. */
  ghost predicate Answers(req: SegReq, base: nat, answer: seq<(nat, nat)>)
  {
    && (forall i :: 0 <= i < |req.messages| ==> (req.messages[i].pkid, base + i) in answer)
    && (forall x :: x in answer ==> exists i :: 0 <= i < |req.messages| && x == (req.messages[i].pkid, base + i))
  }

  /** The messages were appended to the log, in order. */
  ghost predicate Appended(req: SegReq, before: seq<Record>, after: seq<Record>)
  {
    && before <= after && |after| == |before| + |req.messages| && Contiguous(after)
    && forall i :: 0 <= i < |req.messages| ==> StoredAt(after, |before| + i, req.messages[i])
  }

  /** Whatever packet id, time and offset they are given, these make a record for segment `s` that
      encodes to less than 4 GiB. */
  ghost predicate Encodable(c: Codec, s: Iden, key: string, content: seq<byte>, tags: seq<string>)
  {
    forall pkid: u64, time: u64, offset: i64 ::
      c.Size(Record("", pkid, key, content, time, tags, offset, s.namespace, s.shardName, s.segmentSeq)) < TWO_32
  }

  ghost predicate AllEncodable(c: Codec, req: SegReq)
  {
    forall i :: 0 <= i < |req.messages| ==> Encodable(c, req.iden, req.messages[i].key, req.messages[i].value, req.messages[i].tags)
  }

  function ToRecord(s: Iden, m: ReqMessage, now: u64): Record
  {
    Record("", m.pkid, m.key, m.value, now, m.tags, -1, s.namespace, s.shardName, s.segmentSeq)
  }

  predicate MadeFrom(r: Record, s: Iden, m: ReqMessage) { r == ToRecord(s, m, r.createTime) }

  predicate AllMadeFrom(records: seq<Record>, req: SegReq)
  {
    |records| == |req.messages| && forall i :: 0 <= i < |records| ==> MadeFrom(records[i], req.iden, req.messages[i])
  }

  // ---------------------------------------------------------------- the state of a segment

  /** The writer's side of a segment is in order: thread, memory and file agree, and the start offset in
      memory is unknown or 0.  Every state of every run is. */
  ghost predicate Ready(c: Codec, s: Seg)
  {
    WriterInv(c, s) && (s.memStart == -1 || (s.memStart == 0 && s.log != []))
  }

  lemma RunsAreReady(c: Codec, iden: Iden, run: seq<Seg>, es: seq<Event>, i: nat)
    requires IsRun(c, iden, run, es) && i < |run|
    ensures Ready(c, run[i])
  {
    hide IsRun, DbInv, Render;
    RunsKeepBase(c, iden, run, es, i);
    RunsKeepInv(c, iden, run, es, i, None);
  }

  /** The writer takes `n` messages: it knows the segment, it is not sealed, they do not pass its end, and
      there is something to write and room for it. */
  predicate Takes(s: Seg, n: nat)
  {
    && n > 0 && |s.log| + n < TWO_63 && (s.metaEnd.Some? ==> IsI64(s.metaEnd.value))
    && Validate(s.status, s.metaEnd, |s.log| - 1, n).Accept?
  }

  /** In the terms of the cache: the segment is known, not sealed, has metadata, and the batch ends at or before a
      positive end offset. */
  lemma TakesIff(s: Seg, n: nat)
    requires s.metaEnd.Some? ==> IsI64(s.metaEnd.value)
    ensures Takes(s, n) <==>
      && n > 0 && |s.log| + n < 0x8000_0000_0000_0000 && s.status.Some? && s.status != Some(SealUp) && s.metaEnd.Some?
      && (s.metaEnd.value > 0 ==> |s.log| - 1 + n <= s.metaEnd.value)
  {
    if n > 0 && |s.log| + n < TWO_63 { VerdictMeaning(s.status, s.metaEnd, |s.log| - 1, n); }
  }

  /** A batch of records made from a request can be given to the writer. */
  lemma CanBeGiven(c: Codec, s: Seg, req: SegReq, records: seq<Record>)
    requires Ready(c, s) && s.writer.Some? && AllMadeFrom(records, req) && AllEncodable(c, req)
    requires req.messages != [] && |s.log| + |req.messages| < TWO_63
    ensures Batchable(c, s, records) && (Accepted(s, records) <==> Takes(s, |req.messages|))
  {
    hide Validate;
    var stamped := Stamp(records, s.writer.value);
    forall i | 0 <= i < |stamped| ensures Storable(c, stamped[i]) {
      assert MadeFrom(records[i], req.iden, req.messages[i]);
      assert Encodable(c, req.iden, req.messages[i].key, req.messages[i].value, req.messages[i].tags);
      assert stamped[i] == ToRecord(req.iden, req.messages[i], records[i].createTime).(offset := stamped[i].offset);
    }
  }

  /** An accepted batch that reached the file is there, in order, whatever fails afterwards. */
  lemma BatchAppends(c: Codec, iden: Iden, s: Seg, req: SegReq, records: seq<Record>, fault: Fault)
    requires Ready(c, s) && AllMadeFrom(records, req) && req.iden == iden && Batchable(c, s, records)
    ensures
      var log := AfterBatch(c, iden, s, records, fault).log;
      if Accepted(s, records) && fault.AfterAppend() then Appended(req, s.log, log) else log == s.log
  {
    hide Render, Validate, StoredAt;
    if Accepted(s, records) && fault.AfterAppend() { AppendFacts(req, s.log, records); }
  }

  lemma AppendFacts(req: SegReq, log: seq<Record>, records: seq<Record>)
    requires Contiguous(log) && |log| + |req.messages| < TWO_63 && req.messages != [] && AllMadeFrom(records, req)
    ensures IsI64(|log| - 1) && Appended(req, log, log + Stamp(records, |log| - 1))
  {
    StampContiguous(log, records, |log| - 1);
    var after := log + Stamp(records, |log| - 1);
    forall i | 0 <= i < |req.messages| ensures StoredAt(after, |log| + i, req.messages[i]) {
      OffsetMeaning(|log| - 1, i);
      assert MadeFrom(records[i], req.iden, req.messages[i]);
      assert after[|log| + i] == records[i].(offset := |log| + i);
    }
  }

  /** Without a fault the segment is ready for the next batch. */
  lemma StaysReady(c: Codec, iden: Iden, s: Seg, records: seq<Record>)
    requires Ready(c, s) && Batchable(c, s, records)
    ensures Ready(c, AfterBatch(c, iden, s, records, NoFault))
  {
    hide Render;
    var localEnd := s.writer.value;
    if s.metaEnd.Some? { EndOffsetMeaning(s.metaEnd.value, localEnd, |records|); }
    StampContiguous(s.log, records, localEnd);
    OffsetMeaning(localEnd, |records| - 1);
  }

  // ---------------------------------------------------------------- the reported offsets

  lemma ReportFacts(req: SegReq, base: nat, records: seq<Record>, offsets: map<nat, nat>)
    requires base + |req.messages| < TWO_63 && |records| == |req.messages| && OwnIds(req)
    requires forall i :: 0 <= i < |records| ==> records[i].pkid == req.messages[i].pkid
    requires offsets == OffsetMap(records, base - 1, |records|)
    ensures forall id :: id in offsets ==> exists j :: 0 <= j < |req.messages| && req.messages[j].pkid == id
    ensures forall j :: 0 <= j < |req.messages| ==> req.messages[j].pkid in offsets && offsets[req.messages[j].pkid] == base + j
  {
    hide OffsetMap;
    OffsetMapExact(records, base - 1, |records|);
    forall j | 0 <= j < |req.messages| ensures req.messages[j].pkid in offsets && offsets[req.messages[j].pkid] == base + j {
      assert records[j].pkid == req.messages[j].pkid;
    }
  }

  lemma AnswerFacts(req: SegReq, base: nat, records: seq<Record>, offsets: map<nat, nat>, answer: seq<(nat, nat)>)
    requires base + |req.messages| < TWO_63 && AllMadeFrom(records, req) && OwnIds(req)
    requires offsets == OffsetMap(records, base - 1, |records|)
    requires forall id :: id in offsets ==> (id, offsets[id]) in answer
    requires forall x :: x in answer ==> x.0 in offsets && x.1 == offsets[x.0]
    ensures Answers(req, base, answer)
  {
    hide OffsetMap, Answers;
    assert forall i :: 0 <= i < |records| ==> records[i].pkid == req.messages[i].pkid;
    ReportFacts(req, base, records, offsets);
    PairFacts(req, base, offsets, answer);
  }

  lemma PairFacts(req: SegReq, base: nat, offsets: map<nat, nat>, answer: seq<(nat, nat)>)
    requires forall id :: id in offsets ==> (id, offsets[id]) in answer
    requires forall x :: x in answer ==> x.0 in offsets && x.1 == offsets[x.0]
    requires forall id :: id in offsets ==> exists j :: 0 <= j < |req.messages| && req.messages[j].pkid == id
    requires forall j :: 0 <= j < |req.messages| ==> req.messages[j].pkid in offsets && offsets[req.messages[j].pkid] == base + j
    ensures Answers(req, base, answer)
  {
    forall x | x in answer ensures exists i :: 0 <= i < |req.messages| && x == (req.messages[i].pkid, base + i) {
      var j :| 0 <= j < |req.messages| && req.messages[j].pkid == x.0;
      assert x == (req.messages[j].pkid, base + j);
    }
  }

  /** None of the offsets reported is the start offset in memory, so none is saved as such. */
  lemma {:induction false} StartNotReported(c: Codec, s: Seg, records: seq<Record>, n: nat)
    requires Ready(c, s) && s.writer.Some? && n <= |records| && |s.log| + |records| < TWO_63
    ensures AsU64(s.memStart) !in OffsetMap(records, s.writer.value, n).Values
  {
    hide WriterInv;
    if n > 0 {
      StartNotReported(c, s, records, n - 1);
      assert s.writer.value == |s.log| - 1 by { WriterValue(c, s); }
      OffsetMeaning(s.writer.value, n - 1);
    }
  }

  lemma WriterValue(c: Codec, s: Seg)
    requires WriterInv(c, s) && s.writer.Some?
    ensures s.writer.value == |s.log| - 1 && IsI64(s.writer.value)
  {}

  // ---------------------------------------------------------------- one segment

  function Opened(s: Seg): Seg { s.(writer := Some(s.memEnd)) }

  /** The thread's answer holds offsets exactly when it took the records and nothing failed. */
  ghost predicate AnswersAs(s: Seg, records: seq<Record>, fault: Fault, resp: WriteResp)
    requires IsI64(|s.log| - 1) && (s.metaEnd.Some? ==> IsI64(s.metaEnd.value)) && s.memEnd == |s.log| - 1
  {
    && (resp.Written? <==> Accepted(Opened(s), records) && fault.NoFault?)
    && (resp.Written? ==> resp.offsets == OffsetMap(records, |s.log| - 1, |records|))
  }

  /** A thread that starts now is in step. */
  lemma ThreadReady(c: Codec, s: Seg)
    requires Ready(c, s)
    ensures Ready(c, Opened(s)) && s.memEnd == |s.log| - 1 && IsI64(s.memEnd) && (s.metaEnd.Some? ==> IsI64(s.metaEnd.value))
    ensures s.writer.Some? ==> s == Opened(s)
  {}

  lemma NotTaken(s: Seg, n: nat)
    ensures s.status.None? || n == 0 || |s.log| + n >= TWO_63 ==> !Takes(s, n)
  {}

  /** What is known before records are given to the thread, and what then follows of its answer. */
  lemma GivenFacts(c: Codec, s: Seg, req: SegReq, records: seq<Record>)
    requires Ready(c, s) && AllMadeFrom(records, req) && AllEncodable(c, req)
    requires records != [] && |s.log| + |records| < TWO_63
    ensures s.memEnd == |s.log| - 1 && IsI64(s.memEnd) && (s.metaEnd.Some? ==> IsI64(s.metaEnd.value))
    ensures Batchable(c, Opened(s), records) && (Accepted(Opened(s), records) <==> Takes(s, |req.messages|))
    ensures Ready(c, AfterBatch(c, req.iden, Opened(s), records, NoFault))
    ensures forall fault :: AnswersAs(s, records, fault, SegmentNode.Answer(Opened(s), records, fault))
  {
    hide AllEncodable, Stamp, OffsetMap, Ready, AfterBatch, Batchable;
    var live := Opened(s);
    ThreadReady(c, s);
    CanBeGiven(c, live, req, records);
    StaysReady(c, req.iden, live, records);
  }

  lemma ReadyWhateverBuilder(c: Codec, s: Seg, t: Seg)
    requires Ready(c, s) && t.(builder := s.builder) == s
    ensures Ready(c, t)
  {}

  /** The records built from the messages of one segment; each takes the time of its making. */
  method BuildRecords(req: SegReq) returns (records: seq<Record>)
    ensures AllMadeFrom(records, req)
    ensures forall i :: 0 <= i < |records| ==>
      var r, m := records[i], req.messages[i];
      && r.pkid == m.pkid && r.key == m.key && r.content == m.value && r.tags == m.tags && r.producerId == ""
      && r.namespace == req.iden.namespace && r.shardName == req.iden.shardName && r.segment == req.iden.segmentSeq
  {
    records := [];
    for i := 0 to |req.messages|
      invariant |records| == i
      invariant forall j :: 0 <= j < i ==> MadeFrom(records[j], req.iden, req.messages[j])
    {
      var now: u64 :| true;
      records := records + [ToRecord(req.iden, req.messages[i], now)];
    }
  }

  /** The answer drawn from the offset map, in whatever order the map yields its entries. */
  method ListOffsets(offsets: map<nat, nat>) returns (answer: seq<(nat, nat)>)
    ensures forall id :: id in offsets ==> (id, offsets[id]) in answer
    ensures forall x :: x in answer ==> x.0 in offsets && x.1 == offsets[x.0]
  {
    answer := [];
    var left := offsets.Keys;
    while left != {}
      invariant left <= offsets.Keys
      invariant forall id :: id in offsets.Keys - left ==> (id, offsets[id]) in answer
      invariant forall x :: x in answer ==> x.0 in offsets && x.1 == offsets[x.0]
      decreases left
    {
      var id :| id in left;
      answer := answer + [(id, offsets[id])];
      left := left - {id};
    }
  }

  /** A segment as the server sees it, without the store that all share: its state, how much has failed
      before and after records could reach the file, and how much of that can harm the state. */
  datatype Look = Look(seg: Seg, early: nat, late: nat, harm: nat)

  ghost function LookOf(node: SegmentNode): Look
    reads node, node.file
  {
    Look(Seg(node.file.log, node.memStart, node.memEnd, node.status, node.metaEnd, node.localEnd, node.builder, map[]),
         node.misses + node.file.faults, node.builderMisses + node.timeouts, node.file.faults + node.builderMisses)
  }

  /** The messages are in the file exactly when the writer takes them and nothing fails before; the
      segment is answered exactly when, besides, nothing fails after. */
  ghost predicate NodeStep(l: Look, l': Look, req: SegReq, ok: bool, saved: bool, answer: seq<(nat, nat)>, appended: bool)
  {
    && l'.early >= l.early && l'.late >= l.late && (ok ==> l'.harm == l.harm)
    && (appended <==> Takes(l.seg, |req.messages|) && l'.early == l.early)
    && (ok <==> appended && l'.late == l.late && saved)
    && (if appended then Appended(req, l.seg.log, l'.seg.log) else l'.seg.log == l.seg.log)
    && (ok && OwnIds(req) ==> Answers(req, |l.seg.log|, answer))
  }

  /** One segment of a write request, through its writer thread, which is created when there is none. */
  method WriteNode(node: SegmentNode, req: SegReq) returns (ok: bool, answer: seq<(nat, nat)>, ghost appended: bool)
    requires node.iden == req.iden && node.file.Valid()
    requires Ready(node.file.codec, LookOf(node).seg) && AllEncodable(node.file.codec, req)
    modifies node, node.file, node.store
    ensures node.file.Valid() && node.store.faults >= old(node.store.faults)
    ensures NodeStep(old(LookOf(node)), LookOf(node), req, ok, node.store.faults == old(node.store.faults), answer, appended)
    ensures LookOf(node).harm == old(LookOf(node)).harm && node.store.faults == old(node.store.faults) ==> Ready(node.file.codec, LookOf(node).seg)
  {
    hide AllEncodable, Appended, Answers, Validate, Frames, AllMadeFrom, Ready, AllStorable, Takes, OwnIds, NodeStep;
    ok, answer, appended := false, [], false;
    ghost var l := LookOf(node);
    ThreadReady(node.file.codec, l.seg);
    NotTaken(l.seg, |req.messages|);
    if node.localEnd.None? {
      var created := node.CreateWriteThread();
      if !created {
        NodeNothing(l, LookOf(node), req, node.store.faults == old(node.store.faults));
        return;
      }
    }
    assert LookOf(node) == l.(seg := Opened(l.seg));
    var records := BuildRecords(req);
    assert |records| == |req.messages| by { Counted(records, req); }
    if node.memEnd + 1 + |records| >= TWO_63 || records == [] {
      NodeNothing(l, LookOf(node), req, node.store.faults == old(node.store.faults));
      return;
    }
    ok, answer, appended := GiveRecords(node, req, records);
    SinceOpened(l, LookOf(node), req, ok, node.store.faults == old(node.store.faults), answer, appended);
  }

  /** The records go to the running thread, whose answer may come too late. */
  method GiveRecords(node: SegmentNode, req: SegReq, records: seq<Record>) returns (ok: bool, answer: seq<(nat, nat)>, ghost appended: bool)
    requires node.iden == req.iden && node.file.Valid() && node.localEnd.Some?
    requires Ready(node.file.codec, LookOf(node).seg) && AllEncodable(node.file.codec, req) && AllMadeFrom(records, req)
    requires records != [] && |node.file.log| + |records| < TWO_63
    modifies node, node.file, node.store
    ensures node.file.Valid() && node.store.faults >= old(node.store.faults)
    ensures NodeStep(old(LookOf(node)), LookOf(node), req, ok, node.store.faults == old(node.store.faults), answer, appended)
    ensures LookOf(node).harm == old(LookOf(node)).harm && node.store.faults == old(node.store.faults) ==> Ready(node.file.codec, LookOf(node).seg)
  {
    hide AllEncodable, Appended, Answers, Stamp, OffsetMap, Validate, Batchable, AfterBatch, Inv, Leads, Frames, AllMadeFrom, Ready, AllStorable, Accepted, Takes, OwnIds, NodeStep;
    ok, answer := false, [];
    ghost var c, l, live := node.file.codec, LookOf(node), node.Abs();
    assert live == l.seg.(db := node.store.db);
    ReadyWhateverDb(c, l.seg, node.store.db);
    TakesWhateverDb(l.seg, node.store.db, |req.messages|);
    ThreadReady(c, live);
    Counted(records, req);
    GivenFacts(c, live, req, records);
    var resp, fault := node.BatchWrite(records);
    appended := Accepted(live, records) && fault.AfterAppend();
    BatchAppends(c, req.iden, live, req, records, fault);
    if fault.NoFault? {
      ReadyWhateverBuilder(c, AfterBatch(c, req.iden, live, records, NoFault), node.Abs());
      ReadyWhateverDb(c, node.Abs(), map[]);
    }
    if * {
      node.timeouts := node.timeouts + 1;
    } else if resp.Written? {
      // Of these offsets none is the start offset in memory, so the branch that would save it is dead.
      StartNotReported(c, live, records, |records|);
      answer := ListOffsets(resp.offsets);
      if OwnIds(req) { AnswerFacts(req, |live.log|, records, resp.offsets, answer); }
      ok := true;
    }
    NodeDone(l, LookOf(node), req, ok, node.store.faults == old(node.store.faults), answer, appended);
  }

  lemma SinceOpened(l: Look, l': Look, req: SegReq, ok: bool, saved: bool, answer: seq<(nat, nat)>, appended: bool)
    requires NodeStep(l.(seg := Opened(l.seg)), l', req, ok, saved, answer, appended)
    ensures NodeStep(l, l', req, ok, saved, answer, appended)
  {}

  lemma NodeNothing(l: Look, l': Look, req: SegReq, saved: bool)
    requires l'.early >= l.early && l'.late >= l.late && l'.seg.log == l.seg.log
    requires Takes(l.seg, |req.messages|) ==> l'.early != l.early
    ensures NodeStep(l, l', req, false, saved, [], false)
  {}

  lemma NodeDone(l: Look, l': Look, req: SegReq, ok: bool, saved: bool, answer: seq<(nat, nat)>, appended: bool)
    requires l'.early >= l.early && l'.late >= l.late && (ok ==> l'.harm == l.harm)
    requires appended <==> Takes(l.seg, |req.messages|) && l'.early == l.early
    requires ok <==> appended && l'.late == l.late && saved
    requires if appended then Appended(req, l.seg.log, l'.seg.log) else l'.seg.log == l.seg.log
    requires ok && OwnIds(req) ==> Answers(req, |l.seg.log|, answer)
    ensures NodeStep(l, l', req, ok, saved, answer, appended)
  {}

  lemma Counted(records: seq<Record>, req: SegReq)
    requires AllMadeFrom(records, req)
    ensures |records| == |req.messages|
  {}

  // ---------------------------------------------------------------- the server

  datatype View = View(segs: map<Iden, Look>, saves: nat)

  /** Nothing has failed that can harm a segment: no write of a file, no access to the store, no search for
      a builder's directory. */
  ghost predicate Calm(v: View, v': View)
  {
    v'.segs.Keys == v.segs.Keys && v'.saves == v.saves && forall s :: s in v.segs ==> v'.segs[s].harm == v.segs[s].harm
  }

  /** One segment of a request leads from `v` to `v'`. */
  ghost predicate SegStep(v: View, v': View, req: SegReq, ok: bool, answer: seq<(nat, nat)>, appended: bool)
  {
    && v'.segs.Keys == v.segs.Keys && v'.saves >= v.saves
    && (forall s :: s in v.segs && s != req.iden ==> v'.segs[s] == v.segs[s])
    && (req.iden !in v.segs ==> !ok && !appended)
    && (req.iden in v.segs ==> NodeStep(v.segs[req.iden], v'.segs[req.iden], req, ok, v'.saves == v.saves, answer, appended))
  }

  /** The writer takes the part of the request, and nothing fails. */
  ghost predicate Served(v: View, v': View, req: SegReq)
  {
    && req.iden in v.segs && req.iden in v'.segs && Takes(v.segs[req.iden].seg, |req.messages|)
    && v'.segs[req.iden].early == v.segs[req.iden].early && v'.segs[req.iden].late == v.segs[req.iden].late && v'.saves == v.saves
  }

  /** The segments answered so far, each a step from one view to the next. */
  ghost predicate Chain(views: seq<View>, segs: seq<SegReq>, status: seq<SegResp>)
  {
    && |views| == |status| + 1 && |status| <= |segs|
    && forall k :: 0 <= k < |status| ==> SegStep(views[k], views[k + 1], segs[k], true, status[k].messages, true) && status[k].iden == segs[k].iden
  }

  ghost predicate Fails(v: View, v': View, req: SegReq, appended: bool) { exists answer :: SegStep(v, v', req, false, answer, appended) }

  /** A request is handled segment by segment, up to the first that fails; `tail` tells whether the
      records of that one are in its file. */
  ghost predicate Handled(v: View, v': View, segs: seq<SegReq>, ok: bool, status: seq<SegResp>, tail: bool)
  {
    exists views :: Chain(views, segs, status) && views[0] == v &&
      if ok then |status| == |segs| && views[|status|] == v' && !tail
      else |status| < |segs| && Fails(views[|status|], v', segs[|status|], tail)
  }

  /** What that comes to when no segment occurs twice: the `stored` segments before the one that fails are written, and that
      one is exactly when its failure came after the append, which `tail` tells. */
  ghost predicate Outcome(v: View, v': View, segs: seq<SegReq>, ok: bool, status: seq<SegResp>, stored: nat, tail: bool)
  {
    && v'.segs.Keys == v.segs.Keys && |status| == stored <= |segs| && (ok <==> stored == |segs|) && (ok ==> !tail)
    && (forall s :: s in v.segs && (forall i :: 0 <= i < |segs| ==> segs[i].iden != s) ==> v'.segs[s] == v.segs[s])
    && (forall i :: 0 <= i < |segs| && segs[i].iden in v.segs ==>
          if i < stored || (i == stored && tail) then Appended(segs[i], v.segs[segs[i].iden].seg.log, v'.segs[segs[i].iden].seg.log)
          else v'.segs[segs[i].iden].seg.log == v.segs[segs[i].iden].seg.log)
    && (forall i :: 0 <= i < stored ==>
          segs[i].iden in v.segs && (OwnIds(segs[i]) ==> Answers(segs[i], |v.segs[segs[i].iden].seg.log|, status[i].messages)))
    && (ok <==> forall i :: 0 <= i < |segs| ==> Served(v, v', segs[i]))
    && (stored < |segs| ==>
          (tail <==>
           && segs[stored].iden in v.segs && Takes(v.segs[segs[stored].iden].seg, |segs[stored].messages|)
           && v'.segs[segs[stored].iden].early == v.segs[segs[stored].iden].early))
  }

  ghost predicate PartDone(v: View, v': View, req: SegReq, resp: SegResp)
  {
    && Served(v, v', req) && Appended(req, v.segs[req.iden].seg.log, v'.segs[req.iden].seg.log)
    && (OwnIds(req) ==> Answers(req, |v.segs[req.iden].seg.log|, resp.messages))
  }

  /** The first `|status|` segments of a request are written and answered, and nothing else has happened. */
  ghost predicate Progress(v: View, v': View, segs: seq<SegReq>, status: seq<SegResp>)
  {
    && v'.segs.Keys == v.segs.Keys && |status| <= |segs| && v'.saves == v.saves
    && (forall s :: s in v.segs && (forall k :: 0 <= k < |status| ==> segs[k].iden != s) ==> v'.segs[s] == v.segs[s])
    && (forall k :: 0 <= k < |status| ==> PartDone(v, v', segs[k], status[k]))
  }

  lemma ProgressStep(v: View, v1: View, v2: View, segs: seq<SegReq>, status: seq<SegResp>, resp: SegResp)
    requires OnePerSegment(segs) && Progress(v, v1, segs, status) && |status| < |segs|
    requires SegStep(v1, v2, segs[|status|], true, resp.messages, true)
    ensures Progress(v, v2, segs, status + [resp])
  {
    hide Appended, Answers, OwnIds, Takes, OnePerSegment;
    var i := |status|;
    OthersLater(segs, i);
    forall k | 0 <= k < i ensures PartDone(v, v2, segs[k], status[k]) { assert PartDone(v, v1, segs[k], status[k]); }
    assert PartDone(v, v2, segs[i], resp);
  }

  lemma RequestFails(v: View, v1: View, v2: View, segs: seq<SegReq>, status: seq<SegResp>, answer: seq<(nat, nat)>, tail: bool)
    requires OnePerSegment(segs) && Progress(v, v1, segs, status) && |status| < |segs|
    requires SegStep(v1, v2, segs[|status|], false, answer, tail)
    ensures Outcome(v, v2, segs, false, status, |status|, tail)
  {
    hide Appended, Answers, OwnIds, Takes, OnePerSegment;
    var stored := |status|;
    OthersLater(segs, stored);
    assert !Served(v, v2, segs[stored]);
    forall i | 0 <= i < |segs| && segs[i].iden in v.segs
      ensures if i < stored || (i == stored && tail) then Appended(segs[i], v.segs[segs[i].iden].seg.log, v2.segs[segs[i].iden].seg.log)
              else v2.segs[segs[i].iden].seg.log == v.segs[segs[i].iden].seg.log
    {
      if i < stored { assert PartDone(v, v1, segs[i], status[i]); }
      if i > stored { Unwritten(segs, stored, i); }
    }
    forall i | 0 <= i < stored ensures segs[i].iden in v.segs && (OwnIds(segs[i]) ==> Answers(segs[i], |v.segs[segs[i].iden].seg.log|, status[i].messages)) {
      assert PartDone(v, v1, segs[i], status[i]);
    }
  }

  lemma Unwritten(segs: seq<SegReq>, stored: nat, i: nat)
    requires OnePerSegment(segs) && stored < i < |segs|
    ensures forall k :: 0 <= k <= stored ==> segs[k].iden != segs[i].iden
  {}

  lemma {:induction false} ChainProgress(views: seq<View>, segs: seq<SegReq>, status: seq<SegResp>)
    requires OnePerSegment(segs) && Chain(views, segs, status)
    ensures Progress(views[0], views[|status|], segs, status)
    decreases |status|
  {
    hide SegStep, OnePerSegment, PartDone;
    if status != [] {
      var i := |status| - 1;
      ChainProgress(views[..i + 1], segs, status[..i]);
      assert SegStep(views[i], views[i + 1], segs[i], true, status[i].messages, true);
      ProgressStep(views[0], views[i], views[i + 1], segs, status[..i], status[i]);
      assert status[..i] + [status[i]] == status;
    }
  }

  lemma OutcomeOf(v: View, v': View, segs: seq<SegReq>, ok: bool, status: seq<SegResp>, tail: bool)
    requires Handled(v, v', segs, ok, status, tail) && OnePerSegment(segs)
    ensures Outcome(v, v', segs, ok, status, |status|, tail)
  {
    hide SegStep, Progress, Outcome, OnePerSegment;
    var views :| Chain(views, segs, status) && views[0] == v &&
      if ok then |status| == |segs| && views[|status|] == v' && !tail
      else |status| < |segs| && Fails(views[|status|], v', segs[|status|], tail);
    ChainProgress(views, segs, status);
    if ok {
      RequestDone(v, v', segs, status);
    } else {
      var answer :| SegStep(views[|status|], v', segs[|status|], false, answer, tail);
      RequestFails(v, views[|status|], v', segs, status, answer, tail);
    }
  }

  lemma RequestDone(v: View, v': View, segs: seq<SegReq>, status: seq<SegResp>)
    requires Progress(v, v', segs, status) && |status| == |segs|
    ensures Outcome(v, v', segs, true, status, |segs|, false)
  {
    hide Appended, Answers, OwnIds, Takes;
    forall i | 0 <= i < |segs| ensures PartDone(v, v', segs[i], status[i]) {}
  }

  class JournalServer {
    const codec: Codec
    const store: RocksStore
    const nodes: map<Iden, SegmentNode>

    ghost function Repr(): set<object>
    {
      {store} + (set s | s in nodes :: nodes[s] as object) + (set s | s in nodes :: nodes[s].file as object)
    }

    /** One store for all segments, one file and one name for each. */
    ghost predicate Wired()
    {
      && (forall s :: s in nodes ==> nodes[s].iden == s && nodes[s].store == store && nodes[s].file.codec == codec)
      && (forall a, b :: a in nodes && b in nodes && a != b ==> nodes[a].file != nodes[b].file && SegmentName(a) != SegmentName(b))
    }

    ghost predicate Valid()
      reads Repr()
    {
      Wired() && forall s :: s in nodes ==> nodes[s].file.Valid() && Ready(codec, LookOf(nodes[s]).seg)
    }

    ghost function Now(): View
      reads Repr()
      requires Wired()
    {
      View(map s | s in nodes :: LookOf(nodes[s]), store.faults)
    }

    constructor (codec: Codec, store: RocksStore, nodes: map<Iden, SegmentNode>)
      requires forall s :: s in nodes ==> nodes[s].iden == s && nodes[s].store == store && nodes[s].file.codec == codec
      requires forall s :: s in nodes ==> nodes[s].file.Valid() && Ready(codec, LookOf(nodes[s]).seg)
      requires forall a, b :: a in nodes && b in nodes && a != b ==> nodes[a].file != nodes[b].file && SegmentName(a) != SegmentName(b)
      ensures Valid() && this.codec == codec && this.store == store && this.nodes == nodes
    {
      hide Ready, Frames, SegmentName;
      this.codec, this.store, this.nodes := codec, store, nodes;
    }

    /** One segment of a write request. */
    method WriteSegment(req: SegReq) returns (ok: bool, answer: seq<(nat, nat)>, ghost appended: bool)
      requires Valid() && AllEncodable(codec, req)
      modifies Repr()
      ensures SegStep(old(Now()), Now(), req, ok, answer, appended)
      ensures Calm(old(Now()), Now()) ==> Valid()
    {
      hide Ready, AllEncodable, NodeStep, Frames, AllStorable, LookOf, Inv, Leads, SegmentName;
      ok, answer, appended := false, [], false;
      if req.iden in nodes {
        ghost var before := Now();
        ok, answer, appended := WriteNode(nodes[req.iden], req);
        forall s | s in nodes && s != req.iden
          ensures LookOf(nodes[s]) == before.segs[s] && nodes[s].file.Valid() && Ready(codec, LookOf(nodes[s]).seg)
        {
          assert nodes[s] != nodes[req.iden] && nodes[s].file != nodes[req.iden].file;
        }
      }
    }

    /** `write_data_req`: the segments of a request in turn, up to the first that fails. */
    method WriteDataReq(segs: seq<SegReq>) returns (ok: bool, status: seq<SegResp>, ghost tail: bool)
      requires Valid() && forall i :: 0 <= i < |segs| ==> AllEncodable(codec, segs[i])
      modifies Repr()
      ensures Handled(old(Now()), Now(), segs, ok, status, tail)
      ensures ok ==> Calm(old(Now()), Now())
      ensures Calm(old(Now()), Now()) ==> Valid()
    {
      hide Valid, AllEncodable, SegStep, LookOf, SegmentName, Calm, Chain;
      ok, status, tail := true, [], false;
      assert Wired() by { ValidWired(); }
      ghost var views := [Now()];
      assert Chain(views, segs, []) && Calm(views[0], Now()) by { CalmSame(Now(), segs); }
      for i := 0 to |segs|
        invariant ok && !tail && Valid() && |status| == i && |views| == i + 1 && Chain(views, segs, status) && views[0] == old(Now()) && views[i] == Now()
        invariant Calm(views[0], Now())
      {
        var answer;
        ok, answer, tail := WriteSegment(segs[i]);
        if !ok {
          assert Fails(views[i], Now(), segs[i], tail);
          if Calm(views[0], Now()) { CalmSince(views[0], views[i], Now()); }
          return;
        }
        AnsweredIsCalm(views[0], views[i], Now(), segs[i], answer, tail);
        CalmSince(views[0], views[i], Now());
        ChainStep(views, segs, status, Now(), answer);
        status, tail := status + [SegResp(segs[i].iden, answer)], false;
        views := views + [Now()];
      }
    }

    lemma ValidWired()
      requires Valid()
      ensures Wired()
    {}
  }

  lemma CalmSame(v: View, segs: seq<SegReq>)
    ensures Calm(v, v) && Chain([v], segs, [])
  {}

  lemma ChainStep(views: seq<View>, segs: seq<SegReq>, status: seq<SegResp>, v: View, answer: seq<(nat, nat)>)
    requires Chain(views, segs, status) && |status| < |segs| && |views| == |status| + 1
    requires SegStep(views[|status|], v, segs[|status|], true, answer, true)
    ensures Chain(views + [v], segs, status + [SegResp(segs[|status|].iden, answer)])
  {
    hide SegStep;
  }

  lemma CalmSince(v: View, v1: View, v2: View)
    requires Calm(v, v1) && Calm(v, v2)
    ensures Calm(v1, v2)
  {}

  lemma AnsweredIsCalm(v: View, v1: View, v2: View, req: SegReq, answer: seq<(nat, nat)>, appended: bool)
    requires Calm(v, v1) && SegStep(v1, v2, req, true, answer, appended)
    ensures appended && Calm(v, v2)
  {}

  lemma OthersLater(segs: seq<SegReq>, i: nat)
    requires OnePerSegment(segs) && i < |segs|
    ensures forall j :: 0 <= j < |segs| && j != i ==> segs[j].iden != segs[i].iden
  {}

  lemma TakesWhateverDb(s: Seg, db: Db, n: nat)
    ensures Takes(s.(db := db), n) == Takes(s, n)
  {}

  lemma ReadyWhateverDb(c: Codec, s: Seg, db: Db)
    requires Ready(c, s)
    ensures Ready(c, s.(db := db))
  {}
}
