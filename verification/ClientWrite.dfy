/** A batch of packages from the client to the segment files and back. */
module ClientWrite {
  import opened Bytes
  import opened SegmentLog
  import opened Keys
  import opened ClientBatch
  import opened JournalServers

  datatype Reply = Offset(offset: nat) | Error

  // ---------------------------------------------------------------- the way back

  /** Some part of the answer gives packet id `id` the offset `o`. */
  ghost predicate Says(status: seq<SegResp>, id: nat, o: nat)
  {
    exists i :: 0 <= i < |status| && (id, o) in status[i].messages
  }

  /** All answers in one map; of two for one packet id the later one stays. */
  method IndexReplies(status: seq<SegResp>) returns (byId: map<nat, nat>)
    ensures forall id :: id in byId ==> Says(status, id, byId[id])
    ensures forall id, o :: Says(status, id, o) ==> id in byId
  {
    byId := map[];
    for i := 0 to |status|
      invariant forall id :: id in byId ==> Says(status, id, byId[id])
      invariant forall j, id, o :: 0 <= j < i && (id, o) in status[j].messages ==> id in byId
    {
      var messages := status[i].messages;
      for k := 0 to |messages|
        invariant forall id :: id in byId ==> Says(status, id, byId[id])
        invariant forall j, id, o :: 0 <= j < i && (id, o) in status[j].messages ==> id in byId
        invariant forall m :: 0 <= m < k ==> messages[m].0 in byId
      {
        assert (messages[k].0, messages[k].1) in status[i].messages;
        byId := byId[messages[k].0 := messages[k].1];
      }
    }
  }

  function Filtered(byId: map<nat, nat>, ids: seq<nat>): seq<Reply>
  {
    if ids == [] then []
    else Filtered(byId, ids[..|ids| - 1]) + if ids[|ids| - 1] in byId then [Offset(byId[ids[|ids| - 1]])] else []
  }

  lemma {:induction false} FilteredWhole(byId: map<nat, nat>, ids: seq<nat>)
    requires forall k :: 0 <= k < |ids| ==> ids[k] in byId
    ensures |Filtered(byId, ids)| == |ids|
    ensures forall k :: 0 <= k < |ids| ==> Filtered(byId, ids)[k] == Offset(byId[ids[k]])
  {
    if ids != [] { FilteredWhole(byId, ids[..|ids| - 1]); }
  }

  /** The callback loop: for every package, in whatever order the map yields them, the replies to its
      packet ids in order; an id without a reply is passed over. */
  method Callbacks(byId: map<nat, nat>, ids: map<nat, seq<nat>>) returns (replies: map<nat, seq<Reply>>)
    ensures replies.Keys == ids.Keys
    ensures forall p :: p in ids ==> replies[p] == Filtered(byId, ids[p])
  {
    replies := map[];
    var left := ids.Keys;
    while left != {}
      invariant left <= ids.Keys && replies.Keys == ids.Keys - left
      invariant forall p :: p in replies ==> replies[p] == Filtered(byId, ids[p])
      decreases left
    {
      var p :| p in left;
      var results: seq<Reply> := [];
      for k := 0 to |ids[p]|
        invariant results == Filtered(byId, ids[p][..k])
      {
        assert ids[p][..k + 1][..k] == ids[p][..k];
        if ids[p][k] in byId {
          results := results + [Offset(byId[ids[p][k]])];
        }
      }
      assert ids[p][..|ids[p]|] == ids[p];
      replies := replies[p := results];
      left := left - {p};
    }
  }

  // ---------------------------------------------------------------- the whole way

  /** What the replies are computed from: every segment answered, all answers in one map. */
  ghost predicate Answered(before: map<Iden, seq<Record>>, w: seq<SegReq>, status: seq<SegResp>, byId: map<nat, nat>)
  {
    && |status| == |w|
    && (forall i :: 0 <= i < |w| ==> w[i].iden in before && Answers(w[i], |before[w[i].iden]|, status[i].messages))
    && (forall id :: id in byId ==> Says(status, id, byId[id]))
    && (forall id, o :: Says(status, id, o) ==> id in byId)
  }

  ghost predicate IsPkgId(pkgs: seq<Pkg>, id: nat) { exists q :: 0 <= q < |pkgs| && pkgs[q].id == id && pkgs[q].data != [] }

  /** Reply `r` to the `k`-th message of package `q` is the offset at which that message now stands in
      the file of the segment the package was sent to: past what was there before and the messages that came
      before it. */
  ghost predicate RightReply(before: map<Iden, seq<Record>>, after: map<Iden, seq<Record>>, pkgs: seq<Pkg>, q: nat, k: nat, r: Reply)
    requires q < |pkgs| && k < |pkgs[q].data|
  {
    var to, d := Target(pkgs, q), pkgs[q].data[k];
    && r.Offset? && to in before && to in after
    && r.offset == |before[to]| + Base(pkgs, q) + k < |after[to]| && after[to][r.offset].offset == r.offset
    && after[to][r.offset].key == d.key && after[to][r.offset].content == d.content && after[to][r.offset].tags == d.tags
  }

  /** Offset `o` of segment `s` was reported as the place of some message sent to `s`. */
  ghost predicate Accounted(pkgs: seq<Pkg>, replies: map<nat, seq<Reply>>, s: Iden, o: nat)
  {
    exists q: nat, k: nat :: Replied(pkgs, replies, q, k) && Target(pkgs, q) == s && replies[pkgs[q].id][k] == Offset(o)
  }

  /** Two messages sent to one segment are never given one offset. */
  ghost predicate NoneShared(pkgs: seq<Pkg>, replies: map<nat, seq<Reply>>)
  {
    forall q: nat, k: nat, q': nat, k': nat ::
      (&& Replied(pkgs, replies, q, k) && Replied(pkgs, replies, q', k')
       && Target(pkgs, q) == Target(pkgs, q') && replies[pkgs[q].id][k] == replies[pkgs[q'].id][k'])
      ==> q == q' && k == k'
  }

  predicate Replied(pkgs: seq<Pkg>, replies: map<nat, seq<Reply>>, q: nat, k: nat)
  {
    q < |pkgs| && pkgs[q].id in replies && k < |replies[pkgs[q].id]|
  }

  // ---------------------------------------------------------------- what a send does to the files

  ghost function LogsOf(v: View): map<Iden, seq<Record>> { map s | s in v.segs :: v.segs[s].seg.log }

  /** The messages of every package can be encoded for the segment they are sent to. */
  ghost predicate AllSmall(c: Codec, pkgs: seq<Pkg>)
  {
    forall q, k :: 0 <= q < |pkgs| && 0 <= k < |pkgs[q].data| ==>
      Encodable(c, Target(pkgs, q), pkgs[q].data[k].key, pkgs[q].data[k].content, pkgs[q].data[k].tags)
  }

  /** The segment package `q` is sent to is known and takes all messages sent to it, and nothing fails. */
  ghost predicate PkgServed(v: View, v': View, pkgs: seq<Pkg>, q: nat)
    requires q < |pkgs|
  {
    var s := Target(pkgs, q);
    && s in v.segs && s in v'.segs && Takes(v.segs[s].seg, MessagesNamed(pkgs, |pkgs|, SegmentName(pkgs[q].iden)))
    && v'.segs[s].early == v.segs[s].early && v'.segs[s].late == v.segs[s].late && v'.saves == v.saves
  }

  ghost predicate AllServed(v: View, v': View, pkgs: seq<Pkg>) { forall q :: 0 <= q < |pkgs| ==> PkgServed(v, v', pkgs, q) }

  /** The part of a request for segment `s` was written: it comes before the one that failed, or is that
      one and failed only afterwards. */
  ghost predicate Written(request: seq<SegReq>, stored: nat, tail: bool, s: Iden)
  {
    exists i :: 0 <= i < |request| && request[i].iden == s && (i < stored || (i == stored && tail))
  }

  /** Message `d` is in the file at offset `o`. */
  ghost predicate Holds(log: seq<Record>, o: nat, d: ClientData)
  {
    o < |log| && log[o].offset == o && log[o].key == d.key && log[o].content == d.content && log[o].tags == d.tags
  }

  /** Every file has grown by exactly the messages sent to it, in the order in which they came, if its part of
      the request was written, and is as it was if not. */
  ghost predicate FilesAfter(v: View, v': View, pkgs: seq<Pkg>, request: seq<SegReq>, stored: nat, tail: bool)
  {
    && v'.segs.Keys == v.segs.Keys
    && (forall s :: s in v.segs && !Written(request, stored, tail, s) ==> v'.segs[s].seg.log == v.segs[s].seg.log)
    && (forall s :: s in v.segs && Written(request, stored, tail, s) ==>
          && v.segs[s].seg.log <= v'.segs[s].seg.log
          && |v'.segs[s].seg.log| == |v.segs[s].seg.log| + MessagesNamed(pkgs, |pkgs|, SegmentName(s)))
    && (forall q, k :: 0 <= q < |pkgs| && 0 <= k < |pkgs[q].data| && Target(pkgs, q) in v.segs && Written(request, stored, tail, Target(pkgs, q)) ==>
          Holds(v'.segs[Target(pkgs, q)].seg.log, |v.segs[Target(pkgs, q)].seg.log| + Base(pkgs, q) + k, pkgs[q].data[k]))
  }

  /** The way to the server, on which a request or its answer can be lost. */
  class Link {
    ghost var lost: nat
    ghost var dropped: nat

    constructor ()
      ensures lost == 0 && dropped == 0
    {
      lost, dropped := 0, 0;
    }

    /** Whether the next request arrives. */
    method Carry() returns (ok: bool)
      modifies this
      ensures lost == old(lost) + (if ok then 0 else 1) && dropped == old(dropped)
    {
      ok := *;
      if !ok { lost := lost + 1; }
    }

    /** Whether the next answer does. */
    method Return() returns (ok: bool)
      modifies this
      ensures dropped == old(dropped) + (if ok then 0 else 1) && lost == old(lost)
    {
      ok := *;
      if !ok { dropped := dropped + 1; }
    }
  }

  /** `batch_sender_message`: number, send, and answer every caller.  Exactly the callers of non-empty
      packages are answered, with one reply per message.  The send succeeds exactly when every segment a
      package goes to takes its messages, nothing fails, and neither the request nor its answer is lost.
      Then the `k`-th reply is the offset at which the `k`-th message is stored, no two messages share one,
      and every record added to any file is named by a reply.  Otherwise every reply is an error, although
      the parts of a request that arrived are written up to the one that failed, and that one too if it
      failed only after it had reached the file. */
  method BatchSenderMessage(link: Link, server: JournalServer, generator: u64, pkgs: seq<Pkg>)
      returns (generator': u64, replies: map<nat, seq<Reply>>, ok: bool, ghost request: seq<SegReq>, ghost stored: nat, ghost tail: bool)
    requires server.Valid() && DistinctPkgIds(pkgs) && Left(pkgs, |pkgs|, {}) <= TWO_64 && AllSmall(server.codec, pkgs)
    modifies link, server.Repr()
    ensures generator' == WrapAdd(generator, Left(pkgs, |pkgs|, {}))
    ensures Sent(old(server.Now()), server.Now(), pkgs, replies, ok, link.lost == old(link.lost), link.dropped == old(link.dropped), request, stored, tail)
    ensures Calm(old(server.Now()), server.Now()) ==> server.Valid()
  {
    hide Built, Outcome, Handled, Delivered, Filtered, Left, WrapAdd, OnePerSegment, Routed, AllServed, FilesAfter, AllSmall, AllEncodable, FailedLate,
         IsIndex, DistinctPkgIds, OwnIds, IsPkgId, JournalServer.Valid, JournalServer.Wired, JournalServer.Now, LookOf, Calm, Sent;
    server.ValidWired();
    ghost var v := server.Now();
    var segments, ids;
    ghost var loc;
    generator', segments, ids, loc := BuildSendData(generator, pkgs);
    request := segments;
    forall i | 0 <= i < |segments| ensures AllEncodable(server.codec, segments[i]) { PartSmall(server.codec, pkgs, segments, loc, ids, i); }
    var status;
    ghost var served;
    ok, status, tail, served := SendRequest(link, server, segments);
    ghost var v' := server.Now();
    stored := |status|;
    ghost var byId;
    replies, byId := AnswerCallers(ok, status, ids);
    assert server.Now() == v';
    SendMeans(v, v', pkgs, segments, loc, ids, ok, served, status, tail, link.lost == old(link.lost), link.dropped == old(link.dropped), byId, replies);
  }

  /** What a send comes to, for the callers and for the files; `arrived` and `returned` say whether the
      request and its answer got through. */
  ghost predicate Sent(v: View, v': View, pkgs: seq<Pkg>, replies: map<nat, seq<Reply>>, ok: bool, arrived: bool, returned: bool,
                       request: seq<SegReq>, stored: nat, tail: bool)
  {
    && (forall id :: id in replies <==> IsPkgId(pkgs, id))
    && (forall q :: 0 <= q < |pkgs| && pkgs[q].data != [] ==> pkgs[q].id in replies && |replies[pkgs[q].id]| == |pkgs[q].data|)
    && (ok <==> AllServed(v, v', pkgs) && arrived && returned)
    && (ok ==> Calm(v, v') && Delivered(LogsOf(v), LogsOf(v'), pkgs, replies))
    && (!ok ==> AllErrors(replies))
    && FilesAfter(v, v', pkgs, request, stored, tail) && stored <= |request|
    && (!arrived ==> v' == v && stored == 0 && !tail)
    && (arrived ==> (stored == |request| <==> AllServed(v, v', pkgs)))
    && (arrived && stored < |request| ==> (tail <==> FailedLate(v, v', request[stored])))
  }

  predicate AllErrors(replies: map<nat, seq<Reply>>)
  {
    forall id :: id in replies ==> forall k :: 0 <= k < |replies[id]| ==> replies[id][k] == Error
  }

  lemma SendMeans(v: View, v': View, pkgs: seq<Pkg>, w: seq<SegReq>, loc: Places, ids: map<nat, seq<nat>>, ok: bool, served: bool,
                  status: seq<SegResp>, tail: bool, arrived: bool, returned: bool, byId: map<nat, nat>, replies: map<nat, seq<Reply>>)
    requires Built(pkgs, w, loc, ids) && Routed(pkgs, w) && DistinctPkgIds(pkgs)
    requires !arrived ==> v' == v && status == [] && !tail && !served
    requires arrived ==> Handled(v, v', w, served, status, tail)
    requires (ok <==> served && returned) && (served ==> Calm(v, v')) && replies.Keys == ids.Keys
    requires ok ==> IsIndex(status, byId) && forall p :: p in ids ==> replies[p] == Filtered(byId, ids[p])
    requires !ok ==> forall p :: p in ids ==> |replies[p]| == |ids[p]| && forall k :: 0 <= k < |replies[p]| ==> replies[p][k] == Error
    ensures Sent(v, v', pkgs, replies, ok, arrived, returned, w, |status|, tail)
  {
    hide Built, Outcome, Handled, Routed, FilesAfter, FailedLate, AllServed, Calm, Delivered, IsIndex, IsPkgId, DistinctPkgIds, Filtered;
    PkgIds(pkgs, w, loc, ids);
    if arrived {
      SentFacts(v, v', pkgs, w, loc, ids, served, status, tail);
    } else {
      NothingSent(v, pkgs, w);
    }
    if ok { SentOk(v, v', pkgs, w, loc, ids, status, byId, replies); }
  }

  /** A request to the server and back.  Whether it was `served` the client learns only from the answer. */
  method SendRequest(link: Link, server: JournalServer, segments: seq<SegReq>) returns (ok: bool, status: seq<SegResp>, ghost tail: bool, ghost served: bool)
    requires server.Valid() && forall i :: 0 <= i < |segments| ==> AllEncodable(server.codec, segments[i])
    modifies link, server.Repr()
    ensures link.lost != old(link.lost) ==> server.Now() == old(server.Now()) && status == [] && !tail && !served
    ensures link.lost == old(link.lost) ==> Handled(old(server.Now()), server.Now(), segments, served, status, tail)
    ensures ok <==> served && link.dropped == old(link.dropped)
    ensures served ==> Calm(old(server.Now()), server.Now())
    ensures Calm(old(server.Now()), server.Now()) ==> server.Valid()
  {
    hide Handled, JournalServer.Valid, JournalServer.Wired, JournalServer.Now, LookOf, Calm, AllEncodable, SegmentName;
    server.ValidWired();
    ghost var v := server.Now();
    ok, status, tail, served := false, [], false, false;
    var carried := link.Carry();
    assert server.Now() == v;
    if carried {
      var answered;
      answered, status, tail := server.WriteDataReq(segments);
      served := answered;
      ghost var v' := server.Now();
      ok := link.Return();
      assert server.Now() == v';
      ok := ok && answered;
    }
  }

  lemma SentFacts(v: View, v': View, pkgs: seq<Pkg>, w: seq<SegReq>, loc: Places, ids: map<nat, seq<nat>>, ok: bool, status: seq<SegResp>, tail: bool)
    requires Built(pkgs, w, loc, ids) && Routed(pkgs, w) && Handled(v, v', w, ok, status, tail)
    ensures |status| <= |w| && FilesAfter(v, v', pkgs, w, |status|, tail) && Outcome(v, v', w, ok, status, |status|, tail)
    ensures (ok <==> |status| == |w|) && (ok <==> AllServed(v, v', pkgs)) && (ok ==> !tail)
    ensures |status| < |w| ==> (tail <==> FailedLate(v, v', w[|status|]))
  {
    hide Built, Outcome, Handled, Routed, FilesAfter, FailedLate, OnePerSegment, PkgServed;
    BuiltParts(pkgs, w, loc, ids);
    OutcomeOf(v, v', w, ok, status, tail);
    ServedIff(v, v', pkgs, w, ok, status, |status|, tail);
    OutcomeKeys(v, v', w, ok, status, |status|, tail);
    FilesAre(v, v', pkgs, w, loc, ids, ok, status, |status|, tail);
  }

  lemma NothingSent(v: View, pkgs: seq<Pkg>, w: seq<SegReq>)
    ensures FilesAfter(v, v, pkgs, w, 0, false)
  {}

  /** The answers of the server handed to the callers, or an error for every message. */
  method AnswerCallers(ok: bool, status: seq<SegResp>, ids: map<nat, seq<nat>>) returns (replies: map<nat, seq<Reply>>, ghost byId: map<nat, nat>)
    ensures replies.Keys == ids.Keys
    ensures ok ==> IsIndex(status, byId) && forall p :: p in ids ==> replies[p] == Filtered(byId, ids[p])
    ensures !ok ==> forall p :: p in ids ==> |replies[p]| == |ids[p]| && forall k :: 0 <= k < |replies[p]| ==> replies[p][k] == Error
  {
    byId := map[];
    if ok {
      var found := IndexReplies(status);
      byId := found;
      replies := Callbacks(found, ids);
    } else {
      replies := map p | p in ids :: seq(|ids[p]|, _ => Error);
    }
  }

  /** The map holds an answer given for each packet id that was answered. */
  ghost predicate IsIndex(status: seq<SegResp>, byId: map<nat, nat>)
  {
    (forall id :: id in byId ==> Says(status, id, byId[id])) && forall id, o :: Says(status, id, o) ==> id in byId
  }

  /** The writer took the part of the request and nothing failed before it reached the file. */
  ghost predicate FailedLate(v: View, v': View, req: SegReq)
  {
    && req.iden in v.segs && req.iden in v'.segs && Takes(v.segs[req.iden].seg, |req.messages|)
    && v'.segs[req.iden].early == v.segs[req.iden].early
  }

  /** What the callers learn from a successful send. */
  ghost predicate Delivered(before: map<Iden, seq<Record>>, after: map<Iden, seq<Record>>, pkgs: seq<Pkg>, replies: map<nat, seq<Reply>>)
  {
    && before.Keys == after.Keys
    && (forall q, k :: 0 <= q < |pkgs| && 0 <= k < |pkgs[q].data| ==>
          pkgs[q].id in replies && k < |replies[pkgs[q].id]| && RightReply(before, after, pkgs, q, k, replies[pkgs[q].id][k]))
    && (forall s, o :: s in after && |before[s]| <= o < |after[s]| ==> Accounted(pkgs, replies, s, o))
    && NoneShared(pkgs, replies)
  }

  lemma PartSmall(c: Codec, pkgs: seq<Pkg>, w: seq<SegReq>, loc: Places, ids: map<nat, seq<nat>>, i: nat)
    requires Built(pkgs, w, loc, ids) && AllSmall(c, pkgs) && i < |w|
    ensures AllEncodable(c, w[i])
  {
    hide Built, Encodable, Target;
    forall m | 0 <= m < |w[i].messages| ensures Encodable(c, w[i].iden, w[i].messages[m].key, w[i].messages[m].value, w[i].messages[m].tags) {
      var q, k := OwnerOf(pkgs, w, loc, ids, i, m);
      BuiltTracks(pkgs, w, loc, ids, q);
      assert Carries(w, loc, ids[pkgs[q].id][k], pkgs[q], k, Target(pkgs, q), Base(pkgs, q) + k);
    }
  }

  lemma TargetName(pkgs: seq<Pkg>, q: nat)
    requires q < |pkgs|
    ensures SegmentName(Target(pkgs, q)) == SegmentName(pkgs[q].iden)
  {}

  lemma ServedIff(v: View, v': View, pkgs: seq<Pkg>, w: seq<SegReq>, ok: bool, status: seq<SegResp>, stored: nat, tail: bool)
    requires Outcome(v, v', w, ok, status, stored, tail) && Routed(pkgs, w)
    ensures ok <==> AllServed(v, v', pkgs)
  {
    hide Takes, SegmentName, MessagesNamed, Target, Appended, Answers;
    if ok {
      forall q | 0 <= q < |pkgs| ensures PkgServed(v, v', pkgs, q) {
        assert HasPart(w, Target(pkgs, q));
        var i :| 0 <= i < |w| && w[i].iden == Target(pkgs, q);
        assert Served(v, v', w[i]);
        TargetName(pkgs, q);
      }
    } else {
      var i :| 0 <= i < |w| && !Served(v, v', w[i]);
      assert Wanted(pkgs, w[i].iden);
      var q :| 0 <= q < |pkgs| && Target(pkgs, q) == w[i].iden;
      TargetName(pkgs, q);
      assert !PkgServed(v, v', pkgs, q);
    }
  }

  /** What the outcome of a request says of one segment's file. */
  lemma FileOf(v: View, v': View, w: seq<SegReq>, ok: bool, status: seq<SegResp>, stored: nat, tail: bool, s: Iden)
    requires Outcome(v, v', w, ok, status, stored, tail) && OnePerSegment(w) && s in v.segs
    ensures s in v'.segs
    ensures !Written(w, stored, tail, s) ==> v'.segs[s].seg.log == v.segs[s].seg.log
    ensures Written(w, stored, tail, s) ==>
      exists i :: 0 <= i < |w| && w[i].iden == s && Appended(w[i], v.segs[s].seg.log, v'.segs[s].seg.log)
  {
    hide Takes, Appended, Answers, OwnIds, Served;
    if i :| 0 <= i < |w| && w[i].iden == s {
      forall k | 0 <= k < |w| && w[k].iden == s ensures k == i {}
      assert Written(w, stored, tail, s) <==> i < stored || (i == stored && tail);
    }
  }

  lemma FilesAre(v: View, v': View, pkgs: seq<Pkg>, w: seq<SegReq>, loc: Places, ids: map<nat, seq<nat>>, ok: bool, status: seq<SegResp>, stored: nat, tail: bool)
    requires Built(pkgs, w, loc, ids) && Routed(pkgs, w) && Outcome(v, v', w, ok, status, stored, tail)
    ensures FilesAfter(v, v', pkgs, w, stored, tail)
  {
    hide SegmentName, MessagesNamed, Target, Built, Holds, Outcome, Written, Routed, OnePerSegment, Appended;
    BuiltParts(pkgs, w, loc, ids);
    assert v'.segs.Keys == v.segs.Keys by { OutcomeKeys(v, v', w, ok, status, stored, tail); }
    forall s | s in v.segs
      ensures !Written(w, stored, tail, s) ==> v'.segs[s].seg.log == v.segs[s].seg.log
      ensures Written(w, stored, tail, s) ==>
        && v.segs[s].seg.log <= v'.segs[s].seg.log
        && |v'.segs[s].seg.log| == |v.segs[s].seg.log| + MessagesNamed(pkgs, |pkgs|, SegmentName(s))
    {
      FileOf(v, v', w, ok, status, stored, tail, s);
      if Written(w, stored, tail, s) {
        var i :| 0 <= i < |w| && w[i].iden == s && Appended(w[i], v.segs[s].seg.log, v'.segs[s].seg.log);
        PartSize(pkgs, w, i, v.segs[s].seg.log, v'.segs[s].seg.log);
      }
    }
    forall q, k | 0 <= q < |pkgs| && 0 <= k < |pkgs[q].data| && Target(pkgs, q) in v.segs && Written(w, stored, tail, Target(pkgs, q))
      ensures Holds(v'.segs[Target(pkgs, q)].seg.log, |v.segs[Target(pkgs, q)].seg.log| + Base(pkgs, q) + k, pkgs[q].data[k])
    {
      var s := Target(pkgs, q);
      FileOf(v, v', w, ok, status, stored, tail, s);
      var i :| 0 <= i < |w| && w[i].iden == s && Appended(w[i], v.segs[s].seg.log, v'.segs[s].seg.log);
      MessageHeld(pkgs, w, loc, ids, q, k, i, v.segs[s].seg.log, v'.segs[s].seg.log);
    }
  }

  lemma PartSize(pkgs: seq<Pkg>, w: seq<SegReq>, i: nat, before: seq<Record>, after: seq<Record>)
    requires Routed(pkgs, w) && i < |w| && Appended(w[i], before, after)
    ensures before <= after && |after| == |before| + MessagesNamed(pkgs, |pkgs|, SegmentName(w[i].iden))
  {
    hide SegmentName, MessagesNamed, StoredAt;
  }

  lemma OutcomeKeys(v: View, v': View, w: seq<SegReq>, ok: bool, status: seq<SegResp>, stored: nat, tail: bool)
    requires Outcome(v, v', w, ok, status, stored, tail)
    ensures v'.segs.Keys == v.segs.Keys && stored <= |w| && |status| == stored && (ok <==> stored == |w|) && (ok ==> !tail)
    ensures !ok ==> (tail <==> FailedLate(v, v', w[stored]))
  {
    hide Takes, Appended, Answers, OwnIds, Served;
  }

  lemma MessageHeld(pkgs: seq<Pkg>, w: seq<SegReq>, loc: Places, ids: map<nat, seq<nat>>, q: nat, k: nat, i: nat, before: seq<Record>, after: seq<Record>)
    requires Built(pkgs, w, loc, ids) && q < |pkgs| && k < |pkgs[q].data| && i < |w| && w[i].iden == Target(pkgs, q)
    requires Appended(w[i], before, after)
    ensures Holds(after, |before| + Base(pkgs, q) + k, pkgs[q].data[k])
  {
    hide Target, Unshared, Owned, Built;
    BuiltTracks(pkgs, w, loc, ids, q);
    BuiltParts(pkgs, w, loc, ids);
    var id := ids[pkgs[q].id][k];
    assert Carries(w, loc, id, pkgs[q], k, Target(pkgs, q), Base(pkgs, q) + k);
    assert loc[id].0 == i;
    assert StoredAt(after, |before| + loc[id].1, w[i].messages[loc[id].1]);
  }

  lemma SentOk(v: View, v': View, pkgs: seq<Pkg>, w: seq<SegReq>, loc: Places, ids: map<nat, seq<nat>>,
               status: seq<SegResp>, byId: map<nat, nat>, replies: map<nat, seq<Reply>>)
    requires Built(pkgs, w, loc, ids) && DistinctPkgIds(pkgs) && Outcome(v, v', w, true, status, |w|, false) && IsIndex(status, byId)
    requires replies.Keys == ids.Keys && forall p :: p in ids ==> replies[p] == Filtered(byId, ids[p])
    ensures Delivered(LogsOf(v), LogsOf(v'), pkgs, replies)
    ensures forall q :: 0 <= q < |pkgs| && pkgs[q].data != [] ==> pkgs[q].id in replies && |replies[pkgs[q].id]| == |pkgs[q].data|
  {
    hide Built, Appended, Answered, Filtered, Target, RightReply, Accounted, NoneShared, DistinctPkgIds, IsIndex, Outcome;
    BuiltParts(pkgs, w, loc, ids);
    OkParts(v, v', w, status, byId);
    SentRight(LogsOf(v), LogsOf(v'), pkgs, w, loc, ids, status, byId, replies);
  }

  lemma OkParts(v: View, v': View, w: seq<SegReq>, status: seq<SegResp>, byId: map<nat, nat>)
    requires Outcome(v, v', w, true, status, |w|, false) && IsIndex(status, byId) && forall i :: 0 <= i < |w| ==> OwnIds(w[i])
    ensures LogsOf(v).Keys == LogsOf(v').Keys && Answered(LogsOf(v), w, status, byId)
    ensures forall i :: 0 <= i < |w| ==>
      w[i].iden in LogsOf(v) && w[i].iden in LogsOf(v') && Appended(w[i], LogsOf(v)[w[i].iden], LogsOf(v')[w[i].iden])
    ensures forall s :: s in LogsOf(v') && (forall i :: 0 <= i < |w| ==> w[i].iden != s) ==> LogsOf(v')[s] == LogsOf(v)[s]
  {
    hide Appended, Answers, Says, OwnIds, Takes, Served;
  }

  /** What a successful send means for the callers. */
  lemma SentRight(before: map<Iden, seq<Record>>, after: map<Iden, seq<Record>>, pkgs: seq<Pkg>, w: seq<SegReq>, loc: Places,
                  ids: map<nat, seq<nat>>, status: seq<SegResp>, byId: map<nat, nat>, replies: map<nat, seq<Reply>>)
    requires Built(pkgs, w, loc, ids) && DistinctPkgIds(pkgs) && Answered(before, w, status, byId) && before.Keys == after.Keys
    requires forall i :: 0 <= i < |w| ==>
      w[i].iden in before && w[i].iden in after && Appended(w[i], before[w[i].iden], after[w[i].iden])
    requires forall s :: s in after && (forall i :: 0 <= i < |w| ==> w[i].iden != s) ==> after[s] == before[s]
    requires replies.Keys == ids.Keys && forall p :: p in ids ==> replies[p] == Filtered(byId, ids[p])
    ensures forall q :: 0 <= q < |pkgs| && pkgs[q].data != [] ==> pkgs[q].id in replies && |replies[pkgs[q].id]| == |pkgs[q].data|
    ensures forall q, k :: 0 <= q < |pkgs| && 0 <= k < |pkgs[q].data| ==> RightReply(before, after, pkgs, q, k, replies[pkgs[q].id][k])
    ensures forall s, o :: s in after && |before[s]| <= o < |after[s]| ==> Accounted(pkgs, replies, s, o)
    ensures NoneShared(pkgs, replies)
  {
    hide Built, Answered, Appended, Filtered, Target, RightReply, Accounted, NoneShared, DistinctPkgIds, IsPkgId;
    PkgIds(pkgs, w, loc, ids);
    forall q | 0 <= q < |pkgs| && pkgs[q].data != []
      ensures |replies[pkgs[q].id]| == |pkgs[q].data|
      ensures forall k :: 0 <= k < |pkgs[q].data| ==> RightReply(before, after, pkgs, q, k, replies[pkgs[q].id][k])
    {
      RepliesRight(before, after, pkgs, w, loc, ids, status, byId, q);
    }
    forall s, o | s in after && |before[s]| <= o < |after[s]| ensures Accounted(pkgs, replies, s, o) {
      var si :| 0 <= si < |w| && w[si].iden == s;
      AddedIsAccounted(before, after[s], pkgs, w, loc, ids, status, byId, replies, si, o);
    }
    forall p | p in ids ensures |replies[p]| == |ids[p]| {
      assert IsPkgId(pkgs, p);
      var q := PkgOf(pkgs, p);
    }
    RepliesApart(before, pkgs, w, loc, ids, status, byId, replies);
  }

  lemma PkgOf(pkgs: seq<Pkg>, id: nat) returns (q: nat)
    requires IsPkgId(pkgs, id)
    ensures q < |pkgs| && pkgs[q].id == id && pkgs[q].data != []
  {
    q :| 0 <= q < |pkgs| && pkgs[q].id == id && pkgs[q].data != [];
  }

  lemma PkgIds(pkgs: seq<Pkg>, w: seq<SegReq>, loc: Places, ids: map<nat, seq<nat>>)
    requires Built(pkgs, w, loc, ids) && DistinctPkgIds(pkgs)
    ensures forall id :: id in ids <==> IsPkgId(pkgs, id)
    ensures forall q :: 0 <= q < |pkgs| && pkgs[q].data != [] ==> pkgs[q].id in ids && |ids[pkgs[q].id]| == |pkgs[q].data|
  {
    hide Carries, Target, Consistent;
    forall id | id in ids ensures IsPkgId(pkgs, id) {
      var q :| 0 <= q < |pkgs| && pkgs[q].id == id;
      assert Tracks(w, loc, ids, pkgs[q], |pkgs[q].data|, Target(pkgs, q), Base(pkgs, q));
    }
    forall q | 0 <= q < |pkgs| && pkgs[q].data != [] ensures pkgs[q].id in ids && |ids[pkgs[q].id]| == |pkgs[q].data| {
      assert Tracks(w, loc, ids, pkgs[q], |pkgs[q].data|, Target(pkgs, q), Base(pkgs, q));
    }
  }

  lemma BuiltParts(pkgs: seq<Pkg>, w: seq<SegReq>, loc: Places, ids: map<nat, seq<nat>>)
    requires Built(pkgs, w, loc, ids)
    ensures OnePerSegment(w) && forall i :: 0 <= i < |w| ==> OwnIds(w[i])
  {
    hide Tracks, Target;
  }

  /** A packet id is given one offset only, since it stands at one place only. */
  lemma OneAnswer(w: seq<SegReq>, loc: Places, before: map<Iden, seq<Record>>, status: seq<SegResp>, id: nat, o: nat)
    requires Consistent(w, loc) && |status| == |w| && id in loc && InRange(w, loc[id]) && Says(status, id, o)
    requires forall i :: 0 <= i < |w| ==> w[i].iden in before && Answers(w[i], |before[w[i].iden]|, status[i].messages)
    ensures o == |before[w[loc[id].0].iden]| + loc[id].1
  {
    hide Answers;
    var i :| 0 <= i < |status| && (id, o) in status[i].messages;
    var m := AnswerIndex(w[i], |before[w[i].iden]|, status[i].messages, id, o);
    assert w[i].messages[m].pkid == id;
  }

  lemma AnswerIndex(req: SegReq, base: nat, answer: seq<(nat, nat)>, id: nat, o: nat) returns (m: nat)
    requires Answers(req, base, answer) && (id, o) in answer
    ensures m < |req.messages| && req.messages[m].pkid == id && o == base + m
  {
    m :| 0 <= m < |req.messages| && (id, o) == (req.messages[m].pkid, base + m);
  }

  /** The replies to one package are right. */
  lemma RepliesRight(before: map<Iden, seq<Record>>, after: map<Iden, seq<Record>>, pkgs: seq<Pkg>, w: seq<SegReq>, loc: Places,
                     ids: map<nat, seq<nat>>, status: seq<SegResp>, byId: map<nat, nat>, q: nat)
    requires Built(pkgs, w, loc, ids) && q < |pkgs| && pkgs[q].data != [] && pkgs[q].id in ids && Answered(before, w, status, byId)
    requires forall i :: 0 <= i < |w| ==>
      w[i].iden in before && w[i].iden in after && Appended(w[i], before[w[i].iden], after[w[i].iden])
    ensures |Filtered(byId, ids[pkgs[q].id])| == |pkgs[q].data|
    ensures forall k :: 0 <= k < |pkgs[q].data| ==> RightReply(before, after, pkgs, q, k, Filtered(byId, ids[pkgs[q].id])[k])
  {
    hide Built, Appended, Answered, Filtered, Target, RightReply, Carries, Consistent;
    var mine := ids[pkgs[q].id];
    assert Consistent(w, loc) && Tracks(w, loc, ids, pkgs[q], |pkgs[q].data|, Target(pkgs, q), Base(pkgs, q)) by { BuiltTracks(pkgs, w, loc, ids, q); }
    forall k | 0 <= k < |mine| ensures mine[k] in byId && RightReply(before, after, pkgs, q, k, Offset(byId[mine[k]])) {
      ReplyRight(before, after, pkgs, w, loc, status, byId, q, k, mine[k]);
    }
    FilteredWhole(byId, mine);
  }

  lemma BuiltTracks(pkgs: seq<Pkg>, w: seq<SegReq>, loc: Places, ids: map<nat, seq<nat>>, q: nat)
    requires Built(pkgs, w, loc, ids) && q < |pkgs|
    ensures Consistent(w, loc) && Tracks(w, loc, ids, pkgs[q], |pkgs[q].data|, Target(pkgs, q), Base(pkgs, q))
  {}

  lemma ReplyRight(before: map<Iden, seq<Record>>, after: map<Iden, seq<Record>>, pkgs: seq<Pkg>, w: seq<SegReq>, loc: Places,
                   status: seq<SegResp>, byId: map<nat, nat>, q: nat, k: nat, id: nat)
    requires Consistent(w, loc) && q < |pkgs| && k < |pkgs[q].data| && Answered(before, w, status, byId)
    requires Carries(w, loc, id, pkgs[q], k, Target(pkgs, q), Base(pkgs, q) + k)
    requires forall i :: 0 <= i < |w| ==>
      w[i].iden in before && w[i].iden in after && Appended(w[i], before[w[i].iden], after[w[i].iden])
    ensures id in byId && RightReply(before, after, pkgs, q, k, Offset(byId[id]))
  {
    hide Consistent, Target, Answered;
    IdAnswered(before, pkgs, w, loc, status, byId, q, k, id);
    var (i, m) := loc[id];
    var base := |before[w[i].iden]|;
    assert StoredAt(after[w[i].iden], base + m, w[i].messages[m]);
  }

  /** A record added to a file answers for some message. */
  lemma AddedIsAccounted(before: map<Iden, seq<Record>>, after: seq<Record>, pkgs: seq<Pkg>, w: seq<SegReq>, loc: Places,
                         ids: map<nat, seq<nat>>, status: seq<SegResp>, byId: map<nat, nat>, replies: map<nat, seq<Reply>>, si: nat, o: nat)
    requires Built(pkgs, w, loc, ids) && Answered(before, w, status, byId) && si < |w|
    requires replies.Keys == ids.Keys && forall p :: p in ids ==> replies[p] == Filtered(byId, ids[p])
    requires w[si].iden in before && Appended(w[si], before[w[si].iden], after)
    requires |before[w[si].iden]| <= o < |after|
    ensures Accounted(pkgs, replies, w[si].iden, o)
  {
    hide Built, Answered, Filtered, Target, StoredAt;
    var mi := o - |before[w[si].iden]|;
    var q, k := OwnerOf(pkgs, w, loc, ids, si, mi);
    ReplyPlace(before, pkgs, w, loc, ids, status, byId, q, k);
    assert Replied(pkgs, replies, q, k);
  }

  lemma OwnerOf(pkgs: seq<Pkg>, w: seq<SegReq>, loc: Places, ids: map<nat, seq<nat>>, si: nat, mi: nat) returns (q: nat, k: nat)
    requires Built(pkgs, w, loc, ids) && si < |w| && mi < |w[si].messages|
    ensures q < |pkgs| && pkgs[q].id in ids && k < |ids[pkgs[q].id]| && ids[pkgs[q].id][k] == w[si].messages[mi].pkid
    ensures w[si].messages[mi].pkid in loc && loc[w[si].messages[mi].pkid] == (si, mi)
  {
    hide Target, Tracks, Unshared;
    assert HasOwner(pkgs, ids, w[si].messages[mi].pkid);
    q, k :| Owner(pkgs, ids, w[si].messages[mi].pkid, q, k);
  }

  /** The reply to the `k`-th message of a package is read off the place of its packet id. */
  lemma ReplyPlace(before: map<Iden, seq<Record>>, pkgs: seq<Pkg>, w: seq<SegReq>, loc: Places, ids: map<nat, seq<nat>>,
                   status: seq<SegResp>, byId: map<nat, nat>, q: nat, k: nat)
    requires Built(pkgs, w, loc, ids) && Answered(before, w, status, byId)
    requires q < |pkgs| && pkgs[q].id in ids && k < |ids[pkgs[q].id]|
    ensures
      var id := ids[pkgs[q].id][k];
      && id in loc && InRange(w, loc[id]) && w[loc[id].0].iden == Target(pkgs, q) && w[loc[id].0].messages[loc[id].1].pkid == id
      && w[loc[id].0].iden in before
      && |Filtered(byId, ids[pkgs[q].id])| == |ids[pkgs[q].id]|
      && Filtered(byId, ids[pkgs[q].id])[k] == Offset(|before[w[loc[id].0].iden]| + loc[id].1)
  {
    hide Answered, Filtered, Target, Built, Consistent;
    var mine := ids[pkgs[q].id];
    assert Consistent(w, loc) && Tracks(w, loc, ids, pkgs[q], |pkgs[q].data|, Target(pkgs, q), Base(pkgs, q)) by { BuiltTracks(pkgs, w, loc, ids, q); }
    forall j | 0 <= j < |mine| ensures mine[j] in byId {
      IdAnswered(before, pkgs, w, loc, status, byId, q, j, mine[j]);
    }
    IdAnswered(before, pkgs, w, loc, status, byId, q, k, mine[k]);
    FilteredWhole(byId, mine);
  }

  lemma RepliesApart(before: map<Iden, seq<Record>>, pkgs: seq<Pkg>, w: seq<SegReq>, loc: Places, ids: map<nat, seq<nat>>,
                     status: seq<SegResp>, byId: map<nat, nat>, replies: map<nat, seq<Reply>>)
    requires Built(pkgs, w, loc, ids) && Answered(before, w, status, byId)
    requires replies.Keys == ids.Keys && forall p :: p in ids ==> replies[p] == Filtered(byId, ids[p])
    requires forall p :: p in ids ==> |replies[p]| == |ids[p]|
    ensures NoneShared(pkgs, replies)
  {
    hide Built, Answered, Filtered, Target;
    forall q: nat, k: nat, q': nat, k': nat | Replied(pkgs, replies, q, k) && Replied(pkgs, replies, q', k')
      && Target(pkgs, q) == Target(pkgs, q') && replies[pkgs[q].id][k] == replies[pkgs[q'].id][k']
      ensures q == q' && k == k'
    {
      ReplyPlace(before, pkgs, w, loc, ids, status, byId, q, k);
      ReplyPlace(before, pkgs, w, loc, ids, status, byId, q', k');
      SamePlace(pkgs, w, loc, ids, q, k, q', k');
    }
  }

  lemma SamePlace(pkgs: seq<Pkg>, w: seq<SegReq>, loc: Places, ids: map<nat, seq<nat>>, q: nat, k: nat, q': nat, k': nat)
    requires Built(pkgs, w, loc, ids) && q < |pkgs| && q' < |pkgs|
    requires pkgs[q].id in ids && k < |ids[pkgs[q].id]| && pkgs[q'].id in ids && k' < |ids[pkgs[q'].id]|
    requires
      var id, id' := ids[pkgs[q].id][k], ids[pkgs[q'].id][k'];
      && id in loc && id' in loc && InRange(w, loc[id]) && InRange(w, loc[id'])
      && w[loc[id].0].messages[loc[id].1].pkid == id && w[loc[id'].0].messages[loc[id'].1].pkid == id'
      && w[loc[id].0].iden == w[loc[id'].0].iden && loc[id].1 == loc[id'].1
    ensures q == q' && k == k'
  {
    hide Target, Tracks, Consistent, Owned;
    var id := ids[pkgs[q].id][k];
    assert Owner(pkgs, ids, id, q, k) && Owner(pkgs, ids, id, q', k');
  }

  lemma IdAnswered(before: map<Iden, seq<Record>>, pkgs: seq<Pkg>, w: seq<SegReq>, loc: Places,
                   status: seq<SegResp>, byId: map<nat, nat>, q: nat, k: nat, id: nat)
    requires Consistent(w, loc) && q < |pkgs| && k < |pkgs[q].data| && Answered(before, w, status, byId)
    requires Carries(w, loc, id, pkgs[q], k, Target(pkgs, q), Base(pkgs, q) + k)
    ensures id in byId && id in loc && InRange(w, loc[id]) && w[loc[id].0].iden in before && byId[id] == |before[w[loc[id].0].iden]| + loc[id].1
  {
    hide Consistent, Target;
    var (i, m) := loc[id];
    var base := |before[w[i].iden]|;
    assert (w[i].messages[m].pkid, base + m) in status[i].messages;
    assert Says(status, id, base + m);
    OneAnswer(w, loc, before, status, id, byId[id]);
  }
}
