/** A record serializer that meets everything asked of one, so that what is proved for all serializers
    is proved of something, and a server to which any batch of messages of moderate size can be sent. */
module PlainCodecs {
  import opened Options
  import opened Bytes
  import opened SegmentLog
  import opened SegmentFiles
  import opened Segments
  import opened Store
  import opened Keys
  import opened JournalSystem
  import opened JournalInvariant
  import opened SegmentNodes
  import opened ClientBatch
  import opened JournalServers
  import opened ClientWrite

  // ---------------------------------------------------------------- parts that end themselves

  /** A value read off the front of some bytes, and what is left of them. */
  type Read<T> = Option<(T, seq<byte>)>

  function Number(n: nat, x: nat): (s: seq<byte>)
    ensures |s| == n
  { ToBE(n, x) }

  function ReadNumber(n: nat, s: seq<byte>): Read<nat>
  {
    if |s| < n then None else Some((FromBE(s[..n]), s[n..]))
  }

  lemma NumberReads(n: nat, x: nat, rest: seq<byte>)
    requires x < Pow256(n)
    ensures ReadNumber(n, Number(n, x) + rest) == Some((x, rest))
  {
    BERoundTrip(n, x);
    assert (Number(n, x) + rest)[..n] == Number(n, x) && (Number(n, x) + rest)[n..] == rest;
  }

  function Blob(s: seq<byte>): (r: seq<byte>)
    ensures |r| == 2 * |s| + 1
  {
    if s == [] then [0] else [1, s[0]] + Blob(s[1..])
  }

  function ReadBlob(s: seq<byte>): Read<seq<byte>>
  {
    if s == [] then None
    else if s[0] == 0 then Some(([], s[1..]))
    else if |s| < 2 then None
    else
      match ReadBlob(s[2..])
      case Some((b, rest)) => Some(([s[1]] + b, rest))
      case None => None
  }

  lemma {:induction false} BlobReads(s: seq<byte>, rest: seq<byte>)
    ensures ReadBlob(Blob(s) + rest) == Some((s, rest))
  {
    var all := Blob(s) + rest;
    if s == [] {
      assert all[1..] == rest;
    } else {
      BlobReads(s[1..], rest);
      assert all[2..] == Blob(s[1..]) + rest;
      assert [s[0]] + s[1..] == s;
    }
  }

  /** The surrogates are no characters. */
  predicate IsCharCode(x: nat) { x < 0xD800 || 0xE000 <= x < 0x11_0000 }

  function Text(s: string): (r: seq<byte>)
    ensures |r| == 5 * |s| + 1
  {
    if s == [] then [0] else [1] + (Number(4, s[0] as int) + Text(s[1..]))
  }

  function ReadText(s: seq<byte>): Read<string>
  {
    if s == [] then None
    else if s[0] == 0 then Some(("", s[1..]))
    else if |s| < 5 || !IsCharCode(FromBE(s[1..5])) then None
    else
      match ReadText(s[5..])
      case Some((t, rest)) => Some(([FromBE(s[1..5]) as char] + t, rest))
      case None => None
  }

  lemma {:induction false} TextReads(s: string, rest: seq<byte>)
    ensures ReadText(Text(s) + rest) == Some((s, rest))
  {
    var all := Text(s) + rest;
    if s == [] {
      assert all[1..] == rest;
    } else {
      TextReads(s[1..], rest);
      Pow256Of4And8();
      BERoundTrip(4, s[0] as int);
      assert all[1..5] == Number(4, s[0] as int);
      assert all[5..] == Text(s[1..]) + rest;
      assert [s[0]] + s[1..] == s;
    }
  }

  function Words(ts: seq<string>): seq<byte>
  {
    if ts == [] then [0] else [1] + (Text(ts[0]) + Words(ts[1..]))
  }

  function ReadWords(s: seq<byte>): Read<seq<string>>
    decreases |s|
  {
    if s == [] then None
    else if s[0] == 0 then Some(([], s[1..]))
    else
      match ReadText(s[1..])
      case None => None
      case Some((t, more)) =>
        if |more| >= |s| then None
        else
          match ReadWords(more)
          case Some((ts, rest)) => Some(([t] + ts, rest))
          case None => None
  }

  lemma {:induction false} WordsRead(ts: seq<string>, rest: seq<byte>)
    ensures ReadWords(Words(ts) + rest) == Some((ts, rest))
  {
    hide Text, ReadText;
    var all := Words(ts) + rest;
    if ts == [] {
      assert all[1..] == rest;
    } else {
      WordsRead(ts[1..], rest);
      TextReads(ts[0], Words(ts[1..]) + rest);
      assert all[1..] == Text(ts[0]) + (Words(ts[1..]) + rest);
      assert [ts[0]] + ts[1..] == ts;
    }
  }

  // ---------------------------------------------------------------- records

  function Encode(r: Record): seq<byte>
  {
    Head(r) + Tail(r)
  }

  function Head(r: Record): seq<byte>
  {
    Text(r.producerId) + (Number(8, r.pkid) + (Text(r.key) + (Blob(r.content) + Number(8, r.createTime))))
  }

  function Tail(r: Record): seq<byte>
  {
    Words(r.tags) + (Number(8, AsU64(r.offset)) + (Text(r.namespace) + (Text(r.shardName) + Number(4, r.segment))))
  }

  function Decode(s: seq<byte>): Option<Record>
  {
    var (producerId, s1) :- ReadText(s);
    var (pkid, s2) :- ReadNumber(8, s1);
    var (key, s3) :- ReadText(s2);
    var (content, s4) :- ReadBlob(s3);
    var (createTime, s5) :- ReadNumber(8, s4);
    var (tags, s6) :- ReadWords(s5);
    var (offset, s7) :- ReadNumber(8, s6);
    var (namespace, s8) :- ReadText(s7);
    var (shardName, s9) :- ReadText(s8);
    var (segment, rest) :- ReadNumber(4, s9);
    if pkid < TWO_64 && createTime < TWO_64 && offset < TWO_64 && segment < TWO_32 && rest == [] then
      Some(Record(producerId, pkid, key, content, createTime, tags, AsI64(offset), namespace, shardName, segment))
    else None
  }

  function Plain(): Codec { Codec(Encode, Decode) }

  lemma PlainInverse(r: Record)
    ensures Decode(Encode(r)) == Some(r)
  {
    hide ReadText, ReadBlob, ReadWords, ReadNumber, Text, Blob, Words, Number, AsI64, AsU64, ToBE, FromBE, Pow256;
    Pow256Of4And8();
    CastRoundTrip(r.offset);
    var t9 := Number(4, r.segment);
    var t8 := Text(r.shardName) + t9;
    var t7 := Text(r.namespace) + t8;
    var t6 := Number(8, AsU64(r.offset)) + t7;
    var t5 := Words(r.tags) + t6;
    var t4 := Number(8, r.createTime) + t5;
    var t3 := Blob(r.content) + t4;
    var t2 := Text(r.key) + t3;
    var t1 := Number(8, r.pkid) + t2;
    assert Encode(r) == Text(r.producerId) + t1 by { Regroup(r); }
    TextReads(r.producerId, t1);
    NumberReads(8, r.pkid, t2);
    TextReads(r.key, t3);
    BlobReads(r.content, t4);
    NumberReads(8, r.createTime, t5);
    WordsRead(r.tags, t6);
    NumberReads(8, AsU64(r.offset), t7);
    TextReads(r.namespace, t8);
    TextReads(r.shardName, t9);
    NumberReads(4, r.segment, []);
    assert t9 + [] == t9;
  }

  lemma Regroup(r: Record)
    ensures Encode(r) ==
      Text(r.producerId) + (Number(8, r.pkid) + (Text(r.key) + (Blob(r.content) + (Number(8, r.createTime) + Tail(r)))))
  {
    hide Text, Blob, Words, Number, Tail;
    var a, b, c, d, e, z := Text(r.producerId), Number(8, r.pkid), Text(r.key), Blob(r.content), Number(8, r.createTime), Tail(r);
    assert (a + (b + (c + (d + e)))) + z == a + (b + (c + (d + (e + z))));
  }

  lemma PlainMeets()
    ensures Plain().Inverse() && Plain().KeepsWords()
  {
    hide Encode, Decode;
    forall r ensures Plain().decode(Plain().encode(r)) == Some(r) { PlainInverse(r); }
    forall r: Record ensures Plain().Size(r) > 0 { NotEmpty(r); }
  }

  lemma NotEmpty(r: Record)
    ensures |Encode(r)| == 5 * (|r.producerId| + |r.key| + |r.namespace| + |r.shardName|) + 2 * |r.content| + |Words(r.tags)| + 33
  {
    hide Text, Blob, Words, Number;
  }

  // ---------------------------------------------------------------- a server that can be sent to

  /** The messages of a package are of moderate size. */
  predicate Moderate(s: Iden, d: ClientData)
  {
    5 * (|d.key| + |s.namespace| + |s.shardName|) + 2 * |d.content| + |Words(d.tags)| + 33 < TWO_32
  }

  /** Moderate messages can be encoded. */
  lemma ModerateIsSmall(pkgs: seq<Pkg>)
    requires forall q, k :: 0 <= q < |pkgs| && 0 <= k < |pkgs[q].data| ==> Moderate(Target(pkgs, q), pkgs[q].data[k])
    ensures AllSmall(Plain(), pkgs)
  {
    hide Encode, Target, Words;
    forall q, k | 0 <= q < |pkgs| && 0 <= k < |pkgs[q].data|
      ensures Encodable(Plain(), Target(pkgs, q), pkgs[q].data[k].key, pkgs[q].data[k].content, pkgs[q].data[k].tags)
    {
      var s, d := Target(pkgs, q), pkgs[q].data[k];
      forall pkid: u64, time: u64, offset: i64
        ensures Plain().Size(Record("", pkid, d.key, d.content, time, d.tags, offset, s.namespace, s.shardName, s.segmentSeq)) < TWO_32
      {
        NotEmpty(Record("", pkid, d.key, d.content, time, d.tags, offset, s.namespace, s.shardName, s.segmentSeq));
      }
    }
  }

  /** Nothing has ever failed. */
  ghost predicate Untroubled(v: View, s: Iden) { s in v.segs && v.segs[s].early == 0 && v.segs[s].late == 0 && v.saves == 0 }

  /** A server with one segment, open for writing without an end. */
  method NewServer(s: Iden) returns (server: JournalServer)
    ensures server.Valid() && server.codec == Plain() && server.nodes.Keys == {s} && fresh(server.Repr())
    ensures server.Now().segs[s].seg.log == [] && Untroubled(server.Now(), s) && forall n: nat :: 0 < n < TWO_63 ==> Takes(server.Now().segs[s].seg, n)
  {
    hide Encode, Decode, Inv, Frames, Ready, Init, LookOf;
    PlainMeets();
    var store := new RocksStore();
    var file := new SegmentFile(Plain());
    var node := new SegmentNode(s, file, store, Some(Write), Some(0));
    NewIsReady(file.codec, node);
    server := new JournalServer(Plain(), store, map[s := node]);
    NewIsReady(file.codec, node);
  }

  lemma NewIsReady(c: Codec, node: SegmentNode)
    requires node.file.log == [] && node.misses == node.builderMisses == node.timeouts == node.file.faults == 0
    requires node.Abs() == Seg([], -1, -1, Some(Write), Some(0), None, None, node.store.db)
    ensures Ready(c, LookOf(node).seg) && LookOf(node).seg.log == [] && LookOf(node).early == LookOf(node).late == 0
    ensures forall n: nat :: 0 < n < TWO_63 ==> Takes(LookOf(node).seg, n)
  {}

  /** The first message sent to a new server: it is answered exactly when nothing is lost and nothing fails, and
      then it is the one record of the file, and the answer is its offset 0. */
  method SendOne(link: Link, s: Iden, d: ClientData) returns (server: JournalServer, reply: Reply)
    requires Moderate(s, d)
    modifies link
    ensures server.Wired() && server.nodes.Keys == {s} && |server.Now().segs[s].seg.log| <= 1
    ensures reply == Error || (reply == Offset(0) && OnlyRecord(server.Now().segs[s].seg.log, d))
    ensures reply != Error <==> link.lost == old(link.lost) && link.dropped == old(link.dropped) && Untroubled(server.Now(), s)
  {
    hide Encode, Decode, Words, LookOf, JournalServer.Valid, Sent, Calm, AllSmall, Takes;
    server := NewServer(s);
    server.ValidWired();
    var pkgs := [Pkg(0, s, [d])];
    ghost var v := server.Now();
    ModerateIsSmall(pkgs);
    assert Left(pkgs, 1, {}) == 1 by { OneLeft(pkgs); }
    var generator, replies, ok;
    ghost var request, stored, tail;
    generator, replies, ok, request, stored, tail := BatchSenderMessage(link, server, 0, pkgs);
    OneSent(v, server.Now(), s, d, replies, ok, link.lost == old(link.lost), link.dropped == old(link.dropped), request, stored, tail);
    reply := replies[0][0];
  }

  ghost predicate OnlyRecord(log: seq<Record>, d: ClientData)
  {
    |log| == 1 && log[0].offset == 0 && log[0].key == d.key && log[0].content == d.content && log[0].tags == d.tags
  }

  lemma OneLeft(pkgs: seq<Pkg>)
    requires |pkgs| == 1 && |pkgs[0].data| == 1
    ensures Left(pkgs, 1, {}) == 1
  {}

  lemma OneSent(v: View, v': View, s: Iden, d: ClientData, replies: map<nat, seq<Reply>>, ok: bool, arrived: bool, returned: bool,
                request: seq<SegReq>, stored: nat, tail: bool)
    requires Sent(v, v', [Pkg(0, s, [d])], replies, ok, arrived, returned, request, stored, tail)
    requires Untroubled(v, s) && s in v.segs && v.segs[s].seg.log == [] && Takes(v.segs[s].seg, 1)
    ensures s in v'.segs && |v'.segs[s].seg.log| <= 1 && 0 in replies && |replies[0]| == 1
    ensures replies[0][0] == Error || (replies[0][0] == Offset(0) && OnlyRecord(v'.segs[s].seg.log, d))
    ensures replies[0][0] != Error <==> arrived && returned && Untroubled(v', s)
  {
    hide FailedLate, Calm, SegmentName, Takes, AllServed, Untroubled;
    OneServed(v, v', s, d);
    var pkgs := [Pkg(0, s, [d])];
    assert pkgs[0].data != [];
    assert MessagesNamed(pkgs, 1, SegmentName(s)) == 1 by { OneNamed(pkgs, s); }
    assert Target(pkgs, 0) == s;
  }

  lemma OneServed(v: View, v': View, s: Iden, d: ClientData)
    requires Untroubled(v, s) && Takes(v.segs[s].seg, 1)
    ensures AllServed(v, v', [Pkg(0, s, [d])]) <==> Untroubled(v', s)
  {
    hide SegmentName, Takes;
    var pkgs := [Pkg(0, s, [d])];
    assert MessagesNamed(pkgs, 1, SegmentName(s)) == 1 by { OneNamed(pkgs, s); }
    assert Target(pkgs, 0) == s;
    if AllServed(v, v', pkgs) { assert PkgServed(v, v', pkgs, 0); }
  }

  lemma OneNamed(pkgs: seq<Pkg>, s: Iden)
    requires |pkgs| == 1 && |pkgs[0].data| == 1 && pkgs[0].iden == s
    ensures MessagesNamed(pkgs, 1, SegmentName(s)) == 1
  {
    hide SegmentName;
  }
}
