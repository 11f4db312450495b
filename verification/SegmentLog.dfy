/** The contents of a segment file as a list of records, the bytes those records occupy,
    and the reference definitions of the two file reads. */
module SegmentLog {
  import opened Options
  import opened Bytes

  datatype Record = Record(
    producerId: string, pkid: u64, key: string, content: seq<byte>, createTime: u64,
    tags: seq<string>, offset: i64, namespace: string, shardName: string, segment: u32)

  /** The record serializer.  Only that decoding undoes encoding is used of it. */
  datatype Codec = Codec(encode: Record -> seq<byte>, decode: seq<byte> -> Option<Record>) {
    ghost predicate Inverse() { forall r :: decode(encode(r)) == Some(r) }
    /** A record with a key or a tag takes at least one byte. */
    ghost predicate KeepsWords() { forall r: Record :: r.key != "" || r.tags != [] ==> Size(r) > 0 }
    function Size(r: Record): nat { |encode(r)| }
  }

  datatype ReadData = ReadData(position: nat, record: Record)

  const HEADER: nat := 12

  /** `[offset: u64][len: u32][data]`; the length is truncated to 32 bits. */
  function Frame(c: Codec, r: Record): (f: seq<byte>)
    requires IsI64(r.offset)
    ensures |f| == HEADER + c.Size(r)
  {
    ToBE(8, AsU64(r.offset)) + ToBE(4, c.Size(r)) + c.encode(r)
  }

  predicate Storable(c: Codec, r: Record) { IsI64(r.offset) && c.Size(r) < TWO_32 }

  predicate AllStorable(c: Codec, log: seq<Record>) { forall i :: 0 <= i < |log| ==> Storable(c, log[i]) }

  function Frames(c: Codec, log: seq<Record>): seq<byte>
    requires AllStorable(c, log)
  {
    if log == [] then [] else Frames(c, log[..|log| - 1]) + Frame(c, log[|log| - 1])
  }

  /** The byte position at which record `i` starts. */
  function Pos(c: Codec, log: seq<Record>, i: nat): nat
    requires i <= |log|
  {
    if i == 0 then 0 else Pos(c, log, i - 1) + HEADER + c.Size(log[i - 1])
  }

  lemma {:induction false} PosMonotone(c: Codec, log: seq<Record>, i: nat, j: nat)
    requires i <= j <= |log|
    ensures Pos(c, log, i) + HEADER * (j - i) <= Pos(c, log, j)
  {
    if i < j { PosMonotone(c, log, i, j - 1); }
  }

  lemma PosInjective(c: Codec, log: seq<Record>, i: nat, j: nat)
    requires i <= |log| && j <= |log| && Pos(c, log, i) == Pos(c, log, j)
    ensures i == j
  {
    if i < j { PosMonotone(c, log, i, j); } else { PosMonotone(c, log, j, i); }
  }

  /** A byte position at which a frame starts, or the end of the file. */
  ghost predicate Aligned(c: Codec, log: seq<Record>, p: nat) { exists i :: 0 <= i <= |log| && Pos(c, log, i) == p }

  ghost function FrameIndex(c: Codec, log: seq<Record>, p: nat): (i: nat)
    requires Aligned(c, log, p)
    ensures i <= |log| && Pos(c, log, i) == p
  {
    var i :| 0 <= i <= |log| && Pos(c, log, i) == p;
    i
  }

  /** Positions depend only on the records before them, so an append moves none. */
  lemma {:induction false} PosOfAppend(c: Codec, log: seq<Record>, more: seq<Record>, i: nat)
    requires i <= |log|
    ensures Pos(c, log + more, i) == Pos(c, log, i)
  {
    if i > 0 { PosOfAppend(c, log, more, i - 1); }
  }

  lemma {:induction false} PosOfTake(c: Codec, log: seq<Record>, n: nat, i: nat)
    requires i <= n <= |log|
    ensures Pos(c, log[..n], i) == Pos(c, log, i)
  {
    if i > 0 { PosOfTake(c, log, n, i - 1); }
  }

  lemma {:induction false} FramesLength(c: Codec, log: seq<Record>)
    requires AllStorable(c, log)
    ensures |Frames(c, log)| == Pos(c, log, |log|)
  {
    if log != [] {
      FramesLength(c, log[..|log| - 1]);
      PosOfTake(c, log, |log| - 1, |log| - 1);
    }
  }

  /** Appending records appends their frames. */
  lemma {:induction false} FramesAppend(c: Codec, log: seq<Record>, more: seq<Record>)
    requires AllStorable(c, log) && AllStorable(c, more)
    ensures AllStorable(c, log + more)
    ensures Frames(c, log + more) == Frames(c, log) + Frames(c, more)
  {
    if more == [] {
      assert log + more == log;
    } else {
      FramesAppend(c, log, more[..|more| - 1]);
      assert (log + more)[..|log + more| - 1] == log + more[..|more| - 1];
    }
  }

  /** Record `i`'s frame is found at its position, whole. */
  lemma {:induction false} FrameAt(c: Codec, log: seq<Record>, i: nat)
    requires AllStorable(c, log) && i < |log|
    ensures Pos(c, log, i + 1) <= |Frames(c, log)|
    ensures Frames(c, log)[Pos(c, log, i)..Pos(c, log, i + 1)] == Frame(c, log[i])
  {
    var front := log[..|log| - 1];
    FramesLength(c, front);
    PosOfTake(c, log, |log| - 1, i);
    if i < |log| - 1 {
      PosOfTake(c, log, |log| - 1, i + 1);
      FrameAt(c, front, i);
      SliceOfLeft(Frames(c, front), Frame(c, log[|log| - 1]), Pos(c, log, i), Pos(c, log, i + 1));
    } else {
      SliceOfRight(Frames(c, front), Frame(c, log[i]));
    }
  }

  lemma SliceOfLeft(a: seq<byte>, b: seq<byte>, lo: nat, hi: nat)
    requires lo <= hi <= |a|
    ensures (a + b)[lo..hi] == a[lo..hi]
  {}

  lemma SliceOfRight(a: seq<byte>, b: seq<byte>)
    ensures (a + b)[|a|..|a| + |b|] == b
  {}

  lemma FrameFields(c: Codec, r: Record)
    requires Storable(c, r)
    ensures FromBE(Frame(c, r)[..8]) == AsU64(r.offset)
    ensures FromBE(Frame(c, r)[8..12]) == c.Size(r)
    ensures Frame(c, r)[12..] == c.encode(r)
  {
    Pow256Of4And8();
    BERoundTrip(8, AsU64(r.offset));
    BERoundTrip(4, c.Size(r));
    assert Frame(c, r)[..8] == ToBE(8, AsU64(r.offset));
    assert Frame(c, r)[8..12] == ToBE(4, c.Size(r));
  }

  lemma SubSlice(s: seq<byte>, lo: nat, hi: nat, a: nat, b: nat)
    requires lo <= hi <= |s| && a <= b <= hi - lo
    ensures s[lo..hi][a..b] == s[lo + a..lo + b]
  {
    assert forall k :: 0 <= k < b - a ==> s[lo..hi][a..b][k] == s[lo + a + k];
  }

  /** Reading eight, four or up to `len` bytes at a position. */
  function U64At(data: seq<byte>, p: nat): nat
    requires p + 8 <= |data|
  { FromBE(data[p..p + 8]) }

  function U32At(data: seq<byte>, p: nat): nat
    requires p + 4 <= |data|
  { FromBE(data[p..p + 4]) }

  function BodyAt(data: seq<byte>, p: nat, len: nat): seq<byte>
    requires p <= |data|
  { if p + len <= |data| then data[p..p + len] else data[p..] }

  /** The three fields that a reader placed at record `i`'s position finds there. */
  lemma FieldsAt(c: Codec, log: seq<Record>, i: nat)
    requires AllStorable(c, log) && i < |log|
    ensures
      var p, data := Pos(c, log, i), Frames(c, log);
      && Pos(c, log, i + 1) == p + 12 + c.Size(log[i]) <= |data|
      && U64At(data, p) == AsU64(log[i].offset)
      && U32At(data, p + 8) == c.Size(log[i])
      && BodyAt(data, p + 12, c.Size(log[i])) == c.encode(log[i])
  {
    FrameAt(c, log, i);
    FrameFields(c, log[i]);
    var p, q, data := Pos(c, log, i), Pos(c, log, i + 1), Frames(c, log);
    SubSlice(data, p, q, 0, 8);
    SubSlice(data, p, q, 8, 12);
    SubSlice(data, p, q, 12, q - p);
    assert data[p..q][12..q - p] == data[p..q][12..];
  }

  // ---------------------------------------------------------------- read by offset

  function Max1(n: nat): nat { if n == 0 then 1 else n }

  /** The records from index `i` on whose offset is at least `start`, in file order,
      each with its frame position. */
  function Matching(c: Codec, log: seq<Record>, i: nat, start: nat): seq<ReadData>
    requires i <= |log| && AllStorable(c, log)
    decreases |log| - i
  {
    if i == |log| then []
    else if AsU64(log[i].offset) < start then Matching(c, log, i + 1, start)
    else [ReadData(Pos(c, log, i), log[i])] + Matching(c, log, i + 1, start)
  }

  function TotalSize(c: Codec, s: seq<ReadData>): nat
  {
    if s == [] then 0 else TotalSize(c, s[..|s| - 1]) + c.Size(s[|s| - 1].record)
  }

  /** `n` is how many of `all` a read takes: as many as possible such that all but the last
      sum to at most `maxSize`, and no more than `room`. */
  ghost predicate GreedyCount(c: Codec, all: seq<ReadData>, maxSize: nat, room: nat, n: nat)
  {
    && n <= |all| && n <= room
    && (n > 0 ==> TotalSize(c, all[..n - 1]) <= maxSize)
    && (n == |all| || n == room || TotalSize(c, all[..n]) > maxSize)
  }

  /** The file read as one recursion over the records, given what it has read so far. */
  function ReadFrom(c: Codec, log: seq<Record>, i: nat, start: nat, maxSize: nat, room: nat, already: nat): seq<ReadData>
    requires i <= |log| && AllStorable(c, log)
    decreases |log| - i
  {
    if i == |log| || already > maxSize then []
    else if AsU64(log[i].offset) < start then ReadFrom(c, log, i + 1, start, maxSize, room, already)
    else
      [ReadData(Pos(c, log, i), log[i])] +
      if room <= 1 then [] else ReadFrom(c, log, i + 1, start, maxSize, room - 1, already + c.Size(log[i]))
  }

  lemma {:induction false} TotalSizeCons(c: Codec, x: ReadData, s: seq<ReadData>)
    ensures TotalSize(c, [x] + s) == c.Size(x.record) + TotalSize(c, s)
  {
    if s == [] {
      assert [x] + s == [x];
      assert [x][..0] == [];
    } else {
      TotalSizeCons(c, x, s[..|s| - 1]);
      assert ([x] + s)[..|s|] == [x] + s[..|s| - 1];
    }
  }

  /** The recursion takes a prefix of the matching records, and that prefix is the greedy one. */
  lemma {:induction false} ReadFromGreedy(c: Codec, log: seq<Record>, i: nat, start: nat, maxSize: nat, room: nat, already: nat)
    requires i <= |log| && AllStorable(c, log) && room >= 1
    ensures already > maxSize ==> ReadFrom(c, log, i, start, maxSize, room, already) == []
    ensures already <= maxSize ==>
      var got, all := ReadFrom(c, log, i, start, maxSize, room, already), Matching(c, log, i, start);
      |got| <= |all| && got == all[..|got|] && GreedyCount(c, all, maxSize - already, room, |got|)
    decreases |log| - i
  {
    if i < |log| && already <= maxSize {
      if AsU64(log[i].offset) < start {
        ReadFromGreedy(c, log, i + 1, start, maxSize, room, already);
      } else {
        var x := ReadData(Pos(c, log, i), log[i]);
        var rest := Matching(c, log, i + 1, start);
        assert Matching(c, log, i, start) == [x] + rest;
        if room > 1 {
          var got := ReadFrom(c, log, i + 1, start, maxSize, room - 1, already + c.Size(log[i]));
          ReadFromGreedy(c, log, i + 1, start, maxSize, room - 1, already + c.Size(log[i]));
          GreedyCons(c, x, rest, maxSize - already, room, |got|);
          assert ([x] + rest)[..1 + |got|] == [x] + rest[..|got|];
        } else {
          assert ([x] + rest)[..1] == [x];
        }
      }
    }
  }

  /** One more record in front of a greedy prefix, or alone when it leaves no room. */
  lemma GreedyCons(c: Codec, x: ReadData, rest: seq<ReadData>, maxSize: nat, room: nat, n: nat)
    requires room > 1
    requires if c.Size(x.record) > maxSize then n == 0 else GreedyCount(c, rest, maxSize - c.Size(x.record), room - 1, n)
    ensures GreedyCount(c, [x] + rest, maxSize, room, n + 1)
  {
    hide TotalSize;
    var all := [x] + rest;
    assert all[..1 + n] == [x] + rest[..n];
    TotalSizeCons(c, x, rest[..n]);
    TotalSizeNil(c);
    assert all[..0] == rest[..0] == [];
    if n > 0 {
      assert all[..n] == [x] + rest[..n - 1];
      TotalSizeCons(c, x, rest[..n - 1]);
    }
  }

  lemma TotalSizeNil(c: Codec)
    ensures TotalSize(c, []) == 0
  {}

  /** A file read in one sentence: of the records from its start whose offset is high enough, in file
      order and each at its position, the longest prefix whose bodies but the last sum to at most
      `maxSize`, and of at most `maxRecord` records, or one if that is zero. */
  lemma ExactRead(c: Codec, log: seq<Record>, i: nat, start: nat, maxSize: nat, maxRecord: nat, n: nat)
    requires i <= |log| && AllStorable(c, log)
    requires GreedyCount(c, Matching(c, log, i, start), maxSize, if maxRecord == 0 then 1 else maxRecord, n)
    ensures ReadFrom(c, log, i, start, maxSize, Max1(maxRecord), 0) == Matching(c, log, i, start)[..n]
  {
    hide ReadFrom, Matching, GreedyCount;
    ReadFromGreedy(c, log, i, start, maxSize, Max1(maxRecord), 0);
    var got := ReadFrom(c, log, i, start, maxSize, Max1(maxRecord), 0);
    GreedyUnique(c, Matching(c, log, i, start), maxSize, Max1(maxRecord), |got|, n);
  }

  /** Exactly one count is greedy, so the greedy prefix is the read's whole meaning. */
  lemma GreedyUnique(c: Codec, all: seq<ReadData>, maxSize: nat, room: nat, m: nat, n: nat)
    requires GreedyCount(c, all, maxSize, room, m) && GreedyCount(c, all, maxSize, room, n)
    ensures m == n
  {
    if m < n {
      TotalSizeMonotone(c, all, m, n - 1);
    } else if n < m {
      TotalSizeMonotone(c, all, n, m - 1);
    }
  }

  lemma {:induction false} TotalSizeMonotone(c: Codec, all: seq<ReadData>, m: nat, n: nat)
    requires m <= n <= |all|
    ensures TotalSize(c, all[..m]) <= TotalSize(c, all[..n])
  {
    if m < n {
      TotalSizeMonotone(c, all, m, n - 1);
      assert all[..n][..n - 1] == all[..n - 1];
    }
  }

  // ---------------------------------------------------------------- read by positions

  ghost predicate StartsRecord(c: Codec, log: seq<Record>, p: nat)
  {
    exists i :: 0 <= i < |log| && Pos(c, log, i) == p
  }

  ghost function IndexAt(c: Codec, log: seq<Record>, p: nat): (i: nat)
    requires StartsRecord(c, log, p)
    ensures i < |log| && Pos(c, log, i) == p
  {
    var i :| 0 <= i < |log| && Pos(c, log, i) == p;
    i
  }

  /** The records at the given frame starts, in the order asked; a record whose encoding
      is empty is passed over. */
  ghost function ReadAt(c: Codec, log: seq<Record>, ps: seq<nat>): seq<ReadData>
    requires forall p :: p in ps ==> StartsRecord(c, log, p)
  {
    if ps == [] then []
    else
      var p := ps[|ps| - 1];
      var r := log[IndexAt(c, log, p)];
      ReadAt(c, log, ps[..|ps| - 1]) + if c.Size(r) == 0 then [] else [ReadData(p, r)]
  }

  function Positions(s: seq<ReadData>): seq<nat>
  {
    seq(|s|, i requires 0 <= i < |s| => s[i].position)
  }

  ghost predicate FromLog(c: Codec, log: seq<Record>, s: seq<ReadData>)
  {
    forall k :: 0 <= k < |s| ==>
      StartsRecord(c, log, s[k].position) && log[IndexAt(c, log, s[k].position)] == s[k].record
  }

  lemma {:induction false} ReadFromIsFromLog(c: Codec, log: seq<Record>, i: nat, start: nat, maxSize: nat, room: nat, already: nat)
    requires i <= |log| && AllStorable(c, log)
    ensures FromLog(c, log, ReadFrom(c, log, i, start, maxSize, room, already))
    decreases |log| - i
  {
    if i < |log| && already <= maxSize {
      if AsU64(log[i].offset) < start {
        ReadFromIsFromLog(c, log, i + 1, start, maxSize, room, already);
      } else {
        assert StartsRecord(c, log, Pos(c, log, i));
        PosInjective(c, log, i, IndexAt(c, log, Pos(c, log, i)));
        if room > 1 {
          ReadFromIsFromLog(c, log, i + 1, start, maxSize, room - 1, already + c.Size(log[i]));
        }
      }
    }
  }

  /** Reading records back by the positions reported for them returns at most those records,
      and all of them exactly when none has an empty encoding. */
  lemma {:induction false} ReadAtPositions(c: Codec, log: seq<Record>, s: seq<ReadData>)
    requires FromLog(c, log, s)
    ensures forall p :: p in Positions(s) ==> StartsRecord(c, log, p)
    ensures |ReadAt(c, log, Positions(s))| <= |s|
    ensures ReadAt(c, log, Positions(s)) == s <==> forall k :: 0 <= k < |s| ==> c.Size(s[k].record) > 0
  {
    if s != [] {
      var front, last := s[..|s| - 1], s[|s| - 1];
      assert s == front + [last];
      ReadAtPositions(c, log, front);
      assert Positions(s)[..|s| - 1] == Positions(front);
      var got := ReadAt(c, log, Positions(front));
      assert ReadAt(c, log, Positions(s)) == got + if c.Size(last.record) == 0 then [] else [last];
      if c.Size(last.record) > 0 {
        SameSnoc(got, front, last);
      }
    }
  }

  lemma SameSnoc(a: seq<ReadData>, b: seq<ReadData>, x: ReadData)
    ensures a + [x] == b + [x] <==> a == b
  {
    if a + [x] == b + [x] {
      assert a == (a + [x])[..|a|] && b == (b + [x])[..|b|];
    }
  }

  /** An offset read followed by a read of the positions it reported returns the same records
      at the same positions, exactly when none of them has an empty encoding. */
  lemma PositionRoundTrip(c: Codec, log: seq<Record>, i: nat, start: nat, maxSize: nat, room: nat)
    requires i <= |log| && AllStorable(c, log)
    ensures
      var got := ReadFrom(c, log, i, start, maxSize, room, 0);
      && (forall p :: p in Positions(got) ==> StartsRecord(c, log, p))
      && (ReadAt(c, log, Positions(got)) == got <==> forall k :: 0 <= k < |got| ==> c.Size(got[k].record) > 0)
  {
    ReadFromIsFromLog(c, log, i, start, maxSize, room, 0);
    ReadAtPositions(c, log, ReadFrom(c, log, i, start, maxSize, room, 0));
  }

  /** Positions of given records read back those records, in that order, when none encodes to nothing. */
  lemma {:induction false} ReadAtRecords(c: Codec, log: seq<Record>, ps: seq<nat>, js: seq<nat>)
    requires |ps| == |js|
    requires forall k :: 0 <= k < |js| ==> js[k] < |log| && ps[k] == Pos(c, log, js[k]) && c.Size(log[js[k]]) > 0
    ensures forall p :: p in ps ==> StartsRecord(c, log, p)
    ensures |ReadAt(c, log, ps)| == |js|
    ensures forall k :: 0 <= k < |js| ==> ReadAt(c, log, ps)[k] == ReadData(ps[k], log[js[k]])
  {
    hide Pos;
    assert forall k :: 0 <= k < |js| ==> StartsRecord(c, log, ps[k]);
    if ps != [] {
      var n := |ps| - 1;
      ReadAtRecords(c, log, ps[..n], js[..n]);
      PosInjective(c, log, js[n], IndexAt(c, log, ps[n]));
    }
  }
}
