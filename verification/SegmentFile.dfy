/** The segment file: an append-only byte sequence of frames, with the two reads over it. */
module SegmentFiles {
  import opened Options
  import opened Bytes
  import opened SegmentLog

  datatype IoError = UnexpectedEof | InvalidSeek | DecodeFailed | WriteFailed

  datatype ReadResult = Ok(data: seq<ReadData>) | Err(error: IoError)

  // ---------------------------------------------------------------- what a reader finds in any bytes

  function Joined(front: seq<ReadData>, r: ReadResult): ReadResult
  {
    match r
    case Ok(data) => Ok(front + data)
    case Err(e) => Err(e)
  }

  /** A read from any position of any bytes. */
  function ReadBytes(c: Codec, data: seq<byte>, position: nat, start: nat, maxSize: nat, room: nat, already: nat): ReadResult
    decreases |data| - position
  {
    if already > maxSize || position + 8 > |data| then Ok([])
    else if position + 12 > |data| then Err(UnexpectedEof)
    else
      var len := U32At(data, position + 8);
      if U64At(data, position) < start then ReadBytes(c, data, position + 12 + len, start, maxSize, room, already)
      else
        var body := BodyAt(data, position + 12, len);
        match c.decode(body)
        case None => Err(DecodeFailed)
        case Some(record) =>
          var here := [ReadData(position, record)];
          if room <= 1 then Ok(here)
          else Joined(here, ReadBytes(c, data, position + 12 + |body|, start, maxSize, room - 1, already + |body|))
  }

  /** A read of single positions, whatever they are. */
  function ReadBytesAt(c: Codec, data: seq<byte>, ps: seq<nat>): ReadResult
  {
    if ps == [] || ps[0] + 8 > |data| then Ok([])
    else if ps[0] + 12 > |data| then Err(UnexpectedEof)
    else
      var len := U32At(data, ps[0] + 8);
      if len == 0 then ReadBytesAt(c, data, ps[1..])
      else
        match c.decode(BodyAt(data, ps[0] + 12, len))
        case None => Err(DecodeFailed)
        case Some(record) => Joined([ReadData(ps[0], record)], ReadBytesAt(c, data, ps[1..]))
  }

  /** More bytes behind the frames do not change what is found at a record. */
  lemma FieldsBefore(c: Codec, log: seq<Record>, tail: seq<byte>, i: nat)
    requires AllStorable(c, log) && i < |log|
    ensures
      var p, data := Pos(c, log, i), Frames(c, log) + tail;
      && Pos(c, log, i + 1) == p + 12 + c.Size(log[i]) <= |Frames(c, log)|
      && U64At(data, p) == AsU64(log[i].offset) && U32At(data, p + 8) == c.Size(log[i])
      && BodyAt(data, p + 12, c.Size(log[i])) == c.encode(log[i])
  {
    hide Frames, Pos, FromBE;
    FieldsAt(c, log, i);
    var p, q, frames := Pos(c, log, i), Pos(c, log, i + 1), Frames(c, log);
    SliceOfLeft(frames, tail, p, p + 8);
    SliceOfLeft(frames, tail, p + 8, p + 12);
    SliceOfLeft(frames, tail, p + 12, q);
  }

  /** Where the frames end and the read goes on. */
  predicate ReachesEnd(c: Codec, got: seq<ReadData>, maxSize: nat, room: nat, already: nat)
  {
    |got| < room && already + TotalSize(c, got) <= maxSize
  }

  /** What has been got, and what the read finds from `end` on if it gets there. */
  function Onward(c: Codec, data: seq<byte>, end: nat, got: seq<ReadData>, start: nat, maxSize: nat, room: nat, already: nat): ReadResult
  {
    if ReachesEnd(c, got, maxSize, room, already) then
      Joined(got, ReadBytes(c, data, end, start, maxSize, room - |got|, already + TotalSize(c, got)))
    else Ok(got)
  }

  lemma OnwardCons(c: Codec, data: seq<byte>, end: nat, x: ReadData, rest: seq<ReadData>, start: nat, maxSize: nat, room: nat, already: nat)
    requires room > 1
    ensures
      Joined([x], Onward(c, data, end, rest, start, maxSize, room - 1, already + c.Size(x.record))) ==
      Onward(c, data, end, [x] + rest, start, maxSize, room, already)
  {
    hide ReadBytes, TotalSize;
    TotalSizeCons(c, x, rest);
    if ReachesEnd(c, [x] + rest, maxSize, room, already) {
      JoinTwice([x], rest, ReadBytes(c, data, end, start, maxSize, room - |[x] + rest|, already + TotalSize(c, [x] + rest)));
    }
  }

  /** One record of a read. */
  lemma BytesOfRecord(c: Codec, log: seq<Record>, tail: seq<byte>, i: nat, start: nat, maxSize: nat, room: nat, already: nat)
    requires c.Inverse() && AllStorable(c, log) && i < |log| && already <= maxSize
    ensures
      var data, x := Frames(c, log) + tail, ReadData(Pos(c, log, i), log[i]);
      ReadBytes(c, data, Pos(c, log, i), start, maxSize, room, already) ==
      if AsU64(log[i].offset) < start then ReadBytes(c, data, Pos(c, log, i + 1), start, maxSize, room, already)
      else if room <= 1 then Ok([x])
      else Joined([x], ReadBytes(c, data, Pos(c, log, i + 1), start, maxSize, room - 1, already + c.Size(log[i])))
  {
    hide Frames, Pos, FromBE;
    FieldsBefore(c, log, tail, i);
    assert c.decode(c.encode(log[i])) == Some(log[i]);
  }

  /** On frames, with any bytes behind them, a read is the recursion over the records, and what it finds
      behind them if it gets there. */
  lemma {:induction false} BytesOfFrames(c: Codec, log: seq<Record>, tail: seq<byte>, i: nat, start: nat, maxSize: nat, room: nat, already: nat)
    requires c.Inverse() && AllStorable(c, log) && i <= |log| && room >= 1
    ensures
      ReadBytes(c, Frames(c, log) + tail, Pos(c, log, i), start, maxSize, room, already) ==
      Onward(c, Frames(c, log) + tail, |Frames(c, log)|, ReadFrom(c, log, i, start, maxSize, room, already), start, maxSize, room, already)
    decreases |log| - i
  {
    hide Frames, Pos, Onward, ReadBytes;
    var data, end := Frames(c, log) + tail, |Frames(c, log)|;
    if i == |log| || already > maxSize {
      FramesLength(c, log);
      OnwardNil(c, data, end, Pos(c, log, i), start, maxSize, room, already);
    } else {
      BytesOfRecord(c, log, tail, i, start, maxSize, room, already);
      if AsU64(log[i].offset) < start {
        BytesOfFrames(c, log, tail, i + 1, start, maxSize, room, already);
      } else if room > 1 {
        BytesOfFrames(c, log, tail, i + 1, start, maxSize, room - 1, already + c.Size(log[i]));
        OnwardCons(c, data, end, ReadData(Pos(c, log, i), log[i]), ReadFrom(c, log, i + 1, start, maxSize, room - 1, already + c.Size(log[i])), start, maxSize, room, already);
      } else {
        assert [ReadData(Pos(c, log, i), log[i])] + [] == [ReadData(Pos(c, log, i), log[i])];
        OnwardFull(c, data, end, ReadData(Pos(c, log, i), log[i]), start, maxSize, already);
      }
    }
  }

  lemma OnwardNil(c: Codec, data: seq<byte>, end: nat, p: nat, start: nat, maxSize: nat, room: nat, already: nat)
    requires room >= 1 && (p == end || already > maxSize)
    ensures Onward(c, data, end, [], start, maxSize, room, already) == ReadBytes(c, data, p, start, maxSize, room, already)
  {
    TotalSizeNil(c);
    var r := ReadBytes(c, data, end, start, maxSize, room, already);
    if r.Ok? { assert [] + r.data == r.data; }
  }

  lemma OnwardFull(c: Codec, data: seq<byte>, end: nat, x: ReadData, start: nat, maxSize: nat, already: nat)
    ensures Onward(c, data, end, [x], start, maxSize, 1, already) == Ok([x])
  {}

  lemma JoinTwice(a: seq<ReadData>, b: seq<ReadData>, r: ReadResult)
    ensures Joined(a, Joined(b, r)) == Joined(a + b, r)
  {
    if r.Ok? { assert a + (b + r.data) == (a + b) + r.data; }
  }

  lemma JoinNothing(r: ReadResult)
    ensures Joined([], r) == r
  {
    if r.Ok? { assert [] + r.data == r.data; }
  }

  // ---------------------------------------------------------------- a write that was cut short

  /** A read of a file whose last frame was cut short, in every case: less than an offset of it ends the read,
      less than a header is an error if the read gets there, and part of a body is taken for a body. */
  lemma CutFrame(c: Codec, log: seq<Record>, r: Record, n: nat, i: nat, start: nat, maxSize: nat, room: nat)
    requires c.Inverse() && AllStorable(c, log) && Storable(c, r) && n < |Frame(c, r)| && i <= |log| && room >= 1
    ensures
      var got := ReadFrom(c, log, i, start, maxSize, room, 0);
      ReadBytes(c, Frames(c, log) + Frame(c, r)[..n], Pos(c, log, i), start, maxSize, room, 0) ==
      if n < 8 || !ReachesEnd(c, got, maxSize, room, 0) then Ok(got)
      else if n < 12 then Err(UnexpectedEof)
      else if AsU64(r.offset) < start then Ok(got)
      else
        match c.decode(c.encode(r)[..n - 12])
        case None => Err(DecodeFailed)
        case Some(x) => Ok(got + [ReadData(Pos(c, log, |log|), x)])
  {
    hide Frames, Pos, ReadFrom, TotalSize, Frame, ReadBytes;
    var tail, end := Frame(c, r)[..n], |Frames(c, log)|;
    BytesOfFrames(c, log, tail, i, start, maxSize, room, 0);
    FramesLength(c, log);
    var got := ReadFrom(c, log, i, start, maxSize, room, 0);
    assert got + [] == got;
    if ReachesEnd(c, got, maxSize, room, 0) {
      CutAlone(c, Frames(c, log), r, n, start, maxSize, room - |got|, TotalSize(c, got));
    }
  }

  lemma CutAlone(c: Codec, front: seq<byte>, r: Record, n: nat, start: nat, maxSize: nat, room: nat, already: nat)
    requires Storable(c, r) && n < |Frame(c, r)| && room >= 1 && already <= maxSize
    ensures
      ReadBytes(c, front + Frame(c, r)[..n], |front|, start, maxSize, room, already) ==
      if n < 8 then Ok([])
      else if n < 12 then Err(UnexpectedEof)
      else if AsU64(r.offset) < start then Ok([])
      else
        match c.decode(c.encode(r)[..n - 12])
        case None => Err(DecodeFailed)
        case Some(x) => Ok([ReadData(|front|, x)])
  {
    hide Frame, FromBE;
    var data := front + Frame(c, r)[..n];
    if n >= 12 {
      FrameFields(c, r);
      assert data[|front|..|front| + 8] == Frame(c, r)[..8];
      assert data[|front| + 8..|front| + 12] == Frame(c, r)[8..12];
      assert data[|front| + 12..] == Frame(c, r)[12..][..n - 12];
    }
  }

  /** A cut write leaves whole frames and then at most a part of one. */
  lemma {:induction false} CutWrite(c: Codec, records: seq<Record>, n: nat) returns (k: nat, m: nat)
    requires AllStorable(c, records) && n < |Frames(c, records)|
    ensures k < |records| && m < |Frame(c, records[k])| && Frames(c, records)[..n] == Frames(c, records[..k]) + Frame(c, records[k])[..m]
  {
    var last := |records| - 1;
    var front := Frames(c, records[..last]);
    if n < |front| {
      k, m := CutWrite(c, records[..last], n);
      assert records[..last][..k] == records[..k];
      assert Frames(c, records)[..n] == front[..n];
    } else {
      k, m := last, n - |front|;
    }
  }

  /** So a file on which a write was cut short is the file of the old records and some of the new ones, with
      part of one more frame behind them: reads find the whole ones as if they had been written alone. */
  lemma CutFile(c: Codec, log: seq<Record>, records: seq<Record>, n: nat) returns (k: nat, m: nat)
    requires AllStorable(c, log) && AllStorable(c, records) && n < |Frames(c, records)|
    ensures k < |records| && m < |Frame(c, records[k])| && AllStorable(c, log + records[..k])
    ensures Frames(c, log) + Frames(c, records)[..n] == Frames(c, log + records[..k]) + Frame(c, records[k])[..m]
  {
    hide Frames, Frame;
    k, m := CutWrite(c, records, n);
    FramesAppend(c, log, records[..k]);
    assert Frames(c, log) + (Frames(c, records[..k]) + Frame(c, records[k])[..m]) == Frames(c, log) + Frames(c, records[..k]) + Frame(c, records[k])[..m];
  }

  class SegmentFile {
    const codec: Codec
    var data: seq<byte>
    ghost var log: seq<Record>
    /** How many writes have failed. */
    ghost var faults: nat

    /** The bytes are the frames of the records written so far. */
    ghost predicate Valid()
      reads this
    {
      codec.Inverse() && AllStorable(codec, log) && data == Frames(codec, log)
    }

    constructor (codec: Codec)
      requires codec.Inverse()
      ensures Valid() && log == [] && data == [] && faults == 0 && this.codec == codec
    {
      this.codec := codec;
      data := [];
      log := [];
      faults := 0;
    }

    /** Appends the records' frames through a buffer that is flushed at the end.
        The write may fail; a failed write is taken to leave the file as it was. */
    method Write(records: seq<Record>) returns (ok: bool)
      requires Valid() && AllStorable(codec, records)
      modifies this
      ensures Valid()
      ensures log == if ok then old(log) + records else old(log)
      ensures old(data) <= data && faults == old(faults) + if ok then 0 else 1
    {
      var buffer: seq<byte> := [];
      for i := 0 to |records|
        invariant buffer == Frames(codec, records[..i])
        invariant log == old(log) && data == old(data) && faults == old(faults)
      {
        var body := codec.encode(records[i]);
        buffer := buffer + ToBE(8, AsU64(records[i].offset)) + ToBE(4, |body|) + body;
        assert records[..i + 1][..i] == records[..i];
        assert buffer == Frames(codec, records[..i]) + Frame(codec, records[i]);
      }
      assert records[..|records|] == records;
      if * {
        faults := faults + 1;
        return false;
      }
      data := data + buffer;
      FramesAppend(codec, log, records);
      log := log + records;
      ok := true;
    }

    /** Reads records from a byte position: skips those below `startOffset`, stops once the
        bodies read exceed `maxSize`, after `maxRecord` records, or at the end of the file.
        From the start of any frame, or the end of the file, the result is `ReadFrom`. */
    method ReadByOffset(startPosition: nat, startOffset: nat, maxSize: nat, maxRecord: nat) returns (r: ReadResult)
      ensures
        r ==
        if startPosition >= TWO_63 then Err(InvalidSeek)
        else ReadBytes(codec, data, startPosition, startOffset, maxSize, Max1(maxRecord), 0)
      ensures Valid() ==> forall s :: 0 <= s <= |log| && Pos(codec, log, s) == startPosition && startPosition < TWO_63 ==>
        r == Ok(ReadFrom(codec, log, s, startOffset, maxSize, Max1(maxRecord), 0))
    {
      hide Frames, ReadFrom, Pos, U64At, U32At;
      if startPosition >= TWO_63 {
        return Err(InvalidSeek);
      }
      var position: nat, already: nat, results: seq<ReadData> := startPosition, 0, [];
      ghost var goal := ReadBytes(codec, data, startPosition, startOffset, maxSize, Max1(maxRecord), 0);
      if Valid() {
        forall s | 0 <= s <= |log| && Pos(codec, log, s) == startPosition
          ensures goal == Ok(ReadFrom(codec, log, s, startOffset, maxSize, Max1(maxRecord), 0))
        {
          BytesOfFile(s, startOffset, maxSize, Max1(maxRecord));
        }
      }
      JoinNothing(goal);
      while true
        invariant |results| < Max1(maxRecord)
        invariant goal == Joined(results, ReadBytes(codec, data, position, startOffset, maxSize, Max1(maxRecord) - |results|, already))
        decreases |data| - position
      {
        if already > maxSize {
          break;
        }
        if position + 8 > |data| {
          break;
        }
        var recordOffset := U64At(data, position);
        if position + 12 > |data| {
          return Err(UnexpectedEof);
        }
        var len := U32At(data, position + 8);
        if recordOffset < startOffset {
          position := position + 12 + len;
          continue;
        }
        var body := BodyAt(data, position + 12, len);
        already := already + |body|;
        match codec.decode(body) {
          case None => return Err(DecodeFailed);
          case Some(record) =>
            JoinTwice(results, [ReadData(position, record)], ReadBytes(codec, data, position + 12 + |body|, startOffset, maxSize, Max1(maxRecord) - |results| - 1, already));
            results := results + [ReadData(position, record)];
        }
        position := position + 12 + |body|;
        if |results| >= maxRecord {
          break;
        }
      }
      r := Ok(results);
    }

    /** From a record start, or the end of the file. */
    lemma BytesOfFile(s: nat, start: nat, maxSize: nat, room: nat)
      requires Valid() && s <= |log| && room >= 1
      ensures ReadBytes(codec, data, Pos(codec, log, s), start, maxSize, room, 0) == Ok(ReadFrom(codec, log, s, start, maxSize, room, 0))
    {
      hide Frames, Pos, ReadFrom, TotalSize;
      BytesOfFrames(codec, log, [], s, start, maxSize, room, 0);
      assert Frames(codec, log) + [] == Frames(codec, log);
      var got := ReadFrom(codec, log, s, start, maxSize, room, 0);
      assert got + [] == got;
    }

    /** What the bytes at record `i`'s position decode to. */
    lemma StepFacts(i: nat)
      requires Valid() && i <= |log|
      ensures i == |log| ==> Pos(codec, log, i) == |data|
      ensures i < |log| ==>
        var p := Pos(codec, log, i);
        && Pos(codec, log, i + 1) == p + 12 + codec.Size(log[i]) <= |data|
        && U64At(data, p) == AsU64(log[i].offset)
        && U32At(data, p + 8) == codec.Size(log[i])
        && BodyAt(data, p + 12, codec.Size(log[i])) == codec.encode(log[i])
        && codec.decode(codec.encode(log[i])) == Some(log[i])
    {
      if i < |log| { FieldsAt(codec, log, i); } else { FramesLength(codec, log); }
    }

    /** The first `n` positions are record starts. */
    ghost predicate Known(positions: seq<nat>, n: nat)
      reads this
      requires n <= |positions|
    {
      forall p :: p in positions[..n] ==> StartsRecord(codec, log, p)
    }

    /** What the bytes at one more record start add to the result. */
    lemma PositionFacts(positions: seq<nat>, k: nat)
      requires Valid() && k < |positions| && Known(positions, k + 1)
      ensures Known(positions, k)
      ensures
        var p := positions[k];
        && p + 12 <= |data| && p + 12 + U32At(data, p + 8) <= |data|
        && (U32At(data, p + 8) == 0 ==> ReadAt(codec, log, positions[..k + 1]) == ReadAt(codec, log, positions[..k]))
        && (U32At(data, p + 8) > 0 ==>
            var record := codec.decode(BodyAt(data, p + 12, U32At(data, p + 8)));
            record.Some? && ReadAt(codec, log, positions[..k + 1]) == ReadAt(codec, log, positions[..k]) + [ReadData(p, record.value)])
    {
      hide Frames, Pos, U64At, U32At;
      assert positions[..k + 1][..k] == positions[..k];
      assert positions[k] in positions[..k + 1];
      StepFacts(IndexAt(codec, log, positions[k]));
    }

    /** Reads one record at each byte position; stops at a position past the end and passes over a zero
        length.  On record starts the result is `ReadAt`, up to the end of the list or the first position
        past the end of the file, which drops all that follow. */
    method ReadByPositions(positions: seq<nat>) returns (r: ReadResult)
      ensures r == ReadBytesAt(codec, data, positions)
      ensures Valid() ==> forall n :: 0 <= n <= |positions| && (n == |positions| || positions[n] + 8 > |data|) && Known(positions, n) ==>
        r == Ok(ReadAt(codec, log, positions[..n]))
    {
      hide Frames, StartsRecord, ReadAt, U64At, U32At, BodyAt, Known;
      var results: seq<ReadData> := [];
      ghost var goal := ReadBytesAt(codec, data, positions);
      if Valid() {
        forall n | 0 <= n <= |positions| && (n == |positions| || positions[n] + 8 > |data|) && Known(positions, n)
          ensures forall p :: p in positions[..n] ==> StartsRecord(codec, log, p)
          ensures goal == Ok(ReadAt(codec, log, positions[..n]))
        {
          KnownMeans(positions, n);
          BytesAtKnown(positions, n);
        }
      }
      JoinNothing(goal);
      assert positions[0..] == positions;
      for k := 0 to |positions|
        invariant goal == Joined(results, ReadBytesAt(codec, data, positions[k..]))
      {
        var position := positions[k];
        assert positions[k..][0] == position && positions[k..][1..] == positions[k + 1..];
        if position + 8 > |data| {
          return Ok(results);
        }
        if position + 12 > |data| {
          return Err(UnexpectedEof);
        }
        var len := U32At(data, position + 8);
        if len == 0 {
          continue;
        }
        match codec.decode(BodyAt(data, position + 12, len)) {
          case None => return Err(DecodeFailed);
          case Some(record) =>
            JoinTwice(results, [ReadData(position, record)], ReadBytesAt(codec, data, positions[k + 1..]));
            results := results + [ReadData(position, record)];
        }
      }
      r := Ok(results);
    }

    lemma KnownMeans(positions: seq<nat>, n: nat)
      requires n <= |positions| && Known(positions, n)
      ensures forall p :: p in positions[..n] ==> StartsRecord(codec, log, p)
    {}

    /** The part of a list of positions that are record starts gives the records at them. */
    lemma {:induction false} BytesAtFront(positions: seq<nat>, k: nat)
      requires Valid() && k <= |positions| && Known(positions, k)
      ensures ReadBytesAt(codec, data, positions) == Joined(ReadAt(codec, log, positions[..k]), ReadBytesAt(codec, data, positions[k..]))
    {
      hide Frames, StartsRecord, ReadAt, U64At, U32At, BodyAt;
      if k == 0 {
        NoPositions(positions);
        assert positions[0..] == positions;
        JoinNothing(ReadBytesAt(codec, data, positions));
      } else {
        PositionFacts(positions, k - 1);
        BytesAtFront(positions, k - 1);
        var rest := positions[k - 1..];
        assert rest[0] == positions[k - 1] && rest[1..] == positions[k..];
        var p := positions[k - 1];
        if U32At(data, p + 8) > 0 {
          JoinTwice(ReadAt(codec, log, positions[..k - 1]), [ReadData(p, codec.decode(BodyAt(data, p + 12, U32At(data, p + 8))).value)], ReadBytesAt(codec, data, positions[k..]));
        }
      }
    }

    lemma BytesAtKnown(positions: seq<nat>, n: nat)
      requires Valid() && n <= |positions| && (n == |positions| || positions[n] + 8 > |data|) && Known(positions, n)
      ensures ReadBytesAt(codec, data, positions) == Ok(ReadAt(codec, log, positions[..n]))
    {
      hide Frames, StartsRecord, ReadAt;
      BytesAtFront(positions, n);
      var got := ReadAt(codec, log, positions[..n]);
      assert got + [] == got;
    }

    lemma NoPositions(positions: seq<nat>)
      ensures Known(positions, 0) && ReadAt(codec, log, positions[..0]) == []
    {}
  }
}
