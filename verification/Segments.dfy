/** Segment status, the end-offset test and offset assignment: the pure part of the writer. */
module Segments {
  import opened Options
  import opened Bytes
  import opened SegmentLog

  datatype Status = Idle | PreWrite | Write | PreSealUp | SealUp | PreDelete | Deleting {
    function Rank(): nat
    {
      match this
      case Idle => 0 case PreWrite => 1 case Write => 2 case PreSealUp => 3
      case SealUp => 4 case PreDelete => 5 case Deleting => 6
    }
  }

  datatype Verdict = Accept | SegmentNotExist | SegmentAlreadySealUp | SegmentMetaNotExists | SegmentOffsetAtTheEnd

  /** `end_offset > 0 && (current_offset + packet_len) > end_offset as u64`, on wrapping `u64`. */
  predicate IsEndOffset(endOffset: int, currentOffset: nat, packetLen: nat)
    requires IsI64(endOffset)
  {
    endOffset > 0 && WrapAdd(currentOffset, packetLen) > AsU64(endOffset)
  }

  /** On real end offsets, where -1 stands for an empty segment, the wrapping test says that the
      last offset of the batch would lie past the installed end. */
  lemma EndOffsetMeaning(endOffset: int, localEnd: int, packetLen: nat)
    requires IsI64(endOffset) && -1 <= localEnd && localEnd + packetLen < TWO_63 && packetLen > 0
    ensures IsEndOffset(endOffset, AsU64(localEnd), packetLen) <==> endOffset > 0 && localEnd + packetLen > endOffset
  {}

  /** The checks before a write, in the order the writer makes them. */
  function Validate(status: Option<Status>, metaEnd: Option<int>, localEnd: int, packetLen: nat): (v: Verdict)
    requires IsI64(localEnd) && (metaEnd.Some? ==> IsI64(metaEnd.value))
    ensures v.Accept? ==> status.Some? && status.value != SealUp && metaEnd.Some?
  {
    if status.None? then SegmentNotExist
    else if status.value == SealUp then SegmentAlreadySealUp
    else if metaEnd.None? then SegmentMetaNotExists
    else if IsEndOffset(metaEnd.value, AsU64(localEnd), packetLen) then SegmentOffsetAtTheEnd
    else Accept
  }

  /** Which refusal is which: a segment the cache does not know, one that is sealed, one without metadata, and one
      whose positive end the batch would pass.  Any other batch is accepted. */
  lemma VerdictMeaning(status: Option<Status>, metaEnd: Option<int>, localEnd: int, packetLen: nat)
    requires -1 <= localEnd && localEnd + packetLen < TWO_63 && packetLen > 0 && (metaEnd.Some? ==> IsI64(metaEnd.value))
    ensures
      var v := Validate(status, metaEnd, localEnd, packetLen);
      var writable := status.Some? && status != Some(SealUp);
      var passes := metaEnd.Some? && 0 < metaEnd.value < localEnd + packetLen;
      && (v == SegmentNotExist <==> status.None?)
      && (v == SegmentAlreadySealUp <==> status == Some(SealUp))
      && (v == SegmentMetaNotExists <==> writable && metaEnd.None?)
      && (v == SegmentOffsetAtTheEnd <==> writable && passes)
      && (v == Accept <==> writable && metaEnd.Some? && !passes)
  {
    if metaEnd.Some? { EndOffsetMeaning(metaEnd.value, localEnd, packetLen); }
  }

  /** The offset the writer gives the `j`-th record of a batch: one past the local end, wrapping. */
  function OffsetOf(localEnd: int, j: nat): (o: int)
    requires IsI64(localEnd)
    ensures IsI64(o)
  {
    AsI64(WrapAdd(AsU64(localEnd), j + 1))
  }

  function Stamp(data: seq<Record>, localEnd: int): (r: seq<Record>)
    requires IsI64(localEnd)
    ensures |r| == |data|
  {
    seq(|data|, j requires 0 <= j < |data| => data[j].(offset := OffsetOf(localEnd, j)))
  }

  /** The offsets a batch reports, by packet id.  Of two records with one id the later one's stays. */
  function OffsetMap(data: seq<Record>, localEnd: int, n: nat): map<nat, nat>
    requires IsI64(localEnd) && n <= |data|
  {
    if n == 0 then map[] else OffsetMap(data, localEnd, n - 1)[data[n - 1].pkid := WrapAdd(AsU64(localEnd), n)]
  }

  predicate DistinctIds(data: seq<Record>) { forall i, j :: 0 <= i < j < |data| ==> data[i].pkid != data[j].pkid }

  /** With distinct packet ids the report is one-to-one: every record's offset under its own id. */
  lemma {:induction false} OffsetMapExact(data: seq<Record>, localEnd: int, n: nat)
    requires -1 <= localEnd && localEnd + n < TWO_63 && n <= |data| && DistinctIds(data)
    ensures forall id :: id in OffsetMap(data, localEnd, n) ==> exists j :: 0 <= j < n && data[j].pkid == id
    ensures forall j :: 0 <= j < n ==> data[j].pkid in OffsetMap(data, localEnd, n) && OffsetMap(data, localEnd, n)[data[j].pkid] == localEnd + 1 + j
  {
    if n > 0 {
      OffsetMapExact(data, localEnd, n - 1);
      OffsetMeaning(localEnd, n - 1);
    }
  }

  /** The first offset of an empty segment is 0, and offsets go up by one. */
  lemma OffsetMeaning(localEnd: int, j: nat)
    requires -1 <= localEnd && localEnd + j + 1 < TWO_63
    ensures IsI64(localEnd) && OffsetOf(localEnd, j) == localEnd + 1 + j == WrapAdd(AsU64(localEnd), j + 1)
  {}

  predicate Contiguous(log: seq<Record>) { forall i :: 0 <= i < |log| ==> log[i].offset == i }

  /** Contiguous offsets fit a contiguous log exactly when the local end is the last offset. */
  lemma StampContiguous(log: seq<Record>, data: seq<Record>, localEnd: int)
    requires Contiguous(log) && data != [] && -1 <= localEnd && localEnd + |data| < TWO_63
    ensures IsI64(localEnd)
    ensures Contiguous(log + Stamp(data, localEnd)) <==> localEnd == |log| - 1
  {
    var all := log + Stamp(data, localEnd);
    forall i | |log| <= i < |all| ensures all[i].offset == localEnd + 1 + (i - |log|) {
      OffsetMeaning(localEnd, i - |log|);
    }
    assert all[|log|].offset == localEnd + 1;
  }
}
