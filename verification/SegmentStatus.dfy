/** The status of the segments of one shard, in the local cache and at the placement center. */
module SegmentStatus {
  import opened Segments

  /** `cache` is what this node believes; `center` what the placement center was last told. */
  datatype Shard = Shard(cache: map<nat, Status>, center: map<nat, Status>)

  function Put(sh: Shard, s: nat, st: Status): Shard { Shard(sh.cache[s := st], sh.center[s := st]) }

  function Move(sh: Shard, s: nat, from: Status, to: Status): Shard
  {
    if s in sh.cache && sh.cache[s] == from then Put(sh, s, to) else sh
  }

  /** Promotion to Write does not look at the current status. */
  function ToWrite(sh: Shard, s: nat): Shard { if s in sh.cache then Put(sh, s, Write) else sh }

  function PreSeal(sh: Shard, s: nat): Shard { Move(Move(sh, s, Write, PreSealUp), s + 1, Idle, PreWrite) }

  function Seal(sh: Shard, s: nat): Shard { ToWrite(Move(sh, s, PreSealUp, SealUp), s + 1) }

  datatype Event = PreSealing(s: nat) | Sealing(s: nat) | WriterSeals(s: nat) | Create(s: nat, st: Status)

  function Next(sh: Shard, e: Event): Shard
  {
    match e
    case PreSealing(s) => PreSeal(sh, s)
    case Sealing(s) => Seal(sh, s)
    case WriterSeals(s) => if s in sh.cache then sh.(cache := sh.cache[s := SealUp]) else sh
    case Create(s, st) => if s in sh.cache then sh else sh.(cache := sh.cache[s := st])
  }

  /** No segment falls back to an earlier status. */
  predicate NoneFallsBack(before: Shard, after: Shard)
  {
    forall s :: s in before.cache ==> s in after.cache && before.cache[s].Rank() <= after.cache[s].Rank()
  }

  predicate NotPastWrite(sh: Shard, s: nat) { s in sh.cache ==> sh.cache[s].Rank() <= Write.Rank() }

  predicate NotPastSeal(sh: Shard, s: nat) { s in sh.cache ==> sh.cache[s].Rank() <= SealUp.Rank() }

  /** An operation sends some segment back exactly when it is a seal whose next segment is already
      past Write, or the writer sealing a segment that is being deleted. */
  lemma FallsBackIff(sh: Shard, e: Event)
    ensures NoneFallsBack(sh, Next(sh, e)) <==>
      match e
      case Sealing(s) => NotPastWrite(sh, s + 1)
      case WriterSeals(s) => NotPastSeal(sh, s)
      case _ => true
  {
    match e
    case Sealing(s) =>
      if !NotPastWrite(sh, s + 1) {
        assert s + 1 in sh.cache && Next(sh, e).cache[s + 1] == Write;
      }
    case WriterSeals(s) =>
      if !NotPastSeal(sh, s) { assert s in sh.cache && Next(sh, e).cache[s] == SealUp; }
    case _ =>
  }

  ghost predicate IsRun(run: seq<Shard>, es: seq<Event>)
  {
    |run| == |es| + 1 && forall i :: 0 <= i < |es| ==> run[i + 1] == Next(run[i], es[i])
  }

  ghost predicate Careful(run: seq<Shard>, es: seq<Event>)
    requires IsRun(run, es)
  {
    forall i :: 0 <= i < |es| ==>
      && (es[i].Sealing? ==> NotPastWrite(run[i], es[i].s + 1))
      && (es[i].WriterSeals? ==> NotPastSeal(run[i], es[i].s))
  }

  /** Over a run in which every seal promotes a segment not past Write, status never goes back, and a
      sealed segment stays sealed, so that the writer refuses it for the rest of the run. */
  lemma {:induction false} RunsNeverFallBack(run: seq<Shard>, es: seq<Event>, i: nat, j: nat)
    requires IsRun(run, es) && Careful(run, es) && i <= j < |run|
    ensures NoneFallsBack(run[i], run[j])
    ensures forall s :: s in run[i].cache && run[i].cache[s] == SealUp ==> s in run[j].cache && run[j].cache[s] == SealUp
  {
    hide Next;
    if i < j {
      RunsNeverFallBack(run, es, i, j - 1);
      FallsBackIff(run[j - 1], es[j - 1]);
      SealedStays(run[j - 1], es[j - 1]);
    }
  }

  lemma SealedStays(sh: Shard, e: Event)
    requires e.Sealing? ==> NotPastWrite(sh, e.s + 1)
    ensures forall s :: s in sh.cache && sh.cache[s] == SealUp ==> s in Next(sh, e).cache && Next(sh, e).cache[s] == SealUp
  {}

  /** The writer seals in the cache.  A seal that follows, which the write request would make if it saw
      the writer's error, finds the segment already sealed: the placement center is not told. */
  lemma SealIsNotReported(sh: Shard, s: nat)
    ensures
      var after := Seal(Next(sh, WriterSeals(s)), s);
      && (s in sh.center <==> s in after.center) && (s in sh.center ==> after.center[s] == sh.center[s])
      && (s in sh.cache ==> after.cache[s] == SealUp)
  {}

  /** Sealing tells the center exactly when the cached status is PreSealUp. */
  lemma SealReportedIff(sh: Shard, s: nat)
    requires s in sh.center && sh.center[s] != SealUp
    ensures
      var after := Seal(sh, s);
      s in after.center && (after.center[s] == SealUp <==> s in sh.cache && sh.cache[s] == PreSealUp)
  {}

  predicate Is(m: map<nat, Status>, s: nat, st: Status) { s in m && m[s] == st }

  /** A segment at the end of its life and the one after it: pre-sealing and then sealing takes them from Write
      and Idle to SealUp and Write, in the cache and at the center, and no other segment is touched. */
  lemma PreSealThenSeal(sh: Shard, s: nat)
    requires Is(sh.cache, s, Write) && Is(sh.cache, s + 1, Idle)
    ensures
      var mid := PreSeal(sh, s);
      && mid.cache == sh.cache[s := PreSealUp][s + 1 := PreWrite] && mid.center == sh.center[s := PreSealUp][s + 1 := PreWrite]
    ensures
      var after := Seal(PreSeal(sh, s), s);
      && after.cache == sh.cache[s := SealUp][s + 1 := Write] && after.center == sh.center[s := SealUp][s + 1 := Write]
  {}

  /** What the writer's own seal and a new segment do: the cache alone changes, a known segment is not created
      again and an unknown one not sealed. */
  lemma CacheOnly(sh: Shard, s: nat, st: Status)
    ensures Next(sh, WriterSeals(s)).center == sh.center && Next(sh, Create(s, st)).center == sh.center
    ensures Next(sh, WriterSeals(s)).cache == if s in sh.cache then sh.cache[s := SealUp] else sh.cache
    ensures Next(sh, Create(s, st)).cache == if s in sh.cache then sh.cache else sh.cache[s := st]
  {}

  class SegmentCache {
    var segments: map<nat, Status>
    /** What the remote calls have set at the placement center. */
    var center: map<nat, Status>
    /** How many of those calls have failed. */
    ghost var faults: nat

    function Abs(): Shard
      reads this
    { Shard(segments, center) }

    method UpdateSegmentStatus(s: nat, st: Status)
      modifies this`segments
      ensures segments == if s in old(segments) then old(segments)[s := st] else old(segments)
    {
      if s in segments {
        segments := segments[s := st];
      }
    }

    /** The remote call that follows a change of the cached status; it may fail. */
    method Report(s: nat, st: Status) returns (ok: bool)
      modifies this`center, this`faults
      ensures center == if ok then old(center)[s := st] else old(center)
      ensures faults == old(faults) + if ok then 0 else 1
    {
      if * {
        faults := faults + 1;
        return false;
      }
      center := center[s := st];
      ok := true;
    }

    method Advance(s: nat, from: Status, to: Status) returns (ok: bool)
      modifies this
      ensures ok ==> Abs() == Move(old(Abs()), s, from, to)
      ensures segments == if Is(old(segments), s, from) then old(segments)[s := to] else old(segments)
      ensures !ok ==> Is(old(segments), s, from)
      ensures center == if ok && Is(old(segments), s, from) then old(center)[s := to] else old(center)
      ensures segments == Move(old(Abs()), s, from, to).cache
      ensures faults == old(faults) + if ok then 0 else 1
    {
      if s !in segments || segments[s] != from {
        return true;
      }
      UpdateSegmentStatus(s, to);
      ok := Report(s, to);
    }

    method PreSealUpSegment(s: nat) returns (ok: bool)
      modifies this
      ensures ok ==> Abs() == PreSeal(old(Abs()), s)
      // The active segment goes from Write to PreSealUp and the next from Idle to PreWrite; a failed call ends it.
      ensures
        var first, second := Is(old(segments), s, Write), Is(old(segments), s + 1, Idle);
        var mid := if first then old(segments)[s := PreSealUp] else old(segments);
        var told := if first then old(center)[s := PreSealUp] else old(center);
        var end := if second then mid[s + 1 := PreWrite] else mid;
        if ok then segments == end && center == if second then told[s + 1 := PreWrite] else told
        else (first && segments == mid && center == old(center)) || (second && segments == end && center == told)
      ensures NoneFallsBack(old(Abs()), Abs())
      ensures faults == old(faults) + if ok then 0 else 1
    {
      ok := Advance(s, Write, PreSealUp);
      if ok {
        ok := Advance(s + 1, Idle, PreWrite);
      }
    }

    method SealUpSegment(s: nat) returns (ok: bool)
      modifies this
      ensures ok ==> Abs() == Seal(old(Abs()), s)
      // The segment goes from PreSealUp to SealUp and the next, whatever its status, to Write.
      ensures
        var first, second := Is(old(segments), s, PreSealUp), s + 1 in old(segments);
        var mid := if first then old(segments)[s := SealUp] else old(segments);
        var told := if first then old(center)[s := SealUp] else old(center);
        var end := if second then mid[s + 1 := Write] else mid;
        if ok then segments == end && center == if second then told[s + 1 := Write] else told
        else (first && segments == mid && center == old(center)) || (second && segments == end && center == told)
      ensures NotPastWrite(old(Abs()), s + 1) ==> NoneFallsBack(old(Abs()), Abs())
      ensures faults == old(faults) + if ok then 0 else 1
    {
      ok := Advance(s, PreSealUp, SealUp);
      if ok && s + 1 in segments {
        UpdateSegmentStatus(s + 1, Write);
        ok := Report(s + 1, Write);
      }
    }
  }
}
