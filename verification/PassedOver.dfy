/** A run in which failed saves, a restart and the order of numerals as text keep records that are due from
    ever having a sparse entry. */
module PassedOver {
  import opened Options
  import opened SegmentLog
  import opened Segments
  import opened Keys
  import opened JournalSystem
  import opened JournalInvariant
  import opened JournalRuns
  import opened JournalTheorems
  import opened JournalBounds
  import opened JournalBases
  import opened SegmentNodes
  import opened IndexBuilders
  import opened JournalProgress
  import opened PlainCodecs

  const COUNT: nat := 120000

  function Bare(): Record { Record("", 0, "", [], 0, [], 0, "", "", 0) }

  function Many(): (data: seq<Record>)
    ensures |data| == COUNT && forall k :: 0 <= k < COUNT ==> data[k] == Bare()
  {
    seq(COUNT, _ => Bare())
  }

  function Fresh(): Seg { Seg([], -1, -1, Some(Write), Some(0), None, None, map[]) }

  /** The records are small, whatever offsets they are given. */
  lemma BareIsSmall(r: Record)
    requires r == Bare().(offset := r.offset)
    ensures Plain().Size(r) == 34
  {
    hide Encode, Text, Blob, Number;
    NotEmpty(r);
    assert Words([]) == [0];
  }

  /** The segment is written. */
  lemma Written(iden: Iden) returns (s: Seg)
    ensures Leads(Plain(), iden, Fresh(), [WriterStart, Batch(Many())], s) && Init(iden, Fresh())
    ensures |s.log| == COUNT && NoneTooLarge(Plain(), s.log) && s.builder.None?
    ensures LastBuilt(iden, s.db) == 0 && Render(iden, Finish) !in s.db && forall o: nat :: !HasEntry(iden, s, o)
  {
    hide Render, Plain, Many, Leads, Codec.Size;
    var c, s0 := Plain(), Fresh();
    LeadsOne(c, iden, s0, WriterStart);
    var s1 := Step(c, iden, s0, WriterStart);
    var more := Stamp(Many(), -1);
    forall k | 0 <= k < |more| ensures c.Size(more[k]) == 34 { BareIsSmall(more[k]); }
    assert AllStorable(c, more);
    LeadsThen(c, iden, s0, [WriterStart], s1, Batch(Many()));
    assert [WriterStart] + [Batch(Many())] == [WriterStart, Batch(Many())];
    s := Step(c, iden, s1, Batch(Many()));
    assert s.log == [] + more == more;
    BatchPuts(c, iden, s1, Many(), NoFault, Finish);
    BatchPuts(c, iden, s1, Many(), NoFault, LastOffset);
    forall o: nat ensures !HasEntry(iden, s, o) { BatchPuts(c, iden, s1, Many(), NoFault, Position(o)); }
  }

  /** The builder saves its frontier up to a little past 20000, and then fails to, up to 110000. */
  lemma Indexing(iden: Iden, s: Seg) returns (es: seq<Event>, t: Seg)
    requires Inv(Plain(), iden, s, None) && |s.log| == COUNT && NoneTooLarge(Plain(), s.log) && s.builder.None?
    requires LastBuilt(iden, s.db) == 0 && Render(iden, Finish) !in s.db && forall o: nat :: !HasEntry(iden, s, o)
    ensures Builds(Plain(), iden, s, es, t) && t.builder.Some? && t.builder.value.last >= 110000
    ensures 20000 <= LastBuilt(iden, t.db) < 20100
  {
    hide Inv, Builds, LastBuilt, Render, Plain, NoneTooLarge, ResumePosition, Aligned;
    var c := Plain();
    BuildsNowhere(c, iden, s);
    var at, hit := ResumeAt(c, iden, s);
    var e0 := BuildsStep(c, iden, s, [], s, BuilderStart);
    var s0 := Step(c, iden, s, BuilderStart);
    var e1, s1 := CanReach(c, iden, s0, 20000, true);
    SameLog(c, iden, s0, e1, s1);
    BuildsTrans(c, iden, s, e0, s0, e1, s1);
    var e2, s2 := CanReach(c, iden, s1, 110000, false);
    BuildsTrans(c, iden, s, e0 + e1, s1, e2, s2);
    return e0 + e1 + e2, s2;
  }

  /** Such a run, ending with a restart.  Its frontier is below 20100, and the first record read afterwards
      is past 100000. */
  lemma PassingRun(iden: Iden) returns (run: seq<Seg>, es: seq<Event>)
    ensures IsRun(Plain(), iden, run, es) && |es| > 0 && |run| == |es| + 1 && MovesBase(run, |es| - 1)
    ensures 20000 <= LastBuilt(iden, run[|es|].db) < 20100
    ensures Aligned(Plain(), run[|es|].log, ResumePosition(iden, run[|es|].db)) && FirstRead(Plain(), iden, run[|es|]) >= 100000
  {
    hide Inv, Builds, Leads, LastBuilt, Render, Plain, NoneTooLarge, ResumePosition, Aligned, Init, IsRun, Fresh;
    var c := Plain();
    var s := Written(iden);
    var first := [WriterStart, Batch(Many())];
    InitInv(c, iden, Fresh(), None);
    LeadsKeepInv(c, iden, Fresh(), first, s);
    var more, t := Indexing(iden, s);
    SameLog(c, iden, s, more, t);
    LeadsTrans(c, iden, Fresh(), first, s, more, t);
    var es0 := first + more;
    assert forall k :: 0 <= k < |es0| ==> !es0[k].Restarts() by { BuildersOnly(c, iden, s, more, t); }
    var run0 := LeadsIsRun(c, iden, Fresh(), es0, t);
    FirstLife(c, iden, run0, es0);
    Found(c, iden, t);
    RestartStep(c, iden, t, Some(Write), None);
    var after := Step(c, iden, t, Restart(Some(Write)));
    run, es := run0 + [after], es0 + [Restart(Some(Write))];
    RunThen(c, iden, run0, es0, Restart(Some(Write)));
    ResumePassesOver(c, iden, after);
  }

  lemma BuildersOnly(c: Codec, iden: Iden, s: Seg, es: seq<Event>, t: Seg)
    requires Builds(c, iden, s, es, t)
    ensures forall k :: 0 <= k < |es| ==> !es[k].Restarts()
  {
    hide Leads;
  }

  lemma RunThen(c: Codec, iden: Iden, run: seq<Seg>, es: seq<Event>, e: Event)
    requires IsRun(c, iden, run, es) && Enabled(c, iden, run[|es|], e)
    ensures IsRun(c, iden, run + [Step(c, iden, run[|es|], e)], es + [e])
  {
    hide Enabled, Step, Init;
  }

  lemma FirstLife(c: Codec, iden: Iden, run: seq<Seg>, es: seq<Event>)
    requires IsRun(c, iden, run, es) && forall k :: 0 <= k < |es| ==> !es[k].Restarts()
    ensures |run| == |es| + 1 && run[|es|].memStart == -1 && Inv(c, iden, run[|es|], Some(-1)) && Inv(c, iden, run[|es|], None)
  {
    hide Inv, Enabled, Step, Init;
    StartUnknownBeforeRestart(c, iden, run, es, |es|);
    forall k | 0 <= k < |es| ensures BaseFixed(run[k], es[k], Some(-1)) { StartUnknownBeforeRestart(c, iden, run, es, k); }
    RunsKeepInv(c, iden, run, es, |es|, Some(-1));
    RunsKeepInv(c, iden, run, es, |es|, None);
  }

  /** What has been indexed by then. */
  lemma Found(c: Codec, iden: Iden, s: Seg)
    requires Inv(c, iden, s, Some(-1)) && s.builder.Some? && s.builder.value.last >= 110000
    ensures HasEntry(iden, s, 109999) && Render(iden, OffsetStart) in s.db
  {
    hide WriterInv, DbInv, PhaseInv, Render, Pos;
    assert Indexed(c, iden, s.db, s.log, 109999, Some(-1)) && Indexed(c, iden, s.db, s.log, 0, Some(-1));
  }

  /** However that run goes on, no multiple of 10000 below 100000 ever has a position entry, although from
      30000 on they lie past the frontier and are due under the base of every later builder. */
  lemma NeverAgain(iden: Iden) returns (run: seq<Seg>, es: seq<Event>)
    ensures IsRun(Plain(), iden, run, es) && |run| == |es| + 1 && LastBuilt(iden, run[|es|].db) < 30000 && run[|es|].memStart == 0
    ensures forall run', es', i: nat, j: nat :: IsRun(Plain(), iden, run', es') && run <= run' && |es| <= i < |run'| && 0 < j < 100000 && j % 10000 == 0 ==>
      !HasEntry(iden, run'[i], j)
  {
    hide IsRun, HasEntry, ResumePosition, LastBuilt, Aligned, Plain, FirstRead;
    run, es := PassingRun(iden);
    forall run', es', i: nat, j: nat |
      IsRun(Plain(), iden, run', es') && run <= run' && |es| <= i < |run'| && 0 < j < 100000 && j % 10000 == 0
      ensures !HasEntry(iden, run'[i], j)
    {
      PassedOverForGood(Plain(), iden, run', es', |es| - 1, i, j);
    }
  }
}
