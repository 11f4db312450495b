/** The nearest-timestamp lookup: a search in byte order of decimal timestamps. */
module TimeIndex {
  import opened Options
  import opened SegmentLog
  import opened Strings
  import opened Decimal
  import opened Store
  import opened Keys
  import opened JournalSystem
  import opened JournalInvariant
  import opened JournalRuns
  import opened JournalTheorems

  /** Timestamp `t` has an entry, and the lookup for `query` may return it. */
  predicate Candidate(s: Iden, db: Db, query: nat, t: nat) { Render(s, Time(t)) in db && query <= t }

  lemma TimeOrder(s: Iden, a: nat, b: nat)
    ensures LexLeq(Render(s, Time(a)), Render(s, Time(b))) <==> LexLeq(Dec(a), Dec(b))
  {
    hide LexLess, Dec;
    var p := "timestamp/time-";
    LexCommonFront(SegmentIndexPrefix(s), p + Dec(a), p + Dec(b));
    LexCommonFront(p, Dec(a), Dec(b));
    if Render(s, Time(a)) == Render(s, Time(b)) { RenderInjective(s, Time(a), Time(b)); }
  }

  /** The lookup returns the candidate whose decimal text is least, with a true entry, or none if
      there is no candidate. */
  lemma FirstTime(c: Codec, s: Iden, db: Db, log: seq<Record>, b: Option<int>, query: nat)
    requires DbInv(c, s, db, log, b)
    ensures AllIndex(db, TimePrefix(s))
    ensures
      match First(db, TimePrefix(s), ByTime, query)
      case None => forall t: nat :: !Candidate(s, db, query, t)
      case Some(e) =>
        && Candidate(s, db, query, e.timestamp) && e.offset < |log| && e == DataOf(c, log, e.offset)
        && forall t: nat :: Candidate(s, db, query, t) ==> LexLeq(Dec(e.timestamp), Dec(t))
  {
    hide Indexed, SegmentIndexPrefix, LexLess, Dec;
    var hits := Hits(db, db.Keys, TimePrefix(s), ByTime, query);
    forall k | k in db && TimePrefix(s) <= k
      ensures exists t: nat :: k == Render(s, Time(t)) && db[k].Index? && db[k].data.timestamp == t
    {
      var n := NameUnder(c, s, db, log, b, TimePrefix(s), k);
      TimeKeys(s, n);
      assert k == Render(s, Time(n.sec));
    }
    forall t: nat | Candidate(s, db, query, t) ensures Render(s, Time(t)) in hits {
      TimeKeys(s, Time(t));
      assert Truthful(c, s, db, log, Time(t), db[Render(s, Time(t))], b);
    }
    if hits != {} {
      var k := Least(hits);
      var e := db[k].data;
      assert k == Render(s, Time(e.timestamp));
      assert Truthful(c, s, db, log, Time(e.timestamp), db[k], b);
      forall t: nat | Candidate(s, db, query, t) ensures LexLeq(Dec(e.timestamp), Dec(t)) {
        TimeOrder(s, e.timestamp, t);
      }
    }
  }

  /** The entry returned has the numerically least timestamp at or above the query exactly when no
      candidate with more digits comes before that least one as text. */
  lemma NearestTimeIff(c: Codec, s: Iden, db: Db, log: seq<Record>, b: Option<int>, query: nat, least: nat)
    requires DbInv(c, s, db, log, b)
    requires Candidate(s, db, query, least) && forall t: nat :: Candidate(s, db, query, t) ==> least <= t
    ensures First(db, TimePrefix(s), ByTime, query).Some?
    ensures
      First(db, TimePrefix(s), ByTime, query).value.timestamp == least <==>
      forall t: nat :: Candidate(s, db, query, t) && |Dec(t)| > |Dec(least)| ==> !LexLess(Dec(t), Dec(least))
  {
    hide DbInv, First, LexLess, Render, Dec;
    FirstTime(c, s, db, log, b, query);
    var found := First(db, TimePrefix(s), ByTime, query).value.timestamp;
    if found == least {
      forall t: nat | Candidate(s, db, query, t) ensures !LexLess(Dec(t), Dec(least)) {
        if LexLess(Dec(t), Dec(least)) { LexAsym(Dec(t), Dec(least)); }
      }
    } else {
      DecInjectiveIff(found, least);
      LongerOrLexLess(least, found);
    }
  }

  /** When all stored timestamps have the same number of digits, the search in byte order is a
      numeric one: it returns an entry exactly when a timestamp at or above the query is stored,
      and then one with the least such timestamp. */
  lemma NearestTimeSameDigits(c: Codec, s: Iden, db: Db, log: seq<Record>, b: Option<int>, query: nat, digits: nat)
    requires DbInv(c, s, db, log, b)
    requires forall t: nat :: Render(s, Time(t)) in db ==> |Dec(t)| == digits
    ensures
      match First(db, TimePrefix(s), ByTime, query)
      case None => forall t: nat :: !Candidate(s, db, query, t)
      case Some(e) => Candidate(s, db, query, e.timestamp) && forall t: nat :: Candidate(s, db, query, t) ==> e.timestamp <= t
  {
    hide DbInv, First, LexLess, Render, Dec;
    FirstTime(c, s, db, log, b, query);
    var found := First(db, TimePrefix(s), ByTime, query);
    if found.Some? {
      forall t: nat | Candidate(s, db, query, t) ensures found.value.timestamp <= t {
        DecInjectiveIff(t, found.value.timestamp);
        if t < found.value.timestamp { LongerOrLexLess(t, found.value.timestamp); }
      }
    }
  }

  /** `least` is the numerically least timestamp that the lookup may return. */
  ghost predicate LeastCandidate(s: Iden, db: Db, query: nat, least: nat)
  {
    Candidate(s, db, query, least) && forall t: nat :: Candidate(s, db, query, t) ==> least <= t
  }

  /** What the lookup should find, and finds exactly when no longer numeral comes before as text. */
  ghost predicate FindsNearest(c: Codec, s: Iden, db: Db, log: seq<Record>, query: nat, found: Option<IndexData>)
  {
    && (found.None? ==> forall t: nat :: !Candidate(s, db, query, t))
    && (found.Some? ==>
          && Candidate(s, db, query, found.value.timestamp)
          && found.value.offset < |log| && found.value == DataOf(c, log, found.value.offset)
          && forall t: nat :: Candidate(s, db, query, t) ==> LexLeq(Dec(found.value.timestamp), Dec(t)))
    && (forall least: nat :: LeastCandidate(s, db, query, least) ==>
          && found.Some?
          && (found.value.timestamp == least <==>
              forall t: nat :: Candidate(s, db, query, t) && |Dec(t)| > |Dec(least)| ==> !LexLess(Dec(t), Dec(least))))
  }

  lemma LookupFinds(c: Codec, s: Iden, db: Db, log: seq<Record>, query: nat)
    requires DbInv(c, s, db, log, None)
    ensures AllIndex(db, TimePrefix(s)) && FindsNearest(c, s, db, log, query, First(db, TimePrefix(s), ByTime, query))
  {
    hide DbInv, First, LexLess, Render, Dec;
    FirstTime(c, s, db, log, None, query);
    forall least: nat | LeastCandidate(s, db, query, least)
      ensures First(db, TimePrefix(s), ByTime, query).Some?
      ensures
        First(db, TimePrefix(s), ByTime, query).value.timestamp == least <==>
        forall t: nat :: Candidate(s, db, query, t) && |Dec(t)| > |Dec(least)| ==> !LexLess(Dec(t), Dec(least))
    {
      NearestTimeIff(c, s, db, log, None, query, least);
    }
  }

  /** In every state of every run. */
  lemma TimeLookupInRuns(c: Codec, s: Iden, run: seq<Seg>, es: seq<Event>, i: nat, query: nat)
    requires Reachable(c, s, run, es, i, None)
    ensures AllIndex(run[i].db, TimePrefix(s))
    ensures FindsNearest(c, s, run[i].db, run[i].log, query, First(run[i].db, TimePrefix(s), ByTime, query))
  {
    hide IsRun, DbInv, First, FindsNearest;
    RunsKeepInv(c, s, run, es, i, None);
    LookupFinds(c, s, run[i].db, run[i].log, query);
  }

  /** The lookup itself. */
  method NearestByTime(store: RocksStore, s: Iden, query: nat, ghost c: Codec, ghost log: seq<Record>) returns (r: Lookup<Option<IndexData>>)
    ensures DbInv(c, s, store.db, log, None) ==> r.Found? && FindsNearest(c, s, store.db, log, query, r.value)
  {
    hide DbInv, First, FindsNearest;
    if DbInv(c, s, store.db, log, None) { LookupFinds(c, s, store.db, log, query); }
    r := store.FirstFrom(TimePrefix(s), ByTime, query);
  }
}
