/** The leader-forwarding retry loop of the placement center client. */
module Retry {

  /** What a node answers: a result, a hint to the leader (whose address may not parse), or an error. */
  datatype Answer<T> = Data(value: T) | ForwardTo(leader: LeaderHint) | Fatal

  datatype LeaderHint = NoHint | Hint(addr: string)

  datatype Outcome<T> = Ok(value: T) | EmptyAddresses | NoConnection | NotFoundLeader | Failed

  /** The rest of the world: whether a connection to an address can be had, and what a call to it
      answers, both depending on everything attempted before. */
  datatype World<!T> = World(connects: (seq<string>, string) -> bool, answers: (seq<string>, string) -> Answer<T>)

  class ClientPool {
    var leaderCache: map<string, string>

    constructor ()
    {
      leaderCache := map[];
    }

    /** Where a request for `addr` is sent: writes go to the cached leader, if there is one. */
    function Target(addr: string, isWrite: bool): string
      reads this
    {
      if isWrite && addr in leaderCache then leaderCache[addr] else addr
    }
  }

  /** The address of a round: the list is gone through in a circle. */
  function Pick(addrs: seq<string>, round: nat): (a: string)
    requires addrs != []
    ensures a in addrs
  { addrs[round % |addrs|] }

  predicate Distinct(s: seq<string>) { forall i, j :: 0 <= i < j < |s| ==> s[i] != s[j] }

  /** Attempt `j` found a connection, so a call was made. */
  ghost predicate Reached<T>(world: World<T>, attempts: seq<string>, j: nat)
    requires j < |attempts|
  { world.connects(attempts[..j + 1], attempts[j]) }

  /** What the call of attempt `j` answered. */
  function AnswerAt<T>(world: World<T>, attempts: seq<string>, j: nat): Answer<T>
    requires j < |attempts|
  { world.answers(attempts[..j + 1], attempts[j]) }

  /** None of the first `n` attempts got a result. */
  ghost predicate NoneGood<T>(world: World<T>, attempts: seq<string>, n: nat)
    requires n <= |attempts|
  {
    forall j :: 0 <= j < n && Reached(world, attempts, j) ==> !AnswerAt(world, attempts, j).Data?
  }

  /** Some call answered that `leader` is the leader. */
  ghost predicate Named<T>(world: World<T>, attempts: seq<string>, leader: string)
  {
    exists j :: 0 <= j < |attempts| && Reached(world, attempts, j) && AnswerAt(world, attempts, j) == ForwardTo(Hint(leader))
  }

  /** What the leader cache now holds, it held before, or a called node named it for a listed address. */
  ghost predicate CacheExplained<T>(world: World<T>, addrs: seq<string>, attempts: seq<string>, before: map<string, string>, now: map<string, string>)
  {
    forall a :: a in now ==> (a in before && now[a] == before[a]) || (a in addrs && Named(world, attempts, now[a]))
  }

  lemma NothingYet<T>(world: World<T>, addrs: seq<string>, cache: map<string, string>)
    ensures CacheExplained(world, addrs, [], cache, cache) && NoneGood(world, [], 0) && Distinct([])
  {}

  /** One more attempt, at a new address, leaves the earlier ones as they were. */
  lemma Attempt<T>(world: World<T>, attempts: seq<string>, x: string)
    requires Distinct(attempts) && x !in attempts && NoneGood(world, attempts, |attempts|)
    ensures Distinct(attempts + [x]) && NoneGood(world, attempts + [x], |attempts|)
    ensures (attempts + [x])[..|attempts| + 1] == attempts + [x]
  {
    hide Reached, AnswerAt;
    forall j | 0 <= j < |attempts|
      ensures Reached(world, attempts + [x], j) == Reached(world, attempts, j)
      ensures AnswerAt(world, attempts + [x], j) == AnswerAt(world, attempts, j)
    {
      SameAttempt(world, attempts, x, j);
    }
  }

  lemma SameAttempt<T>(world: World<T>, attempts: seq<string>, x: string, j: nat)
    requires j < |attempts|
    ensures Reached(world, attempts + [x], j) == Reached(world, attempts, j)
    ensures AnswerAt(world, attempts + [x], j) == AnswerAt(world, attempts, j)
  {
    assert (attempts + [x])[..j + 1] == attempts[..j + 1];
  }

  lemma StillNoneGood<T>(world: World<T>, attempts: seq<string>)
    requires attempts != [] && NoneGood(world, attempts, |attempts| - 1)
    requires Reached(world, attempts, |attempts| - 1) ==> !AnswerAt(world, attempts, |attempts| - 1).Data?
    ensures NoneGood(world, attempts, |attempts|)
  {
    hide Reached, AnswerAt;
  }

  /** The outcome is what the attempts, taken in order, call for: the first result is returned at once,
      so is the first error of a listed node and the first failure to connect to one. */
  ghost predicate Justified<T>(world: World<T>, attempts: seq<string>, r: Outcome<T>)
    requires attempts != []
  {
    var last := |attempts| - 1;
    && NoneGood(world, attempts, last)
    && match r
       case Ok(v) => Reached(world, attempts, last) && AnswerAt(world, attempts, last) == Data(v)
       case Failed => Reached(world, attempts, last) && AnswerAt(world, attempts, last) == Fatal
       case NoConnection => !Reached(world, attempts, last)
       case NotFoundLeader => NoneGood(world, attempts, |attempts|)
       case EmptyAddresses => false
  }

  // ---------------------------------------------------------------- who is asked when

  /** A call of some round: to the node that the round asks, or to the leader that node has just named. */
  datatype Call = Call(round: nat, led: bool)

  ghost predicate Forwards<T>(world: World<T>, attempts: seq<string>, j: nat)
    requires j < |attempts|
  { Reached(world, attempts, j) && AnswerAt(world, attempts, j).ForwardTo? }

  /** Call `j` answered that `leader` is the leader. */
  ghost predicate Names<T>(world: World<T>, attempts: seq<string>, j: nat, leader: string)
    requires j < |attempts|
  { Reached(world, attempts, j) && AnswerAt(world, attempts, j) == ForwardTo(Hint(leader)) }

  function Asked(cache: map<string, string>, addr: string, isWrite: bool): string
  {
    if isWrite && addr in cache then cache[addr] else addr
  }

  /** The leader cache after the first `n` calls: what a round's node names is kept for the round's address. */
  ghost function CacheAt<T>(world: World<T>, addrs: seq<string>, before: map<string, string>, attempts: seq<string>, calls: seq<Call>, n: nat): map<string, string>
    requires n <= |attempts| == |calls| && addrs != []
  {
    if n == 0 then before
    else
      var cache := CacheAt(world, addrs, before, attempts, calls, n - 1);
      if !calls[n - 1].led && Forwards(world, attempts, n - 1) && AnswerAt(world, attempts, n - 1).leader.Hint? then
        cache[Pick(addrs, calls[n - 1].round) := AnswerAt(world, attempts, n - 1).leader.addr]
      else cache
  }

  /** A call to a leader follows at once on the call that named it.  Any other goes to the node its round asks,
      under the cache of that moment, in a later round than the calls before; those had all been forwarded. */
  ghost predicate InOrder<T>(world: World<T>, addrs: seq<string>, isWrite: bool, before: map<string, string>, attempts: seq<string>, calls: seq<Call>, j: nat)
    requires j < |attempts| == |calls| && addrs != []
  {
    && calls[j].round >= 1
    && if calls[j].led then j > 0 && !calls[j - 1].led && calls[j - 1].round == calls[j].round && Names(world, attempts, j - 1, attempts[j])
       else
         && (var cache, addr := CacheAt(world, addrs, before, attempts, calls, j), addrs[calls[j].round % |addrs|];
             attempts[j] == if isWrite && addr in cache then cache[addr] else addr)
         && (j > 0 ==> calls[j - 1].round < calls[j].round)
         && forall p :: 0 <= p < j && !calls[p].led ==> Forwards(world, attempts, p)
  }

  /** A leader that the node of a round names is called next, unless it has been called before. */
  ghost predicate FollowedUp<T>(world: World<T>, attempts: seq<string>, calls: seq<Call>, p: nat)
    requires p < |attempts| == |calls|
  {
    !calls[p].led ==>
      forall l :: Names(world, attempts, p, l) && l !in attempts[..p + 1] ==> p + 1 < |attempts| && calls[p + 1].led && attempts[p + 1] == l
  }

  /** The first `n` calls are in order and followed up, and the cache holds what they named. */
  ghost predicate Told<T>(world: World<T>, addrs: seq<string>, isWrite: bool, before: map<string, string>, attempts: seq<string>, calls: seq<Call>, n: nat, now: map<string, string>)
  {
    && addrs != [] && n <= |attempts| == |calls|
    && (forall j :: 0 <= j < |attempts| ==> InOrder(world, addrs, isWrite, before, attempts, calls, j))
    && (forall p :: 0 <= p < n ==> FollowedUp(world, attempts, calls, p))
    && now == CacheAt(world, addrs, before, attempts, calls, n)
  }

  ghost predicate AllForwarded<T>(world: World<T>, attempts: seq<string>, calls: seq<Call>, n: nat)
    requires n <= |attempts| == |calls|
  {
    forall p :: 0 <= p < n && !calls[p].led ==> Forwards(world, attempts, p)
  }

  lemma {:induction false} CacheStays<T>(world: World<T>, addrs: seq<string>, before: map<string, string>, attempts: seq<string>, calls: seq<Call>, x: string, c: Call, n: nat)
    requires n <= |attempts| == |calls| && addrs != []
    ensures CacheAt(world, addrs, before, attempts + [x], calls + [c], n) == CacheAt(world, addrs, before, attempts, calls, n)
  {
    hide Reached, AnswerAt;
    if n > 0 {
      CacheStays(world, addrs, before, attempts, calls, x, c, n - 1);
      SameAttempt(world, attempts, x, n - 1);
    }
  }

  /** A further call leaves the earlier ones as they were. */
  lemma CallsStay<T>(world: World<T>, addrs: seq<string>, isWrite: bool, before: map<string, string>, attempts: seq<string>, calls: seq<Call>, x: string, c: Call, j: nat)
    requires j < |attempts| == |calls| && addrs != []
    ensures InOrder(world, addrs, isWrite, before, attempts, calls, j) ==> InOrder(world, addrs, isWrite, before, attempts + [x], calls + [c], j)
    ensures FollowedUp(world, attempts, calls, j) ==> FollowedUp(world, attempts + [x], calls + [c], j)
    ensures Forwards(world, attempts, j) == Forwards(world, attempts + [x], j)
  {
    hide Reached, AnswerAt, CacheAt, Asked, Pick;
    CacheStays(world, addrs, before, attempts, calls, x, c, j);
    forall p | 0 <= p < |attempts|
      ensures Reached(world, attempts + [x], p) == Reached(world, attempts, p)
      ensures AnswerAt(world, attempts + [x], p) == AnswerAt(world, attempts, p)
    {
      SameAttempt(world, attempts, x, p);
    }
    assert (attempts + [x])[..j + 1] == attempts[..j + 1];
    forall l ensures Names(world, attempts + [x], j, l) == Names(world, attempts, j, l) {}
  }

  /** The node of a new round is asked. */
  lemma Ask<T>(world: World<T>, addrs: seq<string>, isWrite: bool, before: map<string, string>, attempts: seq<string>, calls: seq<Call>, now: map<string, string>, round: nat)
    requires Told(world, addrs, isWrite, before, attempts, calls, |attempts|, now) && AllForwarded(world, attempts, calls, |attempts|)
    requires round >= 1 && (attempts != [] ==> calls[|attempts| - 1].round < round)
    ensures
      var x, c := Asked(now, Pick(addrs, round), isWrite), Call(round, false);
      && Told(world, addrs, isWrite, before, attempts + [x], calls + [c], |attempts|, now)
      && AllForwarded(world, attempts + [x], calls + [c], |attempts|)
  {
    hide Reached, AnswerAt, CacheAt, Asked, Pick, InOrder, FollowedUp, Forwards;
    var x, c := Asked(now, Pick(addrs, round), isWrite), Call(round, false);
    forall j | 0 <= j < |attempts|
      ensures InOrder(world, addrs, isWrite, before, attempts + [x], calls + [c], j) && FollowedUp(world, attempts + [x], calls + [c], j)
      ensures Forwards(world, attempts, j) == Forwards(world, attempts + [x], j)
    {
      CallsStay(world, addrs, isWrite, before, attempts, calls, x, c, j);
    }
    CacheStays(world, addrs, before, attempts, calls, x, c, |attempts|);
    AskedInOrder(world, addrs, isWrite, before, attempts, calls, now, round);
  }

  lemma AskedInOrder<T>(world: World<T>, addrs: seq<string>, isWrite: bool, before: map<string, string>, attempts: seq<string>, calls: seq<Call>, now: map<string, string>, round: nat)
    requires addrs != [] && |attempts| == |calls| && now == CacheAt(world, addrs, before, attempts, calls, |attempts|)
    requires round >= 1 && (attempts != [] ==> calls[|attempts| - 1].round < round) && AllForwarded(world, attempts, calls, |attempts|)
    ensures InOrder(world, addrs, isWrite, before, attempts + [Asked(now, Pick(addrs, round), isWrite)], calls + [Call(round, false)], |attempts|)
  {
    hide Reached, AnswerAt, CacheAt;
    var x, c := Asked(now, Pick(addrs, round), isWrite), Call(round, false);
    CacheStays(world, addrs, before, attempts, calls, x, c, |attempts|);
    forall p | 0 <= p < |attempts| ensures Forwards(world, attempts, p) == Forwards(world, attempts + [x], p) { SameAttempt(world, attempts, x, p); }
  }

  /** A call that is not forwarded, or whose leader has been called, needs no follow-up. */
  lemma Settled<T>(world: World<T>, addrs: seq<string>, isWrite: bool, before: map<string, string>, attempts: seq<string>, calls: seq<Call>, now: map<string, string>)
    requires attempts != [] && Told(world, addrs, isWrite, before, attempts, calls, |attempts| - 1, now)
    requires forall l :: Names(world, attempts, |attempts| - 1, l) ==> calls[|attempts| - 1].led || l in attempts
    ensures
      var last := |attempts| - 1;
      Told(world, addrs, isWrite, before, attempts, calls, |attempts|,
           if !calls[last].led && Forwards(world, attempts, last) && AnswerAt(world, attempts, last).leader.Hint?
           then now[Pick(addrs, calls[last].round) := AnswerAt(world, attempts, last).leader.addr] else now)
  {
    hide Reached, AnswerAt, InOrder, Pick;
    assert attempts[..|attempts| - 1 + 1] == attempts;
  }

  /** Else its leader is called next. */
  lemma CallLeader<T>(world: World<T>, addrs: seq<string>, isWrite: bool, before: map<string, string>, attempts: seq<string>, calls: seq<Call>, now: map<string, string>, leader: string)
    requires attempts != [] && Told(world, addrs, isWrite, before, attempts, calls, |attempts| - 1, now)
    requires !calls[|attempts| - 1].led && Names(world, attempts, |attempts| - 1, leader) && AllForwarded(world, attempts, calls, |attempts|)
    ensures
      var round := calls[|attempts| - 1].round;
      var more, calls' := attempts + [leader], calls + [Call(round, true)];
      && Told(world, addrs, isWrite, before, more, calls', |more|, now[Pick(addrs, round) := leader])
      && AllForwarded(world, more, calls', |more|)
  {
    hide Reached, AnswerAt, Pick, InOrder, FollowedUp, CacheAt;
    var last, round := |attempts| - 1, calls[|attempts| - 1].round;
    var more, c := attempts + [leader], Call(round, true);
    forall j | 0 <= j < |attempts|
      ensures InOrder(world, addrs, isWrite, before, more, calls + [c], j)
      ensures FollowedUp(world, attempts, calls, j) ==> FollowedUp(world, more, calls + [c], j)
      ensures Forwards(world, attempts, j) == Forwards(world, more, j)
    {
      CallsStay(world, addrs, isWrite, before, attempts, calls, leader, c, j);
    }
    SameAttempt(world, attempts, leader, last);
    CacheStays(world, addrs, before, attempts, calls, leader, c, last);
    assert InOrder(world, addrs, isWrite, before, attempts, calls, last);
    assert round >= 1 by { RoundPositive(world, addrs, isWrite, before, attempts, calls, last); }
    LeaderInOrder(world, addrs, isWrite, before, attempts, calls, leader);
  }

  lemma RoundPositive<T>(world: World<T>, addrs: seq<string>, isWrite: bool, before: map<string, string>, attempts: seq<string>, calls: seq<Call>, j: nat)
    requires j < |attempts| == |calls| && addrs != [] && InOrder(world, addrs, isWrite, before, attempts, calls, j)
    ensures calls[j].round >= 1
  {}

  lemma LeaderInOrder<T>(world: World<T>, addrs: seq<string>, isWrite: bool, before: map<string, string>, attempts: seq<string>, calls: seq<Call>, leader: string)
    requires addrs != [] && attempts != [] && |attempts| == |calls| && !calls[|attempts| - 1].led && calls[|attempts| - 1].round >= 1
    requires Names(world, attempts, |attempts| - 1, leader)
    ensures
      var more, calls' := attempts + [leader], calls + [Call(calls[|attempts| - 1].round, true)];
      && InOrder(world, addrs, isWrite, before, more, calls', |attempts|)
      && FollowedUp(world, more, calls', |attempts| - 1) && FollowedUp(world, more, calls', |attempts|)
      && CacheAt(world, addrs, before, more, calls', |more|) == CacheAt(world, addrs, before, more, calls', |attempts| - 1)[Pick(addrs, calls[|attempts| - 1].round) := leader]
  {
    hide Reached, AnswerAt, Pick;
    SameAttempt(world, attempts, leader, |attempts| - 1);
  }

  /** After a whole retry the cache holds, for every address, the last leader that a node asked for it named, and
      what it held before where none was named. */
  lemma {:induction false} CacheHoldsLast<T>(world: World<T>, addrs: seq<string>, before: map<string, string>, attempts: seq<string>, calls: seq<Call>, n: nat, j: nat, leader: string)
    requires n <= |attempts| == |calls| && addrs != [] && j < n && !calls[j].led && Names(world, attempts, j, leader)
    requires forall k, l :: j < k < n && !calls[k].led && Names(world, attempts, k, l) ==> Pick(addrs, calls[k].round) != Pick(addrs, calls[j].round)
    ensures
      var cache, addr := CacheAt(world, addrs, before, attempts, calls, n), Pick(addrs, calls[j].round);
      addr in cache && cache[addr] == leader
  {
    hide Reached, AnswerAt, Pick;
    if j < n - 1 {
      CacheHoldsLast(world, addrs, before, attempts, calls, n - 1, j, leader);
      var answer := AnswerAt(world, attempts, n - 1);
      if !calls[n - 1].led && Forwards(world, attempts, n - 1) && answer.leader.Hint? { assert Names(world, attempts, n - 1, answer.leader.addr); }
    }
  }

  lemma {:induction false} CacheKeepsRest<T>(world: World<T>, addrs: seq<string>, before: map<string, string>, attempts: seq<string>, calls: seq<Call>, n: nat, addr: string)
    requires n <= |attempts| == |calls| && addrs != []
    requires forall k, l :: 0 <= k < n && !calls[k].led && Names(world, attempts, k, l) ==> Pick(addrs, calls[k].round) != addr
    ensures
      var cache := CacheAt(world, addrs, before, attempts, calls, n);
      (addr in cache <==> addr in before) && (addr in before ==> cache[addr] == before[addr])
  {
    hide Reached, AnswerAt, Pick;
    if n > 0 {
      CacheKeepsRest(world, addrs, before, attempts, calls, n - 1, addr);
      var answer := AnswerAt(world, attempts, n - 1);
      if !calls[n - 1].led && Forwards(world, attempts, n - 1) && answer.leader.Hint? { assert Names(world, attempts, n - 1, answer.leader.addr); }
    }
  }

  /** The node that round `k` asks, under the cache of some moment, has been called. */
  ghost predicate RoundDone<T>(world: World<T>, addrs: seq<string>, isWrite: bool, before: map<string, string>, attempts: seq<string>, calls: seq<Call>, k: nat)
    requires |attempts| == |calls| && addrs != []
  {
    exists n :: 0 <= n <= |attempts| && Asked(CacheAt(world, addrs, before, attempts, calls, n), Pick(addrs, k), isWrite) in attempts
  }

  ghost predicate RoundsDone<T>(world: World<T>, addrs: seq<string>, isWrite: bool, before: map<string, string>, attempts: seq<string>, calls: seq<Call>, times: nat)
    requires |attempts| == |calls| && addrs != []
  {
    forall k :: 1 <= k < times ==> RoundDone(world, addrs, isWrite, before, attempts, calls, k)
  }

  lemma RoundsStay<T>(world: World<T>, addrs: seq<string>, isWrite: bool, before: map<string, string>, attempts: seq<string>, calls: seq<Call>, times: nat, x: string, c: Call)
    requires |attempts| == |calls| && addrs != [] && RoundsDone(world, addrs, isWrite, before, attempts, calls, times)
    ensures RoundsDone(world, addrs, isWrite, before, attempts + [x], calls + [c], times)
  {
    hide CacheAt, Asked, Pick;
    forall k | 1 <= k < times ensures RoundDone(world, addrs, isWrite, before, attempts + [x], calls + [c], k) {
      assert RoundDone(world, addrs, isWrite, before, attempts, calls, k);
      var n :| 0 <= n <= |attempts| && Asked(CacheAt(world, addrs, before, attempts, calls, n), Pick(addrs, k), isWrite) in attempts;
      CacheStays(world, addrs, before, attempts, calls, x, c, n);
      assert Asked(CacheAt(world, addrs, before, attempts + [x], calls + [c], n), Pick(addrs, k), isWrite) in attempts + [x];
    }
  }

  lemma RoundEnds<T>(world: World<T>, addrs: seq<string>, isWrite: bool, before: map<string, string>, attempts: seq<string>, calls: seq<Call>, times: nat, n: nat)
    requires n <= |attempts| == |calls| && addrs != [] && RoundsDone(world, addrs, isWrite, before, attempts, calls, times)
    requires Asked(CacheAt(world, addrs, before, attempts, calls, n), Pick(addrs, times), isWrite) in attempts
    ensures RoundsDone(world, addrs, isWrite, before, attempts, calls, times + 1)
  {
    hide CacheAt, Asked, Pick;
    assert RoundDone(world, addrs, isWrite, before, attempts, calls, times);
  }

  /** What the cache then holds was there, or named by a called node for a listed address. */
  lemma {:induction false} CacheIsExplained<T>(world: World<T>, addrs: seq<string>, before: map<string, string>, attempts: seq<string>, calls: seq<Call>, n: nat)
    requires n <= |attempts| == |calls| && addrs != []
    ensures CacheExplained(world, addrs, attempts, before, CacheAt(world, addrs, before, attempts, calls, n))
  {
    hide Reached, AnswerAt, Pick;
    if n > 0 {
      CacheIsExplained(world, addrs, before, attempts, calls, n - 1);
      if !calls[n - 1].led && Forwards(world, attempts, n - 1) && AnswerAt(world, attempts, n - 1).leader.Hint? {
        assert Named(world, attempts, AnswerAt(world, attempts, n - 1).leader.addr);
      }
    }
  }

  /** Reads ask the address of the round itself. */
  lemma ReadsDone<T>(world: World<T>, addrs: seq<string>, before: map<string, string>, attempts: seq<string>, calls: seq<Call>, times: nat)
    requires |attempts| == |calls| && addrs != [] && RoundsDone(world, addrs, false, before, attempts, calls, times)
    ensures forall k :: 1 <= k < times ==> addrs[k % |addrs|] in attempts
  {
    hide CacheAt;
    forall k | 1 <= k < times ensures addrs[k % |addrs|] in attempts { assert RoundDone(world, addrs, false, before, attempts, calls, k); }
  }

  /** What the end of a retry means. */
  lemma Ended<T>(world: World<T>, addrs: seq<string>, isWrite: bool, before: map<string, string>, attempts: seq<string>, calls: seq<Call>, now: map<string, string>)
    requires Told(world, addrs, isWrite, before, attempts, calls, |attempts|, now)
    ensures CacheExplained(world, addrs, attempts, before, now)
  {
    hide InOrder, FollowedUp, CacheAt, CacheExplained;
    CacheIsExplained(world, addrs, before, attempts, calls, |attempts|);
  }

  // ---------------------------------------------------------------- between the calls

  /** Before a round: all is followed up, nothing has been got, and the earlier rounds are done. */
  ghost predicate Sofar<T>(world: World<T>, addrs: seq<string>, isWrite: bool, before: map<string, string>, attempts: seq<string>, calls: seq<Call>, now: map<string, string>, times: nat)
  {
    && Told(world, addrs, isWrite, before, attempts, calls, |attempts|, now) && AllForwarded(world, attempts, calls, |attempts|)
    && RoundsDone(world, addrs, isWrite, before, attempts, calls, times) && Distinct(attempts) && NoneGood(world, attempts, |attempts|)
  }

  /** The node of round `times` has just been called. */
  ghost predicate Asking<T>(world: World<T>, addrs: seq<string>, isWrite: bool, before: map<string, string>, attempts: seq<string>, calls: seq<Call>, now: map<string, string>, times: nat)
  {
    && attempts != [] && Told(world, addrs, isWrite, before, attempts, calls, |attempts| - 1, now)
    && AllForwarded(world, attempts, calls, |attempts| - 1) && RoundsDone(world, addrs, isWrite, before, attempts, calls, times + 1)
    && Distinct(attempts) && NoneGood(world, attempts, |attempts| - 1) && calls[|attempts| - 1] == Call(times, false)
  }

  /** So has the leader that node named. */
  ghost predicate AskingLeader<T>(world: World<T>, addrs: seq<string>, isWrite: bool, before: map<string, string>, attempts: seq<string>, calls: seq<Call>, now: map<string, string>, times: nat)
  {
    && attempts != [] && Told(world, addrs, isWrite, before, attempts, calls, |attempts|, now)
    && AllForwarded(world, attempts, calls, |attempts|) && RoundsDone(world, addrs, isWrite, before, attempts, calls, times + 1)
    && Distinct(attempts) && NoneGood(world, attempts, |attempts| - 1)
  }

  lemma Begin<T>(world: World<T>, addrs: seq<string>, isWrite: bool, before: map<string, string>)
    requires addrs != []
    ensures Sofar(world, addrs, isWrite, before, [], [], before, 1)
  {}

  lemma NextRound<T>(world: World<T>, addrs: seq<string>, isWrite: bool, before: map<string, string>, attempts: seq<string>, calls: seq<Call>, now: map<string, string>, times: nat)
    requires addrs != [] && Sofar(world, addrs, isWrite, before, attempts, calls, now, times) && Asked(now, Pick(addrs, times), isWrite) in attempts
    ensures Sofar(world, addrs, isWrite, before, attempts, calls, now, times + 1)
  {
    hide InOrder, FollowedUp, CacheAt, Asked, Pick, RoundsDone, AllForwarded, NoneGood, Distinct;
    RoundEnds(world, addrs, isWrite, before, attempts, calls, times, |attempts|);
  }

  lemma AskNext<T>(world: World<T>, addrs: seq<string>, isWrite: bool, before: map<string, string>, attempts: seq<string>, calls: seq<Call>, now: map<string, string>, times: nat)
    requires addrs != [] && Sofar(world, addrs, isWrite, before, attempts, calls, now, times) && Asked(now, Pick(addrs, times), isWrite) !in attempts
    requires times >= 1 && |calls| == |attempts| && (attempts != [] ==> calls[|attempts| - 1].round < times)
    ensures
      var x, c := Asked(now, Pick(addrs, times), isWrite), Call(times, false);
      Asking(world, addrs, isWrite, before, attempts + [x], calls + [c], now, times)
  {
    hide InOrder, FollowedUp, CacheAt, Asked, Pick, RoundsDone, NoneGood, Distinct, AllForwarded;
    Attempt(world, attempts, Asked(now, Pick(addrs, times), isWrite));
    Ask(world, addrs, isWrite, before, attempts, calls, now, times);
    AskedRound(world, addrs, isWrite, before, attempts, calls, now, times);
  }

  /** A round's node that does not forward ends the retry. */
  lemma Stop<T>(world: World<T>, addrs: seq<string>, isWrite: bool, before: map<string, string>, attempts: seq<string>, calls: seq<Call>, now: map<string, string>, times: nat)
    requires Asking(world, addrs, isWrite, before, attempts, calls, now, times) && !Forwards(world, attempts, |attempts| - 1)
    ensures Told(world, addrs, isWrite, before, attempts, calls, |attempts|, now) && CacheExplained(world, addrs, attempts, before, now)
    ensures Distinct(attempts) && NoneGood(world, attempts, |attempts| - 1) && |calls| == |attempts|
  {
    hide InOrder, FollowedUp, CacheAt, RoundsDone, NoneGood, Distinct, AllForwarded, CacheExplained;
    Settled(world, addrs, isWrite, before, attempts, calls, now);
    Ended(world, addrs, isWrite, before, attempts, calls, now);
  }

  /** One that names no leader, or one that has been called, ends its round. */
  lemma GoOn<T>(world: World<T>, addrs: seq<string>, isWrite: bool, before: map<string, string>, attempts: seq<string>, calls: seq<Call>, now: map<string, string>, times: nat)
    requires Asking(world, addrs, isWrite, before, attempts, calls, now, times) && Forwards(world, attempts, |attempts| - 1)
    requires forall l :: Names(world, attempts, |attempts| - 1, l) ==> l in attempts
    ensures
      var hint := AnswerAt(world, attempts, |attempts| - 1).leader;
      Sofar(world, addrs, isWrite, before, attempts, calls, if hint.Hint? then now[Pick(addrs, times) := hint.addr] else now, times + 1)
  {
    hide InOrder, FollowedUp, CacheAt, RoundsDone, NoneGood, Distinct, Pick;
    Settled(world, addrs, isWrite, before, attempts, calls, now);
    LastForwarded(world, attempts, calls);
    StillNoneGood(world, attempts);
  }

  lemma Follow<T>(world: World<T>, addrs: seq<string>, isWrite: bool, before: map<string, string>, attempts: seq<string>, calls: seq<Call>, now: map<string, string>, times: nat, leader: string)
    requires Asking(world, addrs, isWrite, before, attempts, calls, now, times) && Names(world, attempts, |attempts| - 1, leader) && leader !in attempts
    ensures AskingLeader(world, addrs, isWrite, before, attempts + [leader], calls + [Call(times, true)], now[Pick(addrs, times) := leader], times)
  {
    hide InOrder, FollowedUp, CacheAt, RoundsDone, NoneGood, Distinct, Pick;
    LastForwarded(world, attempts, calls);
    StillNoneGood(world, attempts);
    CallLeader(world, addrs, isWrite, before, attempts, calls, now, leader);
    RoundsStay(world, addrs, isWrite, before, attempts, calls, times + 1, leader, Call(times, true));
    Attempt(world, attempts, leader);
  }

  /** A leader that gives no result is passed over. */
  lemma LeaderFails<T>(world: World<T>, addrs: seq<string>, isWrite: bool, before: map<string, string>, attempts: seq<string>, calls: seq<Call>, now: map<string, string>, times: nat)
    requires AskingLeader(world, addrs, isWrite, before, attempts, calls, now, times)
    requires Reached(world, attempts, |attempts| - 1) ==> !AnswerAt(world, attempts, |attempts| - 1).Data?
    ensures Sofar(world, addrs, isWrite, before, attempts, calls, now, times) && Sofar(world, addrs, isWrite, before, attempts, calls, now, times + 1)
  {
    hide InOrder, FollowedUp, CacheAt, RoundsDone, NoneGood, Distinct, AllForwarded;
    StillNoneGood(world, attempts);
    RoundsLess(world, addrs, isWrite, before, attempts, calls, times);
  }

  lemma LeaderAnswers<T>(world: World<T>, addrs: seq<string>, isWrite: bool, before: map<string, string>, attempts: seq<string>, calls: seq<Call>, now: map<string, string>, times: nat)
    requires AskingLeader(world, addrs, isWrite, before, attempts, calls, now, times)
    ensures Told(world, addrs, isWrite, before, attempts, calls, |attempts|, now) && CacheExplained(world, addrs, attempts, before, now)
    ensures Distinct(attempts) && NoneGood(world, attempts, |attempts| - 1) && |calls| == |attempts|
  {
    hide InOrder, FollowedUp, CacheAt, RoundsDone, NoneGood, Distinct, AllForwarded, CacheExplained;
    Ended(world, addrs, isWrite, before, attempts, calls, now);
  }

  lemma GiveUp<T>(world: World<T>, addrs: seq<string>, isWrite: bool, before: map<string, string>, attempts: seq<string>, calls: seq<Call>, now: map<string, string>, times: nat)
    requires attempts != [] && Sofar(world, addrs, isWrite, before, attempts, calls, now, times)
    ensures Told(world, addrs, isWrite, before, attempts, calls, |attempts|, now) && CacheExplained(world, addrs, attempts, before, now)
    ensures Distinct(attempts) && NoneGood(world, attempts, |attempts|) && NoneGood(world, attempts, |attempts| - 1) && |calls| == |attempts|
    ensures AllForwarded(world, attempts, calls, |attempts|) && RoundsDone(world, addrs, isWrite, before, attempts, calls, times)
    ensures addrs != [] && (!isWrite ==> forall k :: 1 <= k < times ==> addrs[k % |addrs|] in attempts)
  {
    hide InOrder, FollowedUp, CacheAt, RoundsDone, NoneGood, Distinct, AllForwarded, CacheExplained;
    ShorterNoneGood(world, attempts);
    Ended(world, addrs, isWrite, before, attempts, calls, now);
    if !isWrite { ReadsDone(world, addrs, before, attempts, calls, times); }
  }

  /** How a retry may stand when it ends. */
  ghost predicate Over<T>(world: World<T>, addrs: seq<string>, isWrite: bool, before: map<string, string>, attempts: seq<string>, calls: seq<Call>, now: map<string, string>, r: Outcome<T>)
  {
    && attempts != [] && Told(world, addrs, isWrite, before, attempts, calls, |attempts|, now) && CacheExplained(world, addrs, attempts, before, now)
    && Distinct(attempts) && Justified(world, attempts, r) && (r.Failed? || r.NoConnection? ==> !calls[|attempts| - 1].led)
  }

  /** The calls of one round, to the node it asks and to the leader that node names.  They end the retry, or leave
      all followed up; `again` tells that the leader could not be connected to, and then the round is not
      counted. */
  method CallRound<T>(pool: ClientPool, world: World<T>, addrs: seq<string>, isWrite: bool, times: nat, target: string, tried: set<string>,
                      attempts: seq<string>, ghost calls: seq<Call>, ghost cache: map<string, string>)
      returns (r: Outcome<T>, over: bool, again: bool, tried': set<string>, attempts': seq<string>, ghost calls': seq<Call>)
    requires addrs != [] && times >= 1 && |calls| == |attempts| && (attempts != [] ==> calls[|attempts| - 1].round < times)
    requires (forall a :: a in attempts <==> a in tried) && target !in tried && target == Asked(pool.leaderCache, Pick(addrs, times), isWrite)
    requires Sofar(world, addrs, isWrite, cache, attempts, calls, pool.leaderCache, times)
    modifies pool
    ensures |calls'| == |attempts'| && |attempts| < |attempts'| <= |attempts| + 2 && attempts + [target] <= attempts'
    ensures over ==> !r.NotFoundLeader? && !r.EmptyAddresses? && Over(world, addrs, isWrite, cache, attempts', calls', pool.leaderCache, r)
    ensures !over ==>
      && (forall a :: a in attempts' <==> a in tried') && calls'[|attempts'| - 1].round == times
      && Asked(pool.leaderCache, Pick(addrs, times), isWrite) in tried'
      && Sofar(world, addrs, isWrite, cache, attempts', calls', pool.leaderCache, times)
      && Sofar(world, addrs, isWrite, cache, attempts', calls', pool.leaderCache, times + 1)
  {
    hide CacheExplained, Distinct, Pick, NoneGood, Told, AllForwarded, RoundsDone, CacheAt, Sofar, Asking, AskingLeader;
    r, over, again, tried' := NotFoundLeader, true, false, tried;
    AskNext(world, addrs, isWrite, cache, attempts, calls, pool.leaderCache, times);
    attempts', calls' := attempts + [target], calls + [Call(times, false)];
    assert attempts'[..|attempts'|] == attempts';
    if !world.connects(attempts', target) {
      Stop(world, addrs, isWrite, cache, attempts', calls', pool.leaderCache, times);
      r := NoConnection;
      return;
    }
    match world.answers(attempts', target) {
      case Data(value) =>
        Stop(world, addrs, isWrite, cache, attempts', calls', pool.leaderCache, times);
        r := Ok(value);
      case Fatal =>
        Stop(world, addrs, isWrite, cache, attempts', calls', pool.leaderCache, times);
        r := Failed;
      case ForwardTo(hint) =>
        tried' := tried' + {target};
        if hint.Hint? && hint.addr !in tried' {
          var leader := hint.addr;
          Follow(world, addrs, isWrite, cache, attempts', calls', pool.leaderCache, times, leader);
          pool.leaderCache := pool.leaderCache[Pick(addrs, times) := leader];
          attempts', calls' := attempts' + [leader], calls' + [Call(times, true)];
          assert attempts'[..|attempts'|] == attempts';
          if world.connects(attempts', leader) {
            var answer := world.answers(attempts', leader);
            if answer.Data? {
              LeaderAnswers(world, addrs, isWrite, cache, attempts', calls', pool.leaderCache, times);
              r := Ok(answer.value);
              return;
            }
          } else {
            again := true;
          }
          tried' := tried' + {leader};
          LeaderFails(world, addrs, isWrite, cache, attempts', calls', pool.leaderCache, times);
        } else {
          GoOn(world, addrs, isWrite, cache, attempts', calls', pool.leaderCache, times);
          if hint.Hint? { pool.leaderCache := pool.leaderCache[Pick(addrs, times) := hint.addr]; }
          LessSofar(world, addrs, isWrite, cache, attempts', calls', pool.leaderCache, times);
        }
        over := false;
    }
  }

  lemma LessSofar<T>(world: World<T>, addrs: seq<string>, isWrite: bool, before: map<string, string>, attempts: seq<string>, calls: seq<Call>, now: map<string, string>, times: nat)
    requires Sofar(world, addrs, isWrite, before, attempts, calls, now, times + 1)
    ensures Sofar(world, addrs, isWrite, before, attempts, calls, now, times)
  {
    hide InOrder, FollowedUp, CacheAt, RoundsDone, NoneGood, Distinct, AllForwarded;
    RoundsLess(world, addrs, isWrite, before, attempts, calls, times);
  }

  /** For any addresses, any behaviour of the nodes and any retry bound the loop ends, attempts no address
      twice and at most two in a round.  The outcome is justified by the attempts.  Rounds ask in order, under
      the cache of the moment; a leader that a round's node names is called next unless it was called
      before, and kept for the round's address; only a round's own node ends the retry with an error;
      and no leader is reported only after the node of every round was called. */
  method RetryCall<T>(pool: ClientPool, world: World<T>, addrs: seq<string>, isWrite: bool, retryTimes: nat)
      returns (r: Outcome<T>, attempts: seq<string>, ghost calls: seq<Call>)
    modifies pool
    ensures addrs == [] ==> r.EmptyAddresses? && attempts == [] && unchanged(pool)
    ensures Distinct(attempts) && |attempts| <= 2 * (retryTimes + 1)
    ensures addrs != [] ==>
      && attempts != [] && attempts[0] == old(pool.Target(Pick(addrs, 1), isWrite))
      && Justified(world, attempts, r)
      && (r.NotFoundLeader? && !isWrite ==> forall k :: 1 <= k <= retryTimes + 1 ==> addrs[k % |addrs|] in attempts)
    ensures CacheExplained(world, addrs, attempts, old(pool.leaderCache), pool.leaderCache)
    ensures addrs != [] ==>
      && Told(world, addrs, isWrite, old(pool.leaderCache), attempts, calls, |attempts|, pool.leaderCache)
      && (r.Failed? || r.NoConnection? ==> !calls[|attempts| - 1].led)
      && (r.NotFoundLeader? ==>
            && AllForwarded(world, attempts, calls, |attempts|)
            && RoundsDone(world, addrs, isWrite, old(pool.leaderCache), attempts, calls, retryTimes + 2))
  {
    hide CacheExplained, Distinct, Pick, NoneGood, Told, AllForwarded, RoundsDone, CacheAt, Sofar, Asking, AskingLeader;
    attempts, calls := [], [];
    NothingYet(world, addrs, pool.leaderCache);
    if addrs == [] {
      return EmptyAddresses, attempts, calls;
    }
    var times := 1;
    var tried: set<string> := {};
    ghost var cache := pool.leaderCache;
    Begin(world, addrs, isWrite, cache);
    while true
      invariant 1 <= times <= retryTimes + 1 && |calls| == |attempts| && forall a :: a in attempts <==> a in tried
      invariant attempts == [] ==> times == 1 && pool.leaderCache == cache
      invariant attempts != [] ==> attempts[0] == old(pool.Target(Pick(addrs, 1), isWrite))
      invariant |attempts| <= 2 * (times - 1) + if pool.Target(Pick(addrs, times), isWrite) in tried then 2 else 0
      invariant Sofar(world, addrs, isWrite, cache, attempts, calls, pool.leaderCache, times)
      invariant attempts != [] ==> calls[|attempts| - 1].round <= times
      invariant attempts != [] && calls[|attempts| - 1].round == times ==> pool.Target(Pick(addrs, times), isWrite) in tried
      decreases retryTimes + 1 - times, pool.Target(Pick(addrs, times), isWrite) !in tried
    {
      var target := pool.Target(Pick(addrs, times), isWrite);
      var again := false;
      if target in tried {
        NextRound(world, addrs, isWrite, cache, attempts, calls, pool.leaderCache, times);
      } else {
        var over;
        r, over, again, tried, attempts, calls := CallRound(pool, world, addrs, isWrite, times, target, tried, attempts, calls, cache);
        if over {
          return;
        }
      }
      if again {
        continue;
      }
      if times > retryTimes {
        GiveUp(world, addrs, isWrite, cache, attempts, calls, pool.leaderCache, times + 1);
        return NotFoundLeader, attempts, calls;
      }
      times := times + 1;
    }
  }

  /** The round that has just asked its node is done. */
  lemma AskedRound<T>(world: World<T>, addrs: seq<string>, isWrite: bool, before: map<string, string>, attempts: seq<string>, calls: seq<Call>, now: map<string, string>, times: nat)
    requires addrs != [] && |attempts| == |calls| && now == CacheAt(world, addrs, before, attempts, calls, |attempts|)
    requires RoundsDone(world, addrs, isWrite, before, attempts, calls, times)
    ensures RoundsDone(world, addrs, isWrite, before, attempts + [Asked(now, Pick(addrs, times), isWrite)], calls + [Call(times, false)], times + 1)
  {
    hide CacheAt, Asked, Pick, RoundsDone;
    var x, c := Asked(now, Pick(addrs, times), isWrite), Call(times, false);
    RoundsStay(world, addrs, isWrite, before, attempts, calls, times, x, c);
    CacheStays(world, addrs, before, attempts, calls, x, c, |attempts|);
    RoundEnds(world, addrs, isWrite, before, attempts + [x], calls + [c], times, |attempts|);
  }

  lemma RoundsLess<T>(world: World<T>, addrs: seq<string>, isWrite: bool, before: map<string, string>, attempts: seq<string>, calls: seq<Call>, times: nat)
    requires addrs != [] && |attempts| == |calls| && RoundsDone(world, addrs, isWrite, before, attempts, calls, times + 1)
    ensures RoundsDone(world, addrs, isWrite, before, attempts, calls, times)
  {
    hide RoundDone;
  }

  lemma LastForwarded<T>(world: World<T>, attempts: seq<string>, calls: seq<Call>)
    requires attempts != [] && |attempts| == |calls| && AllForwarded(world, attempts, calls, |attempts| - 1) && Forwards(world, attempts, |attempts| - 1)
    ensures AllForwarded(world, attempts, calls, |attempts|)
  {
    hide Forwards;
  }

  lemma ShorterNoneGood<T>(world: World<T>, attempts: seq<string>)
    requires attempts != [] && NoneGood(world, attempts, |attempts|)
    ensures NoneGood(world, attempts, |attempts| - 1)
  {
    hide Reached, AnswerAt;
  }
}
