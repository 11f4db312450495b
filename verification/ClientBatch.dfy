/** Client batching: packages grouped by segment, a packet id for every message. */
module ClientBatch {
  import opened Bytes
  import opened Strings
  import opened Decimal
  import opened Keys

  datatype ClientData = ClientData(key: string, content: seq<byte>, tags: seq<string>)

  /** A sender package: its id, the segment it is for, its messages. */
  datatype Pkg = Pkg(id: nat, iden: Iden, data: seq<ClientData>)

  datatype ReqMessage = ReqMessage(pkid: u64, key: string, value: seq<byte>, tags: seq<string>)

  datatype SegReq = SegReq(iden: Iden, messages: seq<ReqMessage>)

  // ---------------------------------------------------------------- segment names

  function SegmentName(s: Iden): string { s.namespace + "," + (s.shardName + "," + Dec(s.segmentSeq)) }

  lemma SameName(a: Iden, b: Iden)
    requires SegmentName(a) == SegmentName(b)
    ensures a.segmentSeq == b.segmentSeq && a.namespace + "," + a.shardName == b.namespace + "," + b.shardName
  {
    hide Dec;
    var x, y := a.namespace + "," + a.shardName, b.namespace + "," + b.shardName;
    assert SegmentName(a) == x + "," + Dec(a.segmentSeq) && SegmentName(b) == y + "," + Dec(b.segmentSeq);
    DecFree(a.segmentSeq, ',');
    DecFree(b.segmentSeq, ',');
    SplitLast(x, Dec(a.segmentSeq), y, Dec(b.segmentSeq), ',');
    DecInjective(a.segmentSeq, b.segmentSeq);
  }

  /** A segment has its name to itself. */
  ghost predicate OwnsName(a: Iden) { forall b :: SegmentName(b) == SegmentName(a) ==> b == a }

  /** It does exactly when its namespace and shard name have no comma. */
  lemma OwnsNameIff(a: Iden)
    ensures OwnsName(a) <==> NoCommas(a)
  {
    hide SegmentName;
    if NoCommas(a) {
      forall b | SegmentName(b) == SegmentName(a) ensures b == a {
        SameName(b, a);
        var j := a.namespace + "," + a.shardName;
        assert j == b.namespace + "," + b.shardName;
        assert j[|b.namespace|] == ',' && forall i :: 0 <= i < |j| && i != |a.namespace| ==> j[i] != ',';
        assert b.namespace == j[..|b.namespace|] && b.shardName == j[|b.namespace| + 1..];
        assert a.namespace == j[..|a.namespace|] && a.shardName == j[|a.namespace| + 1..];
      }
    } else {
      var b := Namesake(a);
    }
  }

  /** The other way to read a name with a comma too many. */
  lemma Namesake(a: Iden) returns (b: Iden)
    requires !NoCommas(a)
    ensures b != a && SegmentName(b) == SegmentName(a)
  {
    hide Dec;
    var rest := "," + Dec(a.segmentSeq);
    if i :| 0 <= i < |a.namespace| && a.namespace[i] == ',' {
      b := SegmentIdentity(a.namespace[..i], a.namespace[i + 1..] + "," + a.shardName, a.segmentSeq);
      assert a.namespace == a.namespace[..i] + "," + a.namespace[i + 1..];
      assert SegmentName(b) == a.namespace[..i] + "," + a.namespace[i + 1..] + "," + a.shardName + rest;
    } else {
      var i :| 0 <= i < |a.shardName| && a.shardName[i] == ',';
      b := SegmentIdentity(a.namespace + "," + a.shardName[..i], a.shardName[i + 1..], a.segmentSeq);
      assert a.shardName == a.shardName[..i] + "," + a.shardName[i + 1..];
      assert SegmentName(b) == a.namespace + "," + (a.shardName[..i] + "," + a.shardName[i + 1..]) + rest;
    }
  }

  /** With a comma in a name two segments share one, and their packages are sent as one. */
  lemma CommaCollides(n: u32)
    ensures SegmentName(SegmentIdentity("a,b", "c", n)) == SegmentName(SegmentIdentity("a", "b,c", n))
  {
    hide Dec;
    assert "a,b" + "," + ("c" + "," + Dec(n)) == "a" + "," + ("b,c" + "," + Dec(n));
  }

  /** The first package, from `i` on, that has the segment name of package `q`. */
  function Leader(pkgs: seq<Pkg>, q: nat, i: nat): (r: nat)
    requires i <= q < |pkgs|
    ensures i <= r <= q && SegmentName(pkgs[r].iden) == SegmentName(pkgs[q].iden)
    ensures forall k :: i <= k < r ==> SegmentName(pkgs[k].iden) != SegmentName(pkgs[q].iden)
    decreases q - i
  {
    if SegmentName(pkgs[i].iden) == SegmentName(pkgs[q].iden) then i else Leader(pkgs, q, i + 1)
  }

  /** The segment a package is sent to: that of the first package with its segment name. */
  function Target(pkgs: seq<Pkg>, q: nat): Iden
    requires q < |pkgs|
  { pkgs[Leader(pkgs, q, 0)].iden }

  predicate NoCommas(s: Iden) { Free(s.namespace, ',') && Free(s.shardName, ',') }

  /** Packages for segment `s` are always sent to `s`. */
  ghost predicate NeverMisrouted(s: Iden)
  {
    forall pkgs: seq<Pkg>, q: nat :: q < |pkgs| && pkgs[q].iden == s ==> Target(pkgs, q) == s
  }

  /** They are exactly when the names of `s` have no comma. */
  lemma NeverMisroutedIff(s: Iden)
    ensures NeverMisrouted(s) <==> NoCommas(s)
  {
    hide SegmentName, NoCommas;
    OwnsNameIff(s);
    if !NoCommas(s) {
      var other := Namesake(s);
      assert Target([Pkg(0, other, []), Pkg(1, s, [])], 1) == other;
    }
  }

  /** One such misrouting, whatever the packages hold. */
  lemma CommaMisroutes(x: seq<ClientData>, y: seq<ClientData>, n: u32)
    ensures Target([Pkg(0, SegmentIdentity("a,b", "c", n), x), Pkg(1, SegmentIdentity("a", "b,c", n), y)], 1) == SegmentIdentity("a,b", "c", n)
  {
    CommaCollides(n);
  }

  predicate DistinctPkgIds(pkgs: seq<Pkg>) { forall i, j :: 0 <= i < j < |pkgs| ==> pkgs[i].id != pkgs[j].id }

  // ---------------------------------------------------------------- what a request must say

  function ToReq(id: u64, d: ClientData): ReqMessage { ReqMessage(id, d.key, d.content, d.tags) }

  predicate IsReq(m: ReqMessage, id: nat, d: ClientData) { m.pkid == id && m.key == d.key && m.value == d.content && m.tags == d.tags }

  type Places = map<nat, (nat, nat)>

  predicate InRange(w: seq<SegReq>, at: (nat, nat)) { at.0 < |w| && at.1 < |w[at.0].messages| }

  /** Every message of the request stands at the place noted for its packet id, so no two share one. */
  ghost predicate Consistent(w: seq<SegReq>, loc: Places)
  {
    forall si, mi :: 0 <= si < |w| && 0 <= mi < |w[si].messages| ==>
      w[si].messages[mi].pkid in loc && loc[w[si].messages[mi].pkid] == (si, mi)
  }

  /** Packet id `id` carries the `k`-th message of `p`, at place `at` of the part of the request for segment `to`. */
  ghost predicate Carries(w: seq<SegReq>, loc: Places, id: nat, p: Pkg, k: nat, to: Iden, at: nat)
    requires k < |p.data|
  {
    id in loc && InRange(w, loc[id]) && loc[id].1 == at &&
    IsReq(w[loc[id].0].messages[loc[id].1], id, p.data[k]) && w[loc[id].0].iden == to
  }

  /** The first `n` messages of `p` are in the request, in order from place `base` on, and their packet ids are
      listed in that order. */
  ghost predicate Tracks(w: seq<SegReq>, loc: Places, ids: map<nat, seq<nat>>, p: Pkg, n: nat, to: Iden, base: nat)
  {
    && n <= |p.data|
    && (n == 0 ==> p.id !in ids)
    && (n > 0 ==> p.id in ids && |ids[p.id]| == n && forall k :: 0 <= k < n ==> Carries(w, loc, ids[p.id][k], p, k, to, base + k))
  }

  /** Packet id `id` is the `k`-th of package `q`. */
  ghost predicate Owner(pkgs: seq<Pkg>, ids: map<nat, seq<nat>>, id: nat, q: nat, k: nat)
  {
    q < |pkgs| && pkgs[q].id in ids && k < |ids[pkgs[q].id]| && ids[pkgs[q].id][k] == id
  }

  ghost predicate HasOwner(pkgs: seq<Pkg>, ids: map<nat, seq<nat>>, id: nat) { exists q: nat, k: nat :: Owner(pkgs, ids, id, q, k) }

  /** Every message of the request belongs to some package, and every list of ids to some package. */
  ghost predicate Owned(pkgs: seq<Pkg>, w: seq<SegReq>, ids: map<nat, seq<nat>>)
  {
    && (forall si, mi :: 0 <= si < |w| && 0 <= mi < |w[si].messages| ==> HasOwner(pkgs, ids, w[si].messages[mi].pkid))
    && (forall id :: id in ids ==> exists q :: 0 <= q < |pkgs| && pkgs[q].id == id)
  }

  /** No packet id stands for two messages. */
  ghost predicate Unshared(pkgs: seq<Pkg>, loc: Places, ids: map<nat, seq<nat>>)
  {
    && (forall id, q, k :: Owner(pkgs, ids, id, q, k) ==> id in loc)
    && (forall id, q, k, q', k' :: Owner(pkgs, ids, id, q, k) && Owner(pkgs, ids, id, q', k') ==> q == q' && k == k')
  }

  /** A finished request: consistent, one part per segment, every package wholly in it. */
  ghost predicate Built(pkgs: seq<Pkg>, w: seq<SegReq>, loc: Places, ids: map<nat, seq<nat>>)
  {
    && Consistent(w, loc)
    && (forall i, j :: 0 <= i < j < |w| ==> w[i].iden != w[j].iden)
    && (forall q :: 0 <= q < |pkgs| ==> Tracks(w, loc, ids, pkgs[q], |pkgs[q].data|, Target(pkgs, q), Base(pkgs, q)))
    && Owned(pkgs, w, ids) && Unshared(pkgs, loc, ids)
  }

  // ---------------------------------------------------------------- one message

  function Extend(w: seq<SegReq>, m: ReqMessage): seq<SegReq>
    requires w != []
  {
    var last := |w| - 1;
    w[last := w[last].(messages := w[last].messages + [m])]
  }

  function NoteId(ids: map<nat, seq<nat>>, p: nat, id: nat): map<nat, seq<nat>>
  {
    if p in ids then ids[p := ids[p] + [id]] else ids[p := [id]]
  }

  /** The owners after one more id is noted: those before, and the new one. */
  lemma OwnersAfter(pkgs: seq<Pkg>, ids: map<nat, seq<nat>>, q: nat, id: nat)
    requires q < |pkgs| && DistinctPkgIds(pkgs)
    ensures
      var ids' := NoteId(ids, pkgs[q].id, id);
      && HasOwner(pkgs, ids', id)
      && (forall i, o, k :: Owner(pkgs, ids, i, o, k) ==> Owner(pkgs, ids', i, o, k))
      && (forall i, o, k :: Owner(pkgs, ids', i, o, k) ==> Owner(pkgs, ids, i, o, k) || (i == id && o == q && k == |ids'[pkgs[q].id]| - 1))
  {
    var ids' := NoteId(ids, pkgs[q].id, id);
    assert Owner(pkgs, ids', id, q, |ids'[pkgs[q].id]| - 1);
  }

  lemma ExtendOwned(pkgs: seq<Pkg>, w: seq<SegReq>, ids: map<nat, seq<nat>>, q: nat, m: ReqMessage)
    requires w != [] && q < |pkgs| && DistinctPkgIds(pkgs) && Owned(pkgs, w, ids)
    ensures Owned(pkgs, Extend(w, m), NoteId(ids, pkgs[q].id, m.pkid))
  {
    hide Owner, DistinctPkgIds;
    OwnersAfter(pkgs, ids, q, m.pkid);
    var w', ids' := Extend(w, m), NoteId(ids, pkgs[q].id, m.pkid);
    forall si, mi | 0 <= si < |w'| && 0 <= mi < |w'[si].messages| ensures HasOwner(pkgs, ids', w'[si].messages[mi].pkid) {
      if !(si == |w| - 1 && mi == |w[si].messages|) {
        assert w'[si].messages[mi] == w[si].messages[mi];
      }
    }
  }

  lemma ExtendUnshared(pkgs: seq<Pkg>, loc: Places, ids: map<nat, seq<nat>>, q: nat, id: nat, at: (nat, nat))
    requires q < |pkgs| && DistinctPkgIds(pkgs) && Unshared(pkgs, loc, ids) && id !in loc
    ensures Unshared(pkgs, loc[id := at], NoteId(ids, pkgs[q].id, id))
  {
    hide Owner, DistinctPkgIds, NoteId;
    OwnersAfter(pkgs, ids, q, id);
  }

  lemma ExtendConsistent(w: seq<SegReq>, loc: Places, m: ReqMessage)
    requires w != [] && Consistent(w, loc) && m.pkid !in loc
    ensures Consistent(Extend(w, m), loc[m.pkid := (|w| - 1, |w[|w| - 1].messages|)])
  {}

  lemma ExtendKeepsCarries(w: seq<SegReq>, loc: Places, m: ReqMessage, id: nat, p: Pkg, k: nat, to: Iden, at: nat)
    requires w != [] && m.pkid !in loc && k < |p.data| && Carries(w, loc, id, p, k, to, at)
    ensures Carries(Extend(w, m), loc[m.pkid := (|w| - 1, |w[|w| - 1].messages|)], id, p, k, to, at)
  {}

  /** A message of another package leaves a package's tracking alone. */
  lemma ExtendKeepsTracks(w: seq<SegReq>, loc: Places, ids: map<nat, seq<nat>>, m: ReqMessage, other: nat, p: Pkg, n: nat, to: Iden, base: nat)
    requires w != [] && m.pkid !in loc && Tracks(w, loc, ids, p, n, to, base) && p.id != other
    ensures Tracks(Extend(w, m), loc[m.pkid := (|w| - 1, |w[|w| - 1].messages|)], NoteId(ids, other, m.pkid), p, n, to, base)
  {
    hide Extend, Carries;
    forall k | 0 <= k < n
      ensures Carries(Extend(w, m), loc[m.pkid := (|w| - 1, |w[|w| - 1].messages|)], ids[p.id][k], p, k, to, base + k)
    {
      ExtendKeepsCarries(w, loc, m, ids[p.id][k], p, k, to, base + k);
    }
  }

  /** A package's next message advances its tracking by one. */
  lemma ExtendAdvances(w: seq<SegReq>, loc: Places, ids: map<nat, seq<nat>>, p: Pkg, n: nat, id: u64, base: nat)
    requires w != [] && id !in loc && Tracks(w, loc, ids, p, n, w[|w| - 1].iden, base) && n < |p.data| && |w[|w| - 1].messages| == base + n
    ensures Tracks(Extend(w, ToReq(id, p.data[n])), loc[id := (|w| - 1, |w[|w| - 1].messages|)], NoteId(ids, p.id, id), p, n + 1, w[|w| - 1].iden, base)
  {
    hide Carries;
    var m := ToReq(id, p.data[n]);
    var w', loc', ids' := Extend(w, m), loc[id := (|w| - 1, |w[|w| - 1].messages|)], NoteId(ids, p.id, id);
    forall k | 0 <= k < n + 1 ensures Carries(w', loc', ids'[p.id][k], p, k, w[|w| - 1].iden, base + k) {
      if k < n {
        assert ids'[p.id][k] == ids[p.id][k];
        hide Extend;
        ExtendKeepsCarries(w, loc, m, ids[p.id][k], p, k, w[|w| - 1].iden, base + k);
      } else {
        NewCarries(w, loc, p, n, id);
      }
    }
  }

  lemma NewCarries(w: seq<SegReq>, loc: Places, p: Pkg, n: nat, id: u64)
    requires w != [] && n < |p.data|
    ensures Carries(Extend(w, ToReq(id, p.data[n])), loc[id := (|w| - 1, |w[|w| - 1].messages|)], id, p, n, w[|w| - 1].iden, |w[|w| - 1].messages|)
  {}

  // ---------------------------------------------------------------- packet ids

  /** The ids handed out so far: `n` of them from `first` on, wrapping at 2^64. */
  ghost predicate HandedOut(loc: Places, first: nat, n: nat)
  {
    forall id :: id in loc ==> exists i :: 0 <= i < n && id == WrapAdd(first, i)
  }

  lemma NextIdIsFresh(loc: Places, first: nat, n: nat)
    requires HandedOut(loc, first, n) && n < TWO_64
    ensures WrapAdd(first, n) !in loc
  {
    if WrapAdd(first, n) in loc {
      var i :| 0 <= i < n && WrapAdd(first, n) == WrapAdd(first, i);
      WrapDistinct(first, i, n);
    }
  }

  lemma WrapDistinct(x: nat, i: nat, j: nat)
    requires i < j && j - i < TWO_64
    ensures WrapAdd(x, i) != WrapAdd(x, j)
  {}

  /** How many messages the packages outside `done` still have. */
  function Left(pkgs: seq<Pkg>, n: nat, done: set<nat>): nat
    requires n <= |pkgs|
  {
    if n == 0 then 0 else Left(pkgs, n - 1, done) + if n - 1 in done then 0 else |pkgs[n - 1].data|
  }

  lemma {:induction false} LeftWithout(pkgs: seq<Pkg>, n: nat, done: set<nat>, q: nat)
    requires n <= |pkgs| && q !in done && q < |pkgs|
    ensures Left(pkgs, n, done) == Left(pkgs, n, done + {q}) + if q < n then |pkgs[q].data| else 0
  {
    if n > 0 { LeftWithout(pkgs, n - 1, done, q); }
  }

  // ---------------------------------------------------------------- the loops

  /** Loop one: the packages by segment name, each group in arrival order. */
  method GroupBySegment(pkgs: seq<Pkg>) returns (groups: map<string, seq<Pkg>>, ghost idx: map<string, seq<nat>>)
    ensures groups.Keys == idx.Keys
    ensures forall name :: name in groups ==> groups[name] != [] && IsGroup(pkgs, |pkgs|, name, groups[name], idx[name])
    ensures forall q :: 0 <= q < |pkgs| ==> SegmentName(pkgs[q].iden) in groups
  {
    hide SegmentName, IsGroup;
    groups, idx := map[], map[];
    for i := 0 to |pkgs|
      invariant groups.Keys == idx.Keys
      invariant forall name :: name in groups ==> groups[name] != [] && IsGroup(pkgs, i, name, groups[name], idx[name])
      invariant forall q :: 0 <= q < i ==> SegmentName(pkgs[q].iden) in groups
    {
      var key := SegmentName(pkgs[i].iden);
      forall name | name in groups ensures name != key ==> IsGroup(pkgs, i + 1, name, groups[name], idx[name]) {
        if name != key { GroupKept(pkgs, i, name, groups[name], idx[name]); }
      }
      if key in groups {
        GroupGrown(pkgs, i, key, groups[key], idx[key]);
        groups := groups[key := groups[key] + [pkgs[i]]];
        idx := idx[key := idx[key] + [i]];
      } else {
        FirstOfGroup(pkgs, i, key);
        groups := groups[key := [pkgs[i]]];
        idx := idx[key := [i]];
      }
    }
  }

  /** How many messages the first `n` packages have for a segment name. */
  function MessagesNamed(pkgs: seq<Pkg>, n: nat, name: string): nat
    requires n <= |pkgs|
  {
    if n == 0 then 0 else MessagesNamed(pkgs, n - 1, name) + if SegmentName(pkgs[n - 1].iden) == name then |pkgs[n - 1].data| else 0
  }

  /** How many messages for the segment of package `q` come before those of that package. */
  function Base(pkgs: seq<Pkg>, q: nat): nat
    requires q < |pkgs|
  { MessagesNamed(pkgs, q, SegmentName(pkgs[q].iden)) }

  lemma {:induction false} NoneNamed(pkgs: seq<Pkg>, n: nat, name: string)
    requires n <= |pkgs| && forall q :: 0 <= q < n ==> SegmentName(pkgs[q].iden) != name
    ensures MessagesNamed(pkgs, n, name) == 0
  {
    hide SegmentName;
    if n > 0 { NoneNamed(pkgs, n - 1, name); }
  }

  function TotalOf(group: seq<Pkg>): nat
  {
    if group == [] then 0 else TotalOf(group[..|group| - 1]) + |group[|group| - 1].data|
  }

  /** `group` lists exactly the packages below `n` with the given segment name, in order. */
  ghost predicate IsGroup(pkgs: seq<Pkg>, n: nat, name: string, group: seq<Pkg>, idx: seq<nat>)
    requires n <= |pkgs|
  {
    && TotalOf(group) == MessagesNamed(pkgs, n, name)
    && |group| == |idx|
    && (forall j :: 0 <= j < |idx| ==> idx[j] < n && group[j] == pkgs[idx[j]] && SegmentName(group[j].iden) == name)
    && (forall i, j :: 0 <= i < j < |idx| ==> idx[i] < idx[j])
    && (forall q :: 0 <= q < n && SegmentName(pkgs[q].iden) == name ==> q in idx)
  }

  lemma GroupKept(pkgs: seq<Pkg>, i: nat, name: string, group: seq<Pkg>, idx: seq<nat>)
    requires i < |pkgs| && IsGroup(pkgs, i, name, group, idx) && SegmentName(pkgs[i].iden) != name
    ensures IsGroup(pkgs, i + 1, name, group, idx)
  {}

  lemma GroupGrown(pkgs: seq<Pkg>, i: nat, name: string, group: seq<Pkg>, idx: seq<nat>)
    requires i < |pkgs| && IsGroup(pkgs, i, name, group, idx) && SegmentName(pkgs[i].iden) == name
    ensures IsGroup(pkgs, i + 1, name, group + [pkgs[i]], idx + [i])
  {
    hide SegmentName;
    assert (group + [pkgs[i]])[..|group|] == group;
    forall q | 0 <= q < i + 1 && SegmentName(pkgs[q].iden) == name ensures q in idx + [i] {
      if q < i { assert q in idx; }
    }
  }

  lemma FirstOfGroup(pkgs: seq<Pkg>, i: nat, name: string)
    requires i < |pkgs| && SegmentName(pkgs[i].iden) == name && forall q :: 0 <= q < i ==> SegmentName(pkgs[q].iden) != name
    ensures IsGroup(pkgs, i + 1, name, [pkgs[i]], [i])
  {
    hide SegmentName;
    NoneNamed(pkgs, i, name);
    var group := [pkgs[i]];
    assert group[..|group| - 1] == [];
    assert TotalOf(group) == |pkgs[i].data|;
  }

  /** The first of a group leads it. */
  lemma GroupTarget(pkgs: seq<Pkg>, name: string, group: seq<Pkg>, idx: seq<nat>, j: nat)
    requires IsGroup(pkgs, |pkgs|, name, group, idx) && j < |group|
    ensures Target(pkgs, idx[j]) == group[0].iden
  {
    hide SegmentName;
    var r := Leader(pkgs, idx[j], 0);
    assert r in idx;
    var i :| 0 <= i < |idx| && idx[i] == r;
    assert SegmentName(pkgs[idx[0]].iden) == name;
  }

  function Size(pkgs: seq<Pkg>, done: set<nat>, q: nat): nat
    requires q < |pkgs|
  { if q in done then |pkgs[q].data| else 0 }

  ghost predicate AllTracked(pkgs: seq<Pkg>, w: seq<SegReq>, loc: Places, ids: map<nat, seq<nat>>, done: set<nat>)
  {
    && (forall q :: 0 <= q < |pkgs| ==> Tracks(w, loc, ids, pkgs[q], Size(pkgs, done, q), Target(pkgs, q), Base(pkgs, q)))
    && Owned(pkgs, w, ids) && Unshared(pkgs, loc, ids)
  }

  ghost predicate OthersTracked(pkgs: seq<Pkg>, w: seq<SegReq>, loc: Places, ids: map<nat, seq<nat>>, done: set<nat>, skip: nat)
  {
    && (forall q :: 0 <= q < |pkgs| && q != skip ==> Tracks(w, loc, ids, pkgs[q], Size(pkgs, done, q), Target(pkgs, q), Base(pkgs, q)))
    && Owned(pkgs, w, ids) && Unshared(pkgs, loc, ids)
  }

  /** The ledger of ids: `n` handed out from `first` on, the generator standing at the next. */
  ghost predicate Ledger(w: seq<SegReq>, loc: Places, first: nat, n: nat, generator: nat)
  {
    Consistent(w, loc) && HandedOut(loc, first, n) && generator == WrapAdd(first, n)
  }

  lemma LedgerNext(w: seq<SegReq>, loc: Places, first: nat, n: nat, generator: nat, m: ReqMessage)
    requires w != [] && Ledger(w, loc, first, n, generator) && n < TWO_64 && m.pkid == generator
    ensures generator !in loc
    ensures Ledger(Extend(w, m), loc[generator := (|w| - 1, |w[|w| - 1].messages|)], first, n + 1, WrapAdd(generator, 1))
  {
    hide Extend, WrapAdd;
    NextIdIsFresh(loc, first, n);
    ExtendConsistent(w, loc, m);
    WrapAddNext(first, n);
  }

  /** The innermost loop: one packet id for every message of a package. */
  method AddPackage(ghost pkgs: seq<Pkg>, ghost q: nat, ghost done: set<nat>, ghost before: seq<SegReq>,
                    pkg: Pkg, iden: Iden, generator: u64, messages: seq<ReqMessage>, ids: map<nat, seq<nat>>,
                    ghost loc: Places, ghost first: nat, ghost n: nat)
      returns (generator': u64, messages': seq<ReqMessage>, ids': map<nat, seq<nat>>, ghost loc': Places)
    requires q < |pkgs| && pkgs[q] == pkg && Target(pkgs, q) == iden && q !in done && DistinctPkgIds(pkgs)
    requires n + |pkg.data| <= TWO_64 && |messages| == Base(pkgs, q)
    requires Ledger(before + [SegReq(iden, messages)], loc, first, n, generator)
    requires AllTracked(pkgs, before + [SegReq(iden, messages)], loc, ids, done)
    ensures Ledger(before + [SegReq(iden, messages')], loc', first, n + |pkg.data|, generator')
    ensures AllTracked(pkgs, before + [SegReq(iden, messages')], loc', ids', done + {q})
    ensures |messages'| == |messages| + |pkg.data|
  {
    hide Tracks, Ledger, WrapAdd, Target, Leader, Owned, Unshared, Base;
    generator', messages', ids', loc' := generator, messages, ids, loc;
    for k := 0 to |pkg.data|
      invariant Ledger(before + [SegReq(iden, messages')], loc', first, n + k, generator')
      invariant OthersTracked(pkgs, before + [SegReq(iden, messages')], loc', ids', done, q)
      invariant Tracks(before + [SegReq(iden, messages')], loc', ids', pkg, k, iden, Base(pkgs, q))
      invariant |messages'| == |messages| + k
    {
      var id := generator';
      ghost var w := before + [SegReq(iden, messages')];
      var message := ToReq(id, pkg.data[k]);
      LedgerNext(w, loc', first, n + k, id, message);
      ExtendAdvances(w, loc', ids', pkg, k, id, Base(pkgs, q));
      ExtendOwned(pkgs, w, ids', q, message);
      ExtendUnshared(pkgs, loc', ids', q, id, (|w| - 1, |w[|w| - 1].messages|));
      forall o | 0 <= o < |pkgs| && o != q
        ensures Tracks(Extend(w, message), loc'[id := (|w| - 1, |w[|w| - 1].messages|)], NoteId(ids', pkg.id, id), pkgs[o], Size(pkgs, done, o), Target(pkgs, o), Base(pkgs, o))
      {
        ExtendKeepsTracks(w, loc', ids', message, pkg.id, pkgs[o], Size(pkgs, done, o), Target(pkgs, o), Base(pkgs, o));
      }
      assert Extend(w, message) == before + [SegReq(iden, messages' + [message])];
      loc' := loc'[id := (|w| - 1, |w[|w| - 1].messages|)];
      generator' := WrapAdd(generator', 1);
      messages' := messages' + [message];
      ids' := NoteId(ids', pkg.id, id);
    }
  }

  /** The packages of the segments finished so far. */
  ghost function DoneIn(pkgs: seq<Pkg>, names: set<string>): set<nat>
  {
    set q | 0 <= q < |pkgs| && SegmentName(pkgs[q].iden) in names
  }

  function ToSet(s: seq<nat>): set<nat> { set x | x in s }

  lemma GroupEnds(pkgs: seq<Pkg>, name: string, group: seq<Pkg>, idx: seq<nat>)
    requires IsGroup(pkgs, |pkgs|, name, group, idx)
    ensures |idx| == |group| && TotalOf(group) == MessagesNamed(pkgs, |pkgs|, name)
    ensures ToSet([]) == {} && ToSet(idx) == set q | 0 <= q < |pkgs| && SegmentName(pkgs[q].iden) == name
    ensures group != [] ==> SegmentName(group[0].iden) == name
  {
    hide SegmentName, MessagesNamed, TotalOf;
  }

  /** The packages of a group before the `j`-th are those that came before it. */
  lemma GroupFront(pkgs: seq<Pkg>, name: string, group: seq<Pkg>, idx: seq<nat>, j: nat)
    requires IsGroup(pkgs, |pkgs|, name, group, idx) && j < |group|
    ensures idx[j] < |pkgs| && TotalOf(group[..j]) == Base(pkgs, idx[j])
  {
    hide SegmentName, MessagesNamed, TotalOf;
    forall q | 0 <= q < idx[j] && SegmentName(pkgs[q].iden) == name ensures q in idx[..j] {
      var i :| 0 <= i < |idx| && idx[i] == q;
      assert i < j && idx[..j][i] == q;
    }
    ListTotal(pkgs, idx[j], name, group[..j], idx[..j]);
  }

  /** `group` lists the packages below `n` with the given name, in order. */
  ghost predicate IsList(pkgs: seq<Pkg>, n: nat, name: string, group: seq<Pkg>, idx: seq<nat>)
    requires n <= |pkgs|
  {
    && |group| == |idx|
    && (forall j :: 0 <= j < |idx| ==> idx[j] < n && group[j] == pkgs[idx[j]] && SegmentName(group[j].iden) == name)
    && (forall i, j :: 0 <= i < j < |idx| ==> idx[i] < idx[j])
    && (forall q :: 0 <= q < n && SegmentName(pkgs[q].iden) == name ==> q in idx)
  }

  lemma ListLast(pkgs: seq<Pkg>, n: nat, name: string, group: seq<Pkg>, idx: seq<nat>)
    requires 0 < n <= |pkgs| && IsList(pkgs, n, name, group, idx) && SegmentName(pkgs[n - 1].iden) == name
    ensures
      var last := |group| - 1;
      last >= 0 && |idx| == |group| && group[last] == pkgs[n - 1] && IsList(pkgs, n - 1, name, group[..last], idx[..last])
  {
    hide SegmentName;
    assert n - 1 in idx;
    var last := |idx| - 1;
    var i :| 0 <= i < |idx| && idx[i] == n - 1;
    assert idx[i] <= idx[last];
    forall q | 0 <= q < n - 1 && SegmentName(pkgs[q].iden) == name ensures q in idx[..last] {
      assert q in idx;
      var i' :| 0 <= i' < |idx| && idx[i'] == q;
      assert idx[..last][i'] == q;
    }
  }

  lemma ListSkip(pkgs: seq<Pkg>, n: nat, name: string, group: seq<Pkg>, idx: seq<nat>)
    requires 0 < n <= |pkgs| && IsList(pkgs, n, name, group, idx) && SegmentName(pkgs[n - 1].iden) != name
    ensures IsList(pkgs, n - 1, name, group, idx)
  {
    hide SegmentName;
    forall j | 0 <= j < |idx| ensures idx[j] < n - 1 { assert SegmentName(group[j].iden) == name; }
  }

  lemma {:induction false} ListTotal(pkgs: seq<Pkg>, n: nat, name: string, group: seq<Pkg>, idx: seq<nat>)
    requires n <= |pkgs| && IsList(pkgs, n, name, group, idx)
    ensures TotalOf(group) == MessagesNamed(pkgs, n, name)
    decreases n
  {
    hide SegmentName, IsList;
    if n == 0 {
      ListNothing(pkgs, name, group, idx);
    } else if SegmentName(pkgs[n - 1].iden) == name {
      ListLast(pkgs, n, name, group, idx);
      ListTotal(pkgs, n - 1, name, group[..|group| - 1], idx[..|group| - 1]);
    } else {
      ListSkip(pkgs, n, name, group, idx);
      ListTotal(pkgs, n - 1, name, group, idx);
    }
  }

  lemma ListNothing(pkgs: seq<Pkg>, name: string, group: seq<Pkg>, idx: seq<nat>)
    requires IsList(pkgs, 0, name, group, idx)
    ensures group == []
  {
    hide SegmentName;
    BelowSome(idx, 0);
  }

  lemma BelowSome(idx: seq<nat>, n: nat)
    requires forall j :: 0 <= j < |idx| ==> idx[j] < n
    ensures idx != [] ==> n > 0
  {
    if idx != [] { assert idx[0] < n; }
  }

  /** The next package of a group is a new one. */
  lemma GroupAt(pkgs: seq<Pkg>, name: string, group: seq<Pkg>, idx: seq<nat>, done: set<nat>, j: nat)
    requires IsGroup(pkgs, |pkgs|, name, group, idx) && j < |group| && |idx| == |group|
    requires forall q :: q in done ==> 0 <= q < |pkgs| && SegmentName(pkgs[q].iden) != name
    ensures idx[j] < |pkgs| && group[j] == pkgs[idx[j]] && Target(pkgs, idx[j]) == group[0].iden
    ensures idx[j] !in done + ToSet(idx[..j]) && ToSet(idx[..j + 1]) == ToSet(idx[..j]) + {idx[j]}
  {
    hide SegmentName, MessagesNamed, TotalOf;
    GroupTarget(pkgs, name, group, idx, j);
    assert idx[..j + 1] == idx[..j] + [idx[j]];
  }

  /** The middle loop: all packages of one segment. */
  method AddSegment(ghost pkgs: seq<Pkg>, ghost done: set<nat>, before: seq<SegReq>, ghost name: string,
                    group: seq<Pkg>, ghost idx: seq<nat>, generator: u64, ids: map<nat, seq<nat>>,
                    ghost loc: Places, ghost first: nat, ghost n: nat, ghost total: nat)
      returns (generator': u64, segment: SegReq, ids': map<nat, seq<nat>>, ghost loc': Places, ghost done': set<nat>, ghost n': nat)
    requires group != [] && IsGroup(pkgs, |pkgs|, name, group, idx) && DistinctPkgIds(pkgs)
    requires forall q :: q in done ==> 0 <= q < |pkgs| && SegmentName(pkgs[q].iden) != name
    requires n + Left(pkgs, |pkgs|, done) == total <= TWO_64
    requires Ledger(before, loc, first, n, generator) && AllTracked(pkgs, before, loc, ids, done)
    ensures done' == done + set q | 0 <= q < |pkgs| && SegmentName(pkgs[q].iden) == name
    ensures n' + Left(pkgs, |pkgs|, done') == total
    ensures Ledger(before + [segment], loc', first, n', generator') && AllTracked(pkgs, before + [segment], loc', ids', done')
    ensures segment.iden == group[0].iden && SegmentName(segment.iden) == name
    ensures |segment.messages| == MessagesNamed(pkgs, |pkgs|, name)
  {
    hide Ledger, AllTracked, SegmentName, Left, Target, Leader, DistinctPkgIds, MessagesNamed, IsGroup, ToSet, Base;
    GroupEnds(pkgs, name, group, idx);
    var iden := group[0].iden;
    var messages: seq<ReqMessage> := [];
    generator', ids', loc', done', n' := generator, ids, loc, done, n;
    OpenSegment(pkgs, before, iden, loc, ids, done, first, n, generator);
    for j := 0 to |group|
      invariant done' == done + ToSet(idx[..j])
      invariant n' + Left(pkgs, |pkgs|, done') == total
      invariant Ledger(before + [SegReq(iden, messages)], loc', first, n', generator')
      invariant AllTracked(pkgs, before + [SegReq(iden, messages)], loc', ids', done')
      invariant |messages| == TotalOf(group[..j])
    {
      assert group[..j + 1][..j] == group[..j];
      ghost var q := idx[j];
      GroupAt(pkgs, name, group, idx, done, j);
      GroupFront(pkgs, name, group, idx, j);
      LeftWithout(pkgs, |pkgs|, done', q);
      generator', messages, ids', loc' :=
        AddPackage(pkgs, q, done', before, group[j], iden, generator', messages, ids', loc', first, n');
      n' := n' + |group[j].data|;
      done' := done' + {q};
    }
    assert group[..|group|] == group && idx[..|group|] == idx;
    segment := SegReq(iden, messages);
  }

  /** An empty part at the end of a request changes nothing. */
  lemma OpenSegment(pkgs: seq<Pkg>, w: seq<SegReq>, iden: Iden, loc: Places, ids: map<nat, seq<nat>>, done: set<nat>, first: nat, n: nat, generator: nat)
    requires Ledger(w, loc, first, n, generator) && AllTracked(pkgs, w, loc, ids, done)
    ensures Ledger(w + [SegReq(iden, [])], loc, first, n, generator) && AllTracked(pkgs, w + [SegReq(iden, [])], loc, ids, done)
  {
    hide Target, Leader, WrapAdd, HandedOut, SegmentName, HasOwner, Unshared;
  }

  ghost predicate Wanted(pkgs: seq<Pkg>, s: Iden) { exists q :: 0 <= q < |pkgs| && Target(pkgs, q) == s }

  ghost predicate HasPart(w: seq<SegReq>, s: Iden) { exists i :: 0 <= i < |w| && w[i].iden == s }

  /** The request has one part for every segment some package goes to, with all its messages. */
  ghost predicate Routed(pkgs: seq<Pkg>, w: seq<SegReq>)
  {
    && (forall i :: 0 <= i < |w| ==> |w[i].messages| == MessagesNamed(pkgs, |pkgs|, SegmentName(w[i].iden)) && Wanted(pkgs, w[i].iden))
    && (forall q :: 0 <= q < |pkgs| ==> HasPart(w, Target(pkgs, q)))
  }

  lemma RoutedAll(pkgs: seq<Pkg>, groups: map<string, seq<Pkg>>, idx: map<string, seq<nat>>, w: seq<SegReq>)
    requires groups.Keys == idx.Keys
    requires forall name :: name in groups ==> groups[name] != [] && IsGroup(pkgs, |pkgs|, name, groups[name], idx[name])
    requires forall q :: 0 <= q < |pkgs| ==> SegmentName(pkgs[q].iden) in groups
    requires forall i :: 0 <= i < |w| ==> IsPart(pkgs, groups, w[i])
    requires forall name :: name in groups ==> exists i :: 0 <= i < |w| && SegmentName(w[i].iden) == name
    ensures Routed(pkgs, w)
  {
    hide SegmentName, Target, IsGroup;
    forall i | 0 <= i < |w| ensures |w[i].messages| == MessagesNamed(pkgs, |pkgs|, SegmentName(w[i].iden)) && Wanted(pkgs, w[i].iden) {
      assert IsPart(pkgs, groups, w[i]);
      var name := SegmentName(w[i].iden);
      var q := FirstOf(pkgs, name, groups[name], idx[name]);
    }
    forall q | 0 <= q < |pkgs| ensures HasPart(w, Target(pkgs, q)) {
      var name := SegmentName(pkgs[q].iden);
      var i :| 0 <= i < |w| && SegmentName(w[i].iden) == name;
      InGroup(pkgs, name, groups[name], idx[name], q);
      assert IsPart(pkgs, groups, w[i]);
    }
  }

  lemma FirstOf(pkgs: seq<Pkg>, name: string, group: seq<Pkg>, idx: seq<nat>) returns (q: nat)
    requires IsGroup(pkgs, |pkgs|, name, group, idx) && group != []
    ensures q < |pkgs| && Target(pkgs, q) == group[0].iden
  {
    hide SegmentName, MessagesNamed, TotalOf;
    q := idx[0];
    GroupTarget(pkgs, name, group, idx, 0);
  }

  lemma InGroup(pkgs: seq<Pkg>, name: string, group: seq<Pkg>, idx: seq<nat>, q: nat)
    requires IsGroup(pkgs, |pkgs|, name, group, idx) && q < |pkgs| && SegmentName(pkgs[q].iden) == name && group != []
    ensures Target(pkgs, q) == group[0].iden
  {
    hide SegmentName, MessagesNamed, TotalOf;
    assert q in idx;
    var j :| 0 <= j < |idx| && idx[j] == q;
    GroupTarget(pkgs, name, group, idx, j);
  }

  /** A part of the request is that of its name's group. */
  ghost predicate IsPart(pkgs: seq<Pkg>, groups: map<string, seq<Pkg>>, part: SegReq)
  {
    var name := SegmentName(part.iden);
    && name in groups && groups[name] != [] && part.iden == groups[name][0].iden
    && |part.messages| == MessagesNamed(pkgs, |pkgs|, name)
  }

  lemma MakesPart(pkgs: seq<Pkg>, groups: map<string, seq<Pkg>>, part: SegReq)
    requires SegmentName(part.iden) in groups && groups[SegmentName(part.iden)] != []
    requires part.iden == groups[SegmentName(part.iden)][0].iden
    requires |part.messages| == MessagesNamed(pkgs, |pkgs|, SegmentName(part.iden))
    ensures IsPart(pkgs, groups, part)
  {}

  /** `build_send_data`: groups the packages by segment and numbers every message, taking the groups in
      whatever order the hash map yields them. */
  method BuildSendData(generator: u64, pkgs: seq<Pkg>)
      returns (generator': u64, segments: seq<SegReq>, ids: map<nat, seq<nat>>, ghost loc: Places)
    requires DistinctPkgIds(pkgs) && Left(pkgs, |pkgs|, {}) <= TWO_64
    ensures Built(pkgs, segments, loc, ids) && generator' == WrapAdd(generator, Left(pkgs, |pkgs|, {}))
    ensures Routed(pkgs, segments) && HandedOut(loc, generator, Left(pkgs, |pkgs|, {}))
  {
    hide Ledger, AllTracked, SegmentName, Left, Leader, IsGroup, DoneIn, Built, DistinctPkgIds, MessagesNamed, Routed, IsPart, Target, HandedOut, WrapAdd;
    var groups;
    ghost var idx;
    groups, idx := GroupBySegment(pkgs);
    generator', segments, ids, loc := generator, [], map[], map[];
    var left := groups.Keys;
    ghost var done: set<nat>, n: nat := {}, 0;
    NothingYet(pkgs, generator);
    assert groups.Keys - left == {};
    while left != {}
      invariant left <= groups.Keys
      invariant done == DoneIn(pkgs, groups.Keys - left)
      invariant n + Left(pkgs, |pkgs|, done) == Left(pkgs, |pkgs|, {})
      invariant Ledger(segments, loc, generator, n, generator') && AllTracked(pkgs, segments, loc, ids, done)
      invariant forall i :: 0 <= i < |segments| ==> SegmentName(segments[i].iden) in groups.Keys - left
      invariant forall i, j :: 0 <= i < j < |segments| ==> SegmentName(segments[i].iden) != SegmentName(segments[j].iden)
      invariant forall i :: 0 <= i < |segments| ==> IsPart(pkgs, groups, segments[i])
      invariant forall name :: name in groups.Keys - left ==> exists i :: 0 <= i < |segments| && SegmentName(segments[i].iden) == name
      decreases left
    {
      var name :| name in left;
      var segment;
      NameDone(pkgs, groups.Keys - left, name);
      generator', segment, ids, loc, done, n :=
        AddSegment(pkgs, done, segments, name, groups[name], idx[name], generator', ids, loc, generator, n, Left(pkgs, |pkgs|, {}));
      assert IsPart(pkgs, groups, segment) by { MakesPart(pkgs, groups, segment); }
      ghost var before := segments;
      segments := segments + [segment];
      PartAdded(groups.Keys - left, before, segment, name);
      assert groups.Keys - (left - {name}) == groups.Keys - left + {name};
      left := left - {name};
    }
    assert groups.Keys - left == groups.Keys;
    AllDone(pkgs, groups.Keys, segments, loc, ids, generator, n, generator');
    RoutedAll(pkgs, groups, idx, segments);
  }

  lemma PartAdded(names: set<string>, w: seq<SegReq>, part: SegReq, name: string)
    requires SegmentName(part.iden) == name
    requires forall x :: x in names ==> exists i :: 0 <= i < |w| && SegmentName(w[i].iden) == x
    ensures forall x :: x in names + {name} ==> exists i :: 0 <= i < |w + [part]| && SegmentName((w + [part])[i].iden) == x
  {
    hide SegmentName;
    forall x | x in names + {name} ensures exists i :: 0 <= i < |w + [part]| && SegmentName((w + [part])[i].iden) == x {
      if x in names {
        var i :| 0 <= i < |w| && SegmentName(w[i].iden) == x;
        assert (w + [part])[i] == w[i];
      } else {
        assert (w + [part])[|w|] == part;
      }
    }
  }

  lemma NothingYet(pkgs: seq<Pkg>, generator: nat)
    requires generator < TWO_64
    ensures Ledger([], map[], generator, 0, generator) && AllTracked(pkgs, [], map[], map[], {})
    ensures DoneIn(pkgs, {}) == {}
  {}

  lemma NameDone(pkgs: seq<Pkg>, names: set<string>, name: string)
    requires name !in names
    ensures forall q :: q in DoneIn(pkgs, names) ==> 0 <= q < |pkgs| && SegmentName(pkgs[q].iden) != name
    ensures DoneIn(pkgs, names + {name}) == DoneIn(pkgs, names) + set q | 0 <= q < |pkgs| && SegmentName(pkgs[q].iden) == name
  {}

  lemma {:induction false} NoneLeft(pkgs: seq<Pkg>, n: nat, done: set<nat>)
    requires n <= |pkgs| && forall q :: 0 <= q < |pkgs| ==> q in done
    ensures Left(pkgs, n, done) == 0
  {
    if n > 0 { NoneLeft(pkgs, n - 1, done); }
  }

  lemma AllDone(pkgs: seq<Pkg>, names: set<string>, w: seq<SegReq>, loc: Places, ids: map<nat, seq<nat>>, first: nat, n: nat, generator: nat)
    requires forall q :: 0 <= q < |pkgs| ==> SegmentName(pkgs[q].iden) in names
    requires Ledger(w, loc, first, n, generator) && AllTracked(pkgs, w, loc, ids, DoneIn(pkgs, names))
    requires forall i, j :: 0 <= i < j < |w| ==> SegmentName(w[i].iden) != SegmentName(w[j].iden)
    ensures Built(pkgs, w, loc, ids) && generator == WrapAdd(first, n) && Left(pkgs, |pkgs|, DoneIn(pkgs, names)) == 0
    ensures HandedOut(loc, first, n)
  {
    hide SegmentName, Tracks, Owned, Unshared, WrapAdd, HandedOut, Consistent, Target, Left;
    assert forall q :: 0 <= q < |pkgs| ==> q in DoneIn(pkgs, names);
    NoneLeft(pkgs, |pkgs|, DoneIn(pkgs, names));
    forall q | 0 <= q < |pkgs| ensures Tracks(w, loc, ids, pkgs[q], |pkgs[q].data|, Target(pkgs, q), Base(pkgs, q)) {
      assert q in DoneIn(pkgs, names);
    }
  }
}
