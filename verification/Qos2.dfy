/** The QoS 2 receiver: PUBLISH, PUBREC, PUBREL, PUBCOMP (section 4.3.3 of MQTT Version 5.0). */
module Qos2 {
  import opened Strings
  import opened Decimal

  datatype QoS = AtMostOnce | AtLeastOnce | ExactlyOnce

  /** What becomes of a remote change: it is made, it is not, or it is made and an error comes back. */
  datatype Remote = Done | Refused | Unseen

  /** The outcome of everything outside the handshake: `lookup`, `notes` and `clears` are the remote
      calls of the persistent mode, `valid` the rest of the validator, `checks` what is looked up after it,
      `saves` the message store. */
  datatype Packet =
    | Publish(client: string, pkid: nat, qos: QoS, lookup: bool, valid: bool, checks: bool, saves: bool, notes: Remote)
    | PubRel(client: string, pkid: nat, lookup: bool, clears: Remote)

  datatype Response = PubRecOk | PubRecFail | PubAck | PubAckFail | Silent | PubCompOk | PubCompFail

  /** `cache` is the broker's own table, keyed by text; `center` the placement center's. */
  datatype Broker = Broker(persistent: bool, cache: set<string>, center: set<(string, nat)>, stored: seq<(string, nat, QoS)>)

  function PkidKey(client: string, pkid: nat): string { client + "_" + Dec(pkid) }

  lemma PkidKeyText(client: string)
    ensures PkidKey(client, 42) == client + "_42"
  {
    assert Dec(4) == "4" && Dec(42) == "42";
    assert client + "_" + "42" == client + "_42";
  }

  /** Client ids may contain underscores and digits: the table key still tells pairs apart. */
  lemma PkidKeyInjective(c: string, p: nat, c': string, p': nat)
    requires PkidKey(c, p) == PkidKey(c', p')
    ensures c == c' && p == p'
  {
    DecFree(p, '_');
    DecFree(p', '_');
    SplitLast(c, Dec(p), c', Dec(p'), '_');
    DecInjective(p, p');
  }

  predicate Recorded(b: Broker, client: string, pkid: nat)
  {
    if b.persistent then (client, pkid) in b.center else PkidKey(client, pkid) in b.cache
  }

  function Record(b: Broker, client: string, pkid: nat): Broker
  {
    if b.persistent then b.(center := b.center + {(client, pkid)}) else b.(cache := b.cache + {PkidKey(client, pkid)})
  }

  function Forget(b: Broker, client: string, pkid: nat): Broker
  {
    if b.persistent then b.(center := b.center - {(client, pkid)}) else b.(cache := b.cache - {PkidKey(client, pkid)})
  }

  function PublishStep(b: Broker, e: Packet): (Broker, Response)
    requires e.Publish?
  {
    var fail := if e.qos.ExactlyOnce? then PubRecFail else PubAckFail;
    if e.qos.ExactlyOnce? && b.persistent && !e.lookup then (b, fail)
    else if e.qos.ExactlyOnce? && Recorded(b, e.client, e.pkid) then (b, fail)
    else if !e.valid then (b, if e.qos.AtMostOnce? then Silent else fail)
    else if !e.checks || !e.saves then (b, fail)
    else
      var saved := b.(stored := b.stored + [(e.client, e.pkid, e.qos)]);
      match e.qos
      case AtMostOnce => (saved, Silent)
      case AtLeastOnce => (saved, PubAck)
      case ExactlyOnce =>
        if b.persistent && e.notes.Refused? then (saved, fail)
        else (Record(saved, e.client, e.pkid), if b.persistent && e.notes.Unseen? then fail else PubRecOk)
  }

  function PubRelStep(b: Broker, e: Packet): (Broker, Response)
    requires e.PubRel?
  {
    if b.persistent && !e.lookup then (b, PubCompFail)
    else if !Recorded(b, e.client, e.pkid) then (b, PubCompFail)
    else if b.persistent && e.clears.Refused? then (b, PubCompFail)
    else (Forget(b, e.client, e.pkid), if b.persistent && e.clears.Unseen? then PubCompFail else PubCompOk)
  }

  function Handle(b: Broker, e: Packet): (Broker, Response)
  {
    if e.Publish? then PublishStep(b, e) else PubRelStep(b, e)
  }

  /** The state before packet `i` of a run that starts with nothing recorded or stored. */
  function After(persistent: bool, es: seq<Packet>, i: nat): Broker
    requires i <= |es|
  {
    if i == 0 then Broker(persistent, {}, {}, []) else Handle(After(persistent, es, i - 1), es[i - 1]).0
  }

  function ResponseTo(persistent: bool, es: seq<Packet>, i: nat): Response
    requires i < |es|
  {
    Handle(After(persistent, es, i), es[i]).1
  }

  predicate About(e: Packet, client: string, pkid: nat)
  {
    e.client == client && e.pkid == pkid && (e.Publish? ==> e.qos.ExactlyOnce?)
  }

  /** How many of the first `n` packets about a pair were answered `r`. */
  function Count(persistent: bool, es: seq<Packet>, n: nat, client: string, pkid: nat, r: Response): nat
    requires n <= |es|
  {
    if n == 0 then 0
    else
      Count(persistent, es, n - 1, client, pkid, r) +
      (if About(es[n - 1], client, pkid) && ResponseTo(persistent, es, n - 1) == r then 1 else 0)
  }

  /** How many QoS 2 messages of a pair are stored. */
  function CountStored(s: seq<(string, nat, QoS)>, client: string, pkid: nat): nat
  {
    if s == [] then 0
    else CountStored(s[..|s| - 1], client, pkid) + if s[|s| - 1] == (client, pkid, ExactlyOnce) then 1 else 0
  }

  /** What can happen without the sender being told: a message is stored, its packet id is noted, or it is
      cleared, and the answer is a failure. */
  datatype Untold = Stored | Noted | Cleared

  predicate Happens(u: Untold, b: Broker, e: Packet)
  {
    match u
    case Stored => StoredUntold(b, e)
    case Noted => StoredUntold(b, e) && e.notes.Unseen?
    case Cleared => e.PubRel? && b.persistent && e.lookup && Recorded(b, e.client, e.pkid) && e.clears.Unseen?
  }

  predicate StoredUntold(b: Broker, e: Packet)
  {
    && e.Publish? && e.qos.ExactlyOnce? && b.persistent && !e.notes.Done?
    && e.lookup && !Recorded(b, e.client, e.pkid) && e.valid && e.checks && e.saves
  }

  function CountUntold(u: Untold, persistent: bool, es: seq<Packet>, n: nat, client: string, pkid: nat): nat
    requires n <= |es|
  {
    if n == 0 then 0
    else
      CountUntold(u, persistent, es, n - 1, client, pkid) +
      (if Happens(u, After(persistent, es, n - 1), es[n - 1]) && About(es[n - 1], client, pkid) then 1 else 0)
  }

  /** When the broker keeps its own table, the sender is told everything. */
  lemma {:induction false} AllTold(u: Untold, es: seq<Packet>, n: nat, client: string, pkid: nat)
    requires n <= |es|
    ensures CountUntold(u, false, es, n, client, pkid) == 0
  {
    hide Handle, About, Recorded;
    if n > 0 {
      AllTold(u, es, n - 1, client, pkid);
      ModeStays(false, es, n - 1);
    }
  }

  lemma {:induction false} ModeStays(persistent: bool, es: seq<Packet>, i: nat)
    requires i <= |es|
    ensures After(persistent, es, i).persistent == persistent
  {
    if i > 0 { ModeStays(persistent, es, i - 1); }
  }

  /** Only the pair a packet is about can be recorded or forgotten by it. */
  lemma OthersUntouched(b: Broker, e: Packet, client: string, pkid: nat)
    requires !About(e, client, pkid)
    ensures Recorded(Handle(b, e).0, client, pkid) == Recorded(b, client, pkid)
  {
    if PkidKey(client, pkid) == PkidKey(e.client, e.pkid) { PkidKeyInjective(client, pkid, e.client, e.pkid); }
  }

  /** The packet id of a pair is taken, or given back. */
  predicate Opens(b: Broker, e: Packet) { Handle(b, e).1 == PubRecOk || Happens(Noted, b, e) }
  predicate Closes(b: Broker, e: Packet) { Handle(b, e).1 == PubCompOk || Happens(Cleared, b, e) }

  /** What one packet does to the record of a pair. */
  lemma RecordStep(b: Broker, e: Packet, client: string, pkid: nat)
    ensures
      var b' := Handle(b, e).0;
      && (About(e, client, pkid) && Opens(b, e) ==> !Recorded(b, client, pkid) && Recorded(b', client, pkid) && !Closes(b, e))
      && (About(e, client, pkid) && Closes(b, e) ==> Recorded(b, client, pkid) && !Recorded(b', client, pkid))
      && (!About(e, client, pkid) || (!Opens(b, e) && !Closes(b, e)) ==> Recorded(b', client, pkid) == Recorded(b, client, pkid))
      && !(Handle(b, e).1 == PubRecOk && Happens(Noted, b, e)) && !(Handle(b, e).1 == PubCompOk && Happens(Cleared, b, e))
  {
    hide PkidKey;
    if !About(e, client, pkid) { OthersUntouched(b, e, client, pkid); }
  }

  /** What one packet adds to the stored messages of a pair. */
  lemma StoreStep(b: Broker, e: Packet, client: string, pkid: nat)
    ensures
      var (b', r) := Handle(b, e);
      CountStored(b'.stored, client, pkid) == CountStored(b.stored, client, pkid) +
        (if About(e, client, pkid) && r == PubRecOk then 1 else 0) +
        (if About(e, client, pkid) && Happens(Stored, b, e) then 1 else 0)
    ensures About(e, client, pkid) && (Handle(b, e).1 == PubRecOk || Happens(Stored, b, e)) ==> !Recorded(b, client, pkid)
  {
    hide PkidKey, CountStored;
    if e.Publish? { CountStoredSnoc(b.stored, (e.client, e.pkid, e.qos), client, pkid); }
  }

  /** Over every sequence of packets from any clients, for each pair the successful PUBRECs and the ids noted
      untold are the successful PUBCOMPs and the ids cleared untold, plus one while the packet id is
      recorded.  When the broker keeps its own table, nothing is untold. */
  lemma {:induction false} Conservation(persistent: bool, es: seq<Packet>, n: nat, client: string, pkid: nat)
    requires n <= |es|
    ensures Count(persistent, es, n, client, pkid, PubRecOk) + CountUntold(Noted, persistent, es, n, client, pkid) ==
      Count(persistent, es, n, client, pkid, PubCompOk) + CountUntold(Cleared, persistent, es, n, client, pkid) +
      if Recorded(After(persistent, es, n), client, pkid) then 1 else 0
    ensures !persistent ==>
      Count(persistent, es, n, client, pkid, PubRecOk) ==
      Count(persistent, es, n, client, pkid, PubCompOk) + if Recorded(After(persistent, es, n), client, pkid) then 1 else 0
  {
    hide Handle, About, Recorded, Happens;
    if n > 0 {
      Conservation(persistent, es, n - 1, client, pkid);
      RecordStep(After(persistent, es, n - 1), es[n - 1], client, pkid);
    } else {
      NoneRecorded(persistent, client, pkid);
    }
    if !persistent {
      AllTold(Noted, es, n, client, pkid);
      AllTold(Cleared, es, n, client, pkid);
    }
  }

  lemma NoneRecorded(persistent: bool, client: string, pkid: nat)
    ensures !Recorded(Broker(persistent, {}, {}, []), client, pkid)
  {}

  lemma CountStoredSnoc(s: seq<(string, nat, QoS)>, x: (string, nat, QoS), client: string, pkid: nat)
    ensures CountStored(s + [x], client, pkid) == CountStored(s, client, pkid) + if x == (client, pkid, ExactlyOnce) then 1 else 0
  {
    assert (s + [x])[..|s|] == s;
  }

  /** The stored messages of a pair are its successful PUBRECs plus the messages stored untold, and of the
      latter there are none when the broker keeps its own table. */
  lemma {:induction false} StoredOncePerPubRec(persistent: bool, es: seq<Packet>, n: nat, client: string, pkid: nat)
    requires n <= |es|
    ensures CountStored(After(persistent, es, n).stored, client, pkid) ==
      Count(persistent, es, n, client, pkid, PubRecOk) + CountUntold(Stored, persistent, es, n, client, pkid)
    ensures !persistent ==> CountStored(After(persistent, es, n).stored, client, pkid) == Count(persistent, es, n, client, pkid, PubRecOk)
  {
    hide Handle, About, Recorded, CountStored, Happens;
    if n > 0 {
      StoredOncePerPubRec(persistent, es, n - 1, client, pkid);
      StoreStep(After(persistent, es, n - 1), es[n - 1], client, pkid);
    } else {
      NoneStored(client, pkid);
    }
    if !persistent { AllTold(Stored, es, n, client, pkid); }
  }

  lemma NoneStored(client: string, pkid: nat)
    ensures CountStored([], client, pkid) == 0
  {}

  /** From the moment its packet id is taken, by a successful PUBREC or untold, until it is given back, by a
      successful PUBREL or untold, nothing more is stored for a pair. */
  lemma {:induction false} NothingStoredMeanwhile(persistent: bool, es: seq<Packet>, i: nat, j: nat, client: string, pkid: nat)
    requires i < j <= |es| && About(es[i], client, pkid) && Opens(After(persistent, es, i), es[i])
    requires forall k :: i < k < j ==> !(About(es[k], client, pkid) && Closes(After(persistent, es, k), es[k]))
    ensures Recorded(After(persistent, es, j), client, pkid)
    ensures CountStored(After(persistent, es, j).stored, client, pkid) == CountStored(After(persistent, es, i + 1).stored, client, pkid)
    decreases j
  {
    hide Handle, About, Recorded, CountStored, Opens, Closes, Happens;
    RecordStep(After(persistent, es, j - 1), es[j - 1], client, pkid);
    if i + 1 < j {
      NothingStoredMeanwhile(persistent, es, i, j - 1, client, pkid);
      StoreStep(After(persistent, es, j - 1), es[j - 1], client, pkid);
    }
  }

  /** A whole handshake in non-persistent mode, from any state in which the id is free: the message is taken and
      stored once, a second publish of it is refused, the release succeeds once, and then the id is free
      again and nothing else has changed. */
  lemma Handshake(b: Broker, client: string, pkid: nat)
    requires !b.persistent && PkidKey(client, pkid) !in b.cache
    ensures
      var publish := Publish(client, pkid, ExactlyOnce, true, true, true, true, Done);
      var release := PubRel(client, pkid, true, Done);
      var (b1, r1) := Handle(b, publish);
      var (b2, r2) := Handle(b1, publish);
      var (b3, r3) := Handle(b2, release);
      var (b4, r4) := Handle(b3, release);
      && r1 == PubRecOk && r2 == PubRecFail && r3 == PubCompOk && r4 == PubCompFail
      && b1.stored == b.stored + [(client, pkid, ExactlyOnce)] && b2 == b1 && b4 == b3 && b3 == b.(stored := b1.stored)
  {
    hide PkidKey;
    assert b.cache + {PkidKey(client, pkid)} - {PkidKey(client, pkid)} == b.cache;
  }

  /** With the table at the placement center this is not exactly-once: when noting the packet id fails,
      the message is stored and the sender, told it failed, sends it again. */
  lemma RetryAfterFailedNote(client: string, pkid: nat)
    ensures
      var es := [Publish(client, pkid, ExactlyOnce, true, true, true, true, Refused), Publish(client, pkid, ExactlyOnce, true, true, true, true, Done)];
      && ResponseTo(true, es, 0) == PubRecFail && ResponseTo(true, es, 1) == PubRecOk
      && CountStored(After(true, es, 2).stored, client, pkid) == 2
  {
    var es := [Publish(client, pkid, ExactlyOnce, true, true, true, true, Refused), Publish(client, pkid, ExactlyOnce, true, true, true, true, Done)];
    var x := (client, pkid, ExactlyOnce);
    assert After(true, es, 1).stored == [] + [x];
    assert After(true, es, 2).stored == [] + [x] + [x];
    CountStoredSnoc([], x, client, pkid);
    CountStoredSnoc([] + [x], x, client, pkid);
  }

  /** The broker's handlers and tables. */
  class Handler {
    const persistent: bool
    var clientPkidData: set<string>
    var center: set<(string, nat)>
    var stored: seq<(string, nat, QoS)>

    function Abs(): Broker
      reads this
    { Broker(persistent, clientPkidData, center, stored) }

    constructor (persistent: bool)
      ensures Abs() == Broker(persistent, {}, {}, [])
    {
      this.persistent := persistent;
      clientPkidData, center, stored := {}, {}, [];
    }

    method PkidExists(client: string, pkid: nat, lookup: bool) returns (ok: bool, exists': bool)
      ensures ok == (!persistent || lookup)
      ensures ok ==> exists' == Recorded(Abs(), client, pkid)
      ensures ok ==> exists' == if persistent then (client, pkid) in center else PkidKey(client, pkid) in clientPkidData
    {
      if persistent {
        ok, exists' := lookup, (client, pkid) in center;
      } else {
        ok, exists' := true, PkidKey(client, pkid) in clientPkidData;
      }
    }

    method PkidSave(client: string, pkid: nat, notes: Remote) returns (ok: bool)
      modifies this
      ensures ok == (!persistent || notes.Done?)
      ensures Abs() == if !persistent || !notes.Refused? then Record(old(Abs()), client, pkid) else old(Abs())
      ensures stored == old(stored)
      ensures clientPkidData == old(clientPkidData) + if persistent then {} else {PkidKey(client, pkid)}
      ensures center == old(center) + if persistent && notes != Refused then {(client, pkid)} else {}
    {
      if persistent {
        if !notes.Refused? { center := center + {(client, pkid)}; }
        return notes.Done?;
      }
      clientPkidData := clientPkidData + {PkidKey(client, pkid)};
      ok := true;
    }

    method PkidDelete(client: string, pkid: nat, clears: Remote) returns (ok: bool)
      modifies this
      ensures ok == (!persistent || clears.Done?)
      ensures Abs() == if !persistent || !clears.Refused? then Forget(old(Abs()), client, pkid) else old(Abs())
      ensures stored == old(stored)
      ensures clientPkidData == old(clientPkidData) - if persistent then {} else {PkidKey(client, pkid)}
      ensures center == old(center) - if persistent && clears != Refused then {(client, pkid)} else {}
    {
      if persistent {
        if !clears.Refused? { center := center - {(client, pkid)}; }
        return clears.Done?;
      }
      clientPkidData := clientPkidData - {PkidKey(client, pkid)};
      ok := true;
    }

    method HandlePublish(e: Packet) returns (r: Response)
      requires e.Publish?
      modifies this
      ensures (Abs(), r) == Handle(old(Abs()), e)
      // A message is stored exactly when the packet passes and, for QoS 2, its id is free.
      ensures
        var passes := e.valid && e.checks && e.saves;
        var free := if persistent then e.lookup && (e.client, e.pkid) !in old(center) else PkidKey(e.client, e.pkid) !in old(clientPkidData);
        stored == if passes && (e.qos == ExactlyOnce ==> free) then old(stored) + [(e.client, e.pkid, e.qos)] else old(stored)
      // QoS 0 and QoS 1.
      ensures e.qos != ExactlyOnce ==> clientPkidData == old(clientPkidData) && center == old(center)
      ensures e.qos == AtMostOnce ==> r == if e.valid && !(e.checks && e.saves) then PubAckFail else Silent
      ensures e.qos == AtLeastOnce ==> r == if e.valid && e.checks && e.saves then PubAck else PubAckFail
      // QoS 2 with the broker's own table.
      ensures e.qos == ExactlyOnce && !persistent ==>
        var key := PkidKey(e.client, e.pkid);
        var taken := e.valid && e.checks && e.saves && key !in old(clientPkidData);
        && r == (if taken then PubRecOk else PubRecFail) && center == old(center)
        && clientPkidData == (if taken then old(clientPkidData) + {key} else old(clientPkidData))
      // QoS 2 with the table of the placement center.
      ensures e.qos == ExactlyOnce && persistent ==>
        var pair := (e.client, e.pkid);
        var taken := e.lookup && e.valid && e.checks && e.saves && pair !in old(center);
        && r == (if taken && e.notes == Done then PubRecOk else PubRecFail) && clientPkidData == old(clientPkidData)
        && center == (if taken && e.notes != Refused then old(center) + {pair} else old(center))
    {
      var fail := if e.qos.ExactlyOnce? then PubRecFail else PubAckFail;
      if e.qos == ExactlyOnce {
        var ok, inUse := PkidExists(e.client, e.pkid, e.lookup);
        if !ok || inUse {
          return fail;
        }
      }
      if !e.valid {
        return if e.qos == AtMostOnce then Silent else fail;
      }
      if !e.checks || !e.saves {
        return fail;
      }
      stored := stored + [(e.client, e.pkid, e.qos)];
      match e.qos {
        case AtMostOnce => r := Silent;
        case AtLeastOnce => r := PubAck;
        case ExactlyOnce =>
          var ok := PkidSave(e.client, e.pkid, e.notes);
          r := if ok then PubRecOk else fail;
      }
    }

    method HandlePubRel(e: Packet) returns (r: Response)
      requires e.PubRel?
      modifies this
      ensures (Abs(), r) == Handle(old(Abs()), e)
      ensures stored == old(stored)
      ensures !persistent ==>
        var key := PkidKey(e.client, e.pkid);
        && r == (if key in old(clientPkidData) then PubCompOk else PubCompFail)
        && clientPkidData == old(clientPkidData) - {key} && center == old(center)
      ensures persistent ==>
        var pair := (e.client, e.pkid);
        var there := e.lookup && pair in old(center);
        && r == (if there && e.clears == Done then PubCompOk else PubCompFail) && clientPkidData == old(clientPkidData)
        && center == (if there && e.clears != Refused then old(center) - {pair} else old(center))
    {
      var ok, found := PkidExists(e.client, e.pkid, e.lookup);
      if !ok || !found {
        return PubCompFail;
      }
      ok := PkidDelete(e.client, e.pkid, e.clears);
      r := if ok then PubCompOk else PubCompFail;
    }
  }
}
