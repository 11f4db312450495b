/** Delayed publishes: topics of the form "$delayed/<seconds>/<topic>". */
module DelayTopic {
  import opened Strings
  import opened Decimal

  const PREFIX := "$delayed"

  predicate IsDelayMessage(topic: string) { PREFIX <= topic }

  /** `split("/")`: the pieces between separators; there is always at least one. */
  function Split(s: string, c: char): (r: seq<string>)
    ensures r != []
  {
    if s == [] then [[]]
    else
      var rest := Split(s[1..], c);
      if s[0] == c then [[]] + rest else [[s[0]] + rest[0]] + rest[1..]
  }

  function Join(parts: seq<string>, c: char): string
    requires parts != []
  {
    if |parts| == 1 then parts[0] else parts[0] + [c] + Join(parts[1..], c)
  }

  /** Joining undoes splitting. */
  lemma {:induction false} JoinOfSplit(s: string, c: char)
    ensures Join(Split(s, c), c) == s
  {
    if s != [] {
      JoinOfSplit(s[1..], c);
      var rest := Split(s[1..], c);
      if s[0] == c {
        assert ([[]] + rest)[1..] == rest;
        assert [] + [c] + s[1..] == s;
      } else {
        var parts := [[s[0]] + rest[0]] + rest[1..];
        assert parts[1..] == rest[1..];
        if |rest| > 1 { assert [s[0]] + rest[0] + [c] + Join(rest[1..], c) == [s[0]] + (rest[0] + [c] + Join(rest[1..], c)); }
        assert [s[0]] + s[1..] == s;
      }
    }
  }

  /** The first piece is what stands before the first separator. */
  lemma {:induction false} SplitAtFirst(a: string, x: string, c: char)
    requires Free(a, c)
    ensures Split(a + [c] + x, c) == [a] + Split(x, c)
  {
    var s := a + [c] + x;
    if a == [] {
      assert s[1..] == x;
    } else {
      assert a[1..] + [c] + x == s[1..];
      SplitAtFirst(a[1..], x, c);
      assert ([a[1..]] + Split(x, c))[1..] == Split(x, c);
      assert [a[0]] + a[1..] == a;
    }
  }

  /** Pieces contain no separator, and a string without one is a single piece. */
  lemma {:induction false} PiecesFree(s: string, c: char)
    ensures forall i :: 0 <= i < |Split(s, c)| ==> Free(Split(s, c)[i], c)
    ensures |Split(s, c)| == 1 <==> Free(s, c)
  {
    if s != [] {
      PiecesFree(s[1..], c);
      var rest := Split(s[1..], c);
      assert s[0] != c && Free(s[1..], c) ==> Free(s, c);
      assert Free(s, c) ==> Free(s[1..], c) by {
        if Free(s, c) { assert forall i :: 0 <= i < |s[1..]| ==> s[1..][i] == s[i + 1]; }
      }
    }
  }

  datatype Decoded = NotDelayed | BadDelay | Delayed(topic: string, delay: nat)

  /** `decode_delay_topic`: the second piece is the delay, what follows it the topic. */
  method DecodeDelayTopic(topic: string) returns (r: Decoded)
    ensures r == Decode(topic)
  {
    if !IsDelayMessage(topic) {
      return NotDelayed;
    }
    var slice := Split(topic, '/');
    if |slice| < 3 {
      return NotDelayed;
    }
    var delay := ParseU64(slice[1]);
    if delay.Malformed? {
      return BadDelay;
    }
    ghost var all := slice;
    slice := slice[1..];
    slice := slice[1..];
    assert slice == all[2..];
    r := Delayed("/" + Join(slice, '/'), delay.n);
  }

  function Decode(topic: string): Decoded
  {
    var slice := Split(topic, '/');
    if !IsDelayMessage(topic) || |slice| < 3 then NotDelayed
    else match ParseU64(slice[1])
      case Malformed => BadDelay
      case Number(n) => Delayed("/" + Join(slice[2..], '/'), n)
  }

  /** A topic written as front, delay and rest. */
  predicate Written(topic: string, front: string, delay: string, rest: string)
  {
    && topic == front + "/" + (delay + "/" + rest)
    && Free(front, '/') && Free(delay, '/') && PREFIX <= front
  }

  lemma SplitWritten(topic: string, front: string, delay: string, rest: string)
    requires Written(topic, front, delay, rest)
    ensures
      var slice := Split(topic, '/');
      && |slice| >= 3 && slice[0] == front && slice[1] == delay && Join(slice[2..], '/') == rest
  {
    SplitAtFirst(front, delay + "/" + rest, '/');
    SplitAtFirst(delay, rest, '/');
    var slice := Split(topic, '/');
    assert slice == [front] + ([delay] + Split(rest, '/'));
    assert slice[2..] == Split(rest, '/');
    JoinOfSplit(rest, '/');
  }

  lemma WrittenOfSplit(topic: string)
    requires IsDelayMessage(topic) && |Split(topic, '/')| >= 3
    ensures
      var slice := Split(topic, '/');
      Written(topic, slice[0], slice[1], Join(slice[2..], '/'))
  {
    var slice := Split(topic, '/');
    JoinOfSplit(topic, '/');
    PiecesFree(topic, '/');
    var tail := slice[1] + "/" + Join(slice[2..], '/');
    assert slice[1..][1..] == slice[2..];
    assert Join(slice[1..], '/') == tail;
    assert topic == slice[0] + "/" + tail;
    assert topic[|slice[0]|] == '/';
    assert forall i :: 0 <= i < |PREFIX| ==> topic[i] == PREFIX[i] != '/';
    assert PREFIX == topic[..|PREFIX|] == slice[0][..|PREFIX|];
  }

  /** Decoding yields a delay and a topic exactly when the input is a front that begins with the
      prefix, a numeral, and a rest, and then they are that number and a slash before that rest. */
  lemma DecodeIff(topic: string, t: string, n: nat)
    ensures Decode(topic) == Delayed(t, n) <==>
      exists front, delay, rest :: Written(topic, front, delay, rest) && ParseU64(delay) == Number(n) && t == "/" + rest
  {
    hide Split, Join, ParseU64;
    var slice := Split(topic, '/');
    if Decode(topic) == Delayed(t, n) {
      WrittenOfSplit(topic);
      var rest := Join(slice[2..], '/');
      assert Written(topic, slice[0], slice[1], rest) && ParseU64(slice[1]) == Number(n) && t == "/" + rest;
    }
    if exists front, delay, rest :: Written(topic, front, delay, rest) && ParseU64(delay) == Number(n) && t == "/" + rest {
      var front, delay, rest :| Written(topic, front, delay, rest) && ParseU64(delay) == Number(n) && t == "/" + rest;
      SplitWritten(topic, front, delay, rest);
      assert front <= topic;
    }
  }

  /** It is not a delayed topic exactly when it cannot be written so, and a bad one exactly when it can but the
      delay is no numeral below 2^64. */
  lemma NotDecodedIff(topic: string)
    ensures Decode(topic) == NotDelayed <==> !exists front, delay, rest :: Written(topic, front, delay, rest)
    ensures Decode(topic) == BadDelay <==>
      exists front, delay, rest :: Written(topic, front, delay, rest) && forall n :: ParseU64(delay) != Number(n)
  {
    hide Split, Join, ParseU64;
    if IsDelayMessage(topic) && |Split(topic, '/')| >= 3 { WrittenOfSplit(topic); }
    forall front, delay, rest | Written(topic, front, delay, rest)
      ensures IsDelayMessage(topic) && |Split(topic, '/')| >= 3 && Split(topic, '/')[1] == delay
    {
      SplitWritten(topic, front, delay, rest);
      assert front <= topic;
    }
    var slice := Split(topic, '/');
    if IsDelayMessage(topic) && |slice| >= 3 {
      assert Written(topic, slice[0], slice[1], Join(slice[2..], '/'));
      match ParseU64(slice[1]) {
        case Malformed => assert forall n :: ParseU64(slice[1]) != Number(n);
        case Number(n) => assert ParseU64(slice[1]) == Number(n);
      }
    }
  }

  /** Every delay below 2^64 and every topic come back, the topic with a slash before it. */
  lemma DelayRoundTrip(n: nat, topic: string)
    requires n < U64_LIMIT
    ensures Decode("$delayed/" + Dec(n) + "/" + topic) == Delayed("/" + topic, n)
  {
    hide Split, Join, ParseU64, Decode, Dec;
    ParseDec(n);
    DecFree(n, '/');
    assert Written(PREFIX + "/" + (Dec(n) + "/" + topic), PREFIX, Dec(n), topic);
    DecodeIff(PREFIX + "/" + (Dec(n) + "/" + topic), "/" + topic, n);
    assert "$delayed/" + Dec(n) + "/" + topic == PREFIX + "/" + (Dec(n) + "/" + topic);
  }
}
