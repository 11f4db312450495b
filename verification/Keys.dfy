/** The key formats of the index column family, and what keeps them apart. */
module Keys {
  import opened Bytes
  import opened Strings
  import opened Decimal

  datatype Iden = SegmentIdentity(namespace: string, shardName: string, segmentSeq: u32) {
    /** Names that no path component can be confused with. */
    predicate Plain() { Free(namespace, '/') && Free(shardName, '/') }
  }

  /** What a key of one segment is about. */
  datatype Name =
    | OffsetStart | OffsetEnd | Position(offset: nat)
    | TimeStart | TimeEnd | Time(sec: nat)
    | Tag(tag: string, offset: nat) | Key(key: string, offset: nat)
    | Finish | LastOffset

  function SegmentIndexPrefix(s: Iden): string
  {
    "/index/" + (s.namespace + "/" + (s.shardName + "/" + (Dec(s.segmentSeq) + "/")))
  }

  function Tail(n: Name): string
  {
    match n
    case OffsetStart => "offset/start"
    case OffsetEnd => "offset/end"
    case Position(o) => "offset/position-" + Dec(o)
    case TimeStart => "timestamp/start"
    case TimeEnd => "timestamp/end"
    case Time(t) => "timestamp/time-" + Dec(t)
    case Tag(t, o) => "tag/" + (t + "/" + Dec(o))
    case Key(k, o) => "key/" + (k + "/" + Dec(o))
    case Finish => "build/finish"
    case LastOffset => "build/last/offset"
  }

  function Render(s: Iden, n: Name): string { SegmentIndexPrefix(s) + Tail(n) }

  function PositionPrefix(s: Iden): string { SegmentIndexPrefix(s) + "offset/position-" }
  function TimePrefix(s: Iden): string { SegmentIndexPrefix(s) + "timestamp/time-" }
  function TagPrefix(s: Iden, tag: string): string { SegmentIndexPrefix(s) + ("tag/" + (tag + "/")) }
  function KeyPrefix(s: Iden, key: string): string { SegmentIndexPrefix(s) + ("key/" + (key + "/")) }

  /** The texts themselves: the front that all keys of a segment share, and what follows it. */
  lemma FrontText(s: Iden, n: Name)
    ensures Render(s, n) == "/index/" + s.namespace + "/" + s.shardName + "/" + Dec(s.segmentSeq) + "/" + Tail(n)
  {
    hide Dec, Tail;
    Regrouped("/index/", s.namespace, s.shardName, Dec(s.segmentSeq), Tail(n));
  }

  lemma Regrouped(x: string, a: string, b: string, c: string, y: string)
    ensures x + (a + "/" + (b + "/" + (c + "/"))) + y == x + a + "/" + b + "/" + c + "/" + y
  {}

  lemma TailTexts(o: nat, w: string)
    ensures Tail(OffsetStart) == "offset/start" && Tail(OffsetEnd) == "offset/end" && Tail(TimeStart) == "timestamp/start" && Tail(TimeEnd) == "timestamp/end"
    ensures Tail(Position(o)) == "offset/position-" + Dec(o) && Tail(Time(o)) == "timestamp/time-" + Dec(o)
    ensures Tail(Tag(w, o)) == "tag/" + (w + "/" + Dec(o)) && Tail(Key(w, o)) == "key/" + (w + "/" + Dec(o))
    ensures Tail(Finish) == "build/finish" && Tail(LastOffset) == "build/last/offset"
  {
    hide Dec;
  }

  // ---------------------------------------------------------------- one segment

  /** Which of the ten kinds a key tail is, read off its characters. */
  function KindOf(s: string): nat
  {
    if |s| < 8 then (if s != [] && s[0] == 'k' then 7 else 6)
    else if s[0] == 'k' then 7
    else if s[0] == 'b' then (if s[6] == 'f' then 8 else 9)
    else if s[0] == 'o' then (if s[7] == 's' then 0 else if s[7] == 'e' then 1 else 2)
    else if s[1] == 'a' then 6
    else if |s| <= 10 || s[10] == 's' then 3
    else if s[10] == 'e' then 4
    else 5
  }

  function Kind(n: Name): nat
  {
    match n
    case OffsetStart => 0 case OffsetEnd => 1 case Position(_) => 2
    case TimeStart => 3 case TimeEnd => 4 case Time(_) => 5
    case Tag(_, _) => 6 case Key(_, _) => 7 case Finish => 8 case LastOffset => 9
  }

  lemma KindOfTail(n: Name)
    ensures KindOf(Tail(n)) == Kind(n)
  {}

  /** A kind is recognised by any key that continues a full fixed part. */
  lemma TailUnder(p: string, n: Name)
    requires p in {"offset/position-", "timestamp/time-"} && p <= Tail(n)
    ensures p == "offset/position-" ==> n.Position?
    ensures p == "timestamp/time-" ==> n.Time?
  {
    KindOfTail(n);
    var s := Tail(n);
    assert |s| > 10;
    assert s[0] == p[0] && s[1] == p[1] && s[7] == p[7] && s[10] == p[10];
  }

  lemma NumberedInjective(x: string, a: nat, y: string, b: nat)
    requires x + "/" + Dec(a) == y + "/" + Dec(b)
    ensures x == y && a == b
  {
    DecFree(a, '/');
    DecFree(b, '/');
    SplitLast(x, Dec(a), y, Dec(b), '/');
    DecInjective(a, b);
  }

  /** Two names of one segment never share a key, whatever their tags and keys contain. */
  lemma TailInjective(a: Name, b: Name)
    requires Tail(a) == Tail(b)
    ensures a == b
  {
    KindOfTail(a);
    KindOfTail(b);
    match a
    case Position(o) =>
      ConcatCancel("offset/position-", Dec(o), Dec(b.offset));
      DecInjective(o, b.offset);
    case Time(t) =>
      ConcatCancel("timestamp/time-", Dec(t), Dec(b.sec));
      DecInjective(t, b.sec);
    case Tag(t, o) =>
      ConcatCancel("tag/", t + "/" + Dec(o), b.tag + "/" + Dec(b.offset));
      NumberedInjective(t, o, b.tag, b.offset);
    case Key(k, o) =>
      ConcatCancel("key/", k + "/" + Dec(o), b.key + "/" + Dec(b.offset));
      NumberedInjective(k, o, b.key, b.offset);
    case _ =>
  }

  lemma RenderInjective(s: Iden, a: Name, b: Name)
    requires Render(s, a) == Render(s, b)
    ensures a == b
  {
    ConcatCancel(SegmentIndexPrefix(s), Tail(a), Tail(b));
    TailInjective(a, b);
  }

  lemma PositionKeys(s: Iden, n: Name)
    ensures PositionPrefix(s) <= Render(s, n) <==> n.Position?
  {
    var p := "offset/position-";
    PrefixCancel(SegmentIndexPrefix(s), p, Tail(n));
    if p <= Tail(n) { TailUnder(p, n); }
  }

  lemma TimeKeys(s: Iden, n: Name)
    ensures TimePrefix(s) <= Render(s, n) <==> n.Time?
  {
    var p := "timestamp/time-";
    PrefixCancel(SegmentIndexPrefix(s), p, Tail(n));
    if p <= Tail(n) { TailUnder(p, n); }
  }

  /** A word counts as filed under `k` when it is `k` or continues it past a slash. */
  predicate FiledUnder(word: string, k: string) { k + "/" <= word + "/" }

  lemma FiledUnderCases(word: string, k: string)
    ensures FiledUnder(word, k) <==> word == k || k + "/" <= word
  {
    if k + "/" <= word + "/" && |k| < |word| {
      assert (k + "/")[..] == (word + "/")[..|k| + 1] == word[..|k| + 1];
    }
    if k + "/" <= word + "/" && |k| == |word| {
      assert k == (k + "/")[..|k|] == (word + "/")[..|word|] == word;
    }
  }

  lemma NumberedUnder(k: string, word: string, o: nat)
    ensures k + "/" <= word + "/" + Dec(o) <==> FiledUnder(word, k)
  {
    var full, front := word + "/" + Dec(o), word + "/";
    if k + "/" <= full {
      assert full[|k|] == '/';
      assert forall i :: |word| < i < |full| ==> full[i] == Dec(o)[i - |word| - 1];
      assert k + "/" == full[..|k| + 1] == front[..|k| + 1];
    }
    if k + "/" <= front { assert front <= full; }
  }

  /** A key prefix selects the key entries whose key is the one asked for or extends it
      past a slash, and nothing else of the segment. */
  lemma KeyKeys(s: Iden, k: string, n: Name)
    ensures KeyPrefix(s, k) <= Render(s, n) <==> n.Key? && FiledUnder(n.key, k)
  {
    PrefixCancel(SegmentIndexPrefix(s), "key/" + (k + "/"), Tail(n));
    if "key/" + (k + "/") <= Tail(n) {
      KindOfTail(n);
      assert Tail(n)[0] == 'k';
    }
    if n.Key? {
      PrefixCancel("key/", k + "/", n.key + "/" + Dec(n.offset));
      NumberedUnder(k, n.key, n.offset);
    }
  }

  lemma TagKeys(s: Iden, t: string, n: Name)
    ensures TagPrefix(s, t) <= Render(s, n) <==> n.Tag? && FiledUnder(n.tag, t)
  {
    PrefixCancel(SegmentIndexPrefix(s), "tag/" + (t + "/"), Tail(n));
    if "tag/" + (t + "/") <= Tail(n) {
      KindOfTail(n);
      assert Tail(n)[0] == 't' && Tail(n)[1] == 'a';
    }
    if n.Tag? {
      PrefixCancel("tag/", t + "/", n.tag + "/" + Dec(n.offset));
      NumberedUnder(t, n.tag, n.offset);
    }
  }

  // ---------------------------------------------------------------- several segments

  /** A path under a segment, one component after another. */
  function Path(s: Iden, rest: string): string
  {
    "/index/" + (s.namespace + "/" + (s.shardName + "/" + (Dec(s.segmentSeq) + "/" + rest)))
  }

  lemma PathIsUnder(s: Iden, rest: string)
    ensures Path(s, rest) == SegmentIndexPrefix(s) + rest
  {
    hide Dec;
    var d := Dec(s.segmentSeq) + "/";
    assert s.shardName + "/" + (d + rest) == s.shardName + "/" + d + rest;
    var e := s.shardName + "/" + d;
    assert s.namespace + "/" + (e + rest) == s.namespace + "/" + e + rest;
  }

  lemma PathsApart(a: Iden, x: string, b: Iden, y: string)
    requires a.Plain() && b.Plain() && Path(a, x) <= Path(b, y)
    ensures a == b
  {
    hide Dec;
    var ca, cb := Dec(a.segmentSeq) + "/" + x, Dec(b.segmentSeq) + "/" + y;
    var ba, bb := a.shardName + "/" + ca, b.shardName + "/" + cb;
    PrefixCancel("/index/", a.namespace + "/" + ba, b.namespace + "/" + bb);
    PrefixFirst(a.namespace, ba, b.namespace, bb, '/');
    PrefixFirst(a.shardName, ca, b.shardName, cb, '/');
    DecFree(a.segmentSeq, '/');
    DecFree(b.segmentSeq, '/');
    PrefixFirst(Dec(a.segmentSeq), x, Dec(b.segmentSeq), y, '/');
    DecInjective(a.segmentSeq, b.segmentSeq);
  }

  /** With slash-free names, the prefix of one segment starts no key of another:
      deleting segment 1 cannot reach segment 10. */
  lemma SegmentsApart(a: Iden, b: Iden, rest: string)
    requires a.Plain() && b.Plain()
    ensures SegmentIndexPrefix(a) <= SegmentIndexPrefix(b) + rest <==> a == b
  {
    if SegmentIndexPrefix(a) <= SegmentIndexPrefix(b) + rest {
      PathIsUnder(a, "");
      PathIsUnder(b, rest);
      assert SegmentIndexPrefix(a) + "" == SegmentIndexPrefix(a);
      PathsApart(a, "", b, rest);
    }
  }

  /** A slash in a shard name defeats this, for every segment: the keys of shard "b/1" lie under segment 1
      of shard "b". */
  lemma SlashInShardName(s: Iden, k: u32, n: Name)
    ensures SegmentIndexPrefix(s) <= Render(SegmentIdentity(s.namespace, s.shardName + "/" + Dec(s.segmentSeq), k), n)
  {
    hide Tail, Dec;
    var other := SegmentIdentity(s.namespace, s.shardName + "/" + Dec(s.segmentSeq), k);
    PathIsUnder(other, Tail(n));
    var rest := Dec(k) + "/" + Tail(n);
    assert s.shardName + "/" + Dec(s.segmentSeq) + "/" + rest == s.shardName + "/" + (Dec(s.segmentSeq) + "/" + rest);
    PathIsUnder(s, rest);
  }
}
