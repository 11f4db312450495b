/** Topic rewriting: rules from a hash map, sorted by timestamp, applied from the latest to the oldest. */
module TopicRewrite {
  import opened Options

  datatype Rule = Rule(action: string, sourceTopic: string, destTopic: string, regex: string, timestamp: nat)

  /** Path matching and topic generation, whose regular expressions are not modelled. */
  datatype Engine = Engine(matches: (string, string) -> bool, generate: (string, string, string) -> Option<string>)

  predicate ForSubscribe(r: Rule) { r.action == "All" || r.action == "Subscribe" }
  predicate ForPublish(r: Rule) { r.action == "All" || r.action == "Publish" }

  /** One rule applied to a filter path. */
  function ApplyRule(g: Engine, r: Rule, path: string): string
  {
    if ForSubscribe(r) && g.matches(path, r.sourceTopic) then
      match g.generate(path, r.regex, r.destTopic)
      case Some(v) => v
      case None => path
    else path
  }

  /** The rules applied one after another, from the last of the list to the first. */
  function RewritePath(g: Engine, rules: seq<Rule>, path: string): string
  {
    if rules == [] then path
    else RewritePath(g, rules[..|rules| - 1], ApplyRule(g, rules[|rules| - 1], path))
  }

  // ---------------------------------------------------------------- listings of the rule map

  /** `order` lists the rules of the keys `ks`, which are different. */
  ghost predicate Lists(rules: map<string, Rule>, ks: seq<string>, order: seq<Rule>)
  {
    && |ks| == |order|
    && (forall i, j :: 0 <= i < j < |ks| ==> ks[i] != ks[j])
    && (forall i :: 0 <= i < |ks| ==> ks[i] in rules && order[i] == rules[ks[i]])
  }

  /** `order` lists all rules of the map, once per key. */
  ghost predicate IsListing(rules: map<string, Rule>, ks: seq<string>, order: seq<Rule>)
  {
    Lists(rules, ks, order) && forall k :: k in rules ==> k in ks
  }

  predicate SortedByTime(s: seq<Rule>) { forall i, j :: 0 <= i < j < |s| ==> s[i].timestamp <= s[j].timestamp }

  ghost predicate IsSortedListing(rules: map<string, Rule>, order: seq<Rule>)
  {
    SortedByTime(order) && exists ks :: IsListing(rules, ks, order)
  }

  /** Different rules have different timestamps. */
  predicate NoTies(rules: map<string, Rule>)
  {
    forall a, b :: a in rules && b in rules && rules[a].timestamp == rules[b].timestamp ==> rules[a] == rules[b]
  }

  function Swap<T>(s: seq<T>, i: nat, j: nat): (r: seq<T>)
    requires i < |s| && j < |s|
    ensures |r| == |s| && r[i] == s[j] && r[j] == s[i]
    ensures forall k :: 0 <= k < |s| && k != i && k != j ==> r[k] == s[k]
  {
    s[i := s[j]][j := s[i]]
  }

  lemma SwapListed(rules: map<string, Rule>, ks: seq<string>, order: seq<Rule>, i: nat, j: nat)
    requires IsListing(rules, ks, order) && i < |ks| && j < |ks|
    ensures IsListing(rules, Swap(ks, i, j), Swap(order, i, j))
  {
    hide Swap;
    forall k | k in rules ensures k in Swap(ks, i, j) {
      var m :| 0 <= m < |ks| && ks[m] == k;
      assert k == Swap(ks, i, j)[if m == i then j else if m == j then i else m];
    }
  }

  lemma SwapTied(order: seq<Rule>, i: nat, j: nat)
    requires SortedByTime(order) && i < |order| && j < |order| && order[i].timestamp == order[j].timestamp
    ensures SortedByTime(Swap(order, i, j))
  {
    hide Swap;
    forall k | 0 <= k < |order| ensures Swap(order, i, j)[k].timestamp == order[k].timestamp {}
  }

  /** The last key and rule of a listing taken off. */
  lemma ListingFront(rules: map<string, Rule>, ks: seq<string>, order: seq<Rule>)
    requires IsListing(rules, ks, order) && ks != []
    ensures var n := |ks| - 1; IsListing(rules - {ks[n]}, ks[..n], order[..n])
  {
    var n := |ks| - 1;
    forall k | k in rules - {ks[n]} ensures k in ks[..n] {
      var m :| 0 <= m < |ks| && ks[m] == k;
      assert ks[..n][m] == k;
    }
  }

  /** The last rules of two sorted listings agree. */
  lemma SameLast(rules: map<string, Rule>, ks: seq<string>, a: seq<Rule>, ks': seq<string>, b: seq<Rule>, i: nat)
    requires NoTies(rules) && SortedByTime(a) && SortedByTime(b) && IsListing(rules, ks, a) && IsListing(rules, ks', b)
    requires a != [] && i < |b| && ks'[i] == ks[|a| - 1]
    ensures b[i] == b[|b| - 1] == a[|a| - 1]
  {
    var n, m := |a| - 1, |b| - 1;
    assert ks'[m] in rules;
    var j :| 0 <= j < |ks| && ks[j] == ks'[m];
    assert b[i].timestamp <= b[m].timestamp && a[j].timestamp <= a[n].timestamp;
    assert rules[ks[n]].timestamp == rules[ks'[m]].timestamp;
  }

  /** The key of any rule equal to the last can be listed last. */
  lemma KeyLast(rules: map<string, Rule>, ks: seq<string>, order: seq<Rule>, i: nat) returns (ks': seq<string>)
    requires IsListing(rules, ks, order) && i < |ks| && order[i] == order[|ks| - 1]
    ensures IsListing(rules, ks', order) && |ks'| == |ks| && ks'[|ks| - 1] == ks[i]
  {
    assert |order| == |ks|;
    hide IsListing;
    ks' := Swap(ks, i, |ks| - 1);
    SwapListed(rules, ks, order, i, |ks| - 1);
    assert Swap(order, i, |ks| - 1) == order;
  }

  lemma FindKey(rules: map<string, Rule>, ks: seq<string>, order: seq<Rule>, ks': seq<string>, order': seq<Rule>) returns (i: nat)
    requires IsListing(rules, ks, order) && IsListing(rules, ks', order') && order != []
    ensures |ks| == |order| && |ks'| == |order'| && i < |ks'| && ks'[i] == ks[|ks| - 1]
  {
    assert ks[|ks| - 1] in rules;
    i :| 0 <= i < |ks'| && ks'[i] == ks[|ks| - 1];
  }

  lemma FrontFacts(rules: map<string, Rule>, k: string, order: seq<Rule>)
    requires NoTies(rules) && SortedByTime(order) && order != []
    ensures NoTies(rules - {k}) && SortedByTime(order[..|order| - 1])
  {}

  lemma BothListed(rules: map<string, Rule>, ks: seq<string>, a: seq<Rule>, ks': seq<string>, b: seq<Rule>)
    requires IsListing(rules, ks, a) && IsListing(rules, ks', b)
    ensures b != [] ==> a != []
  {
    if b != [] { assert ks'[0] in rules; }
  }

  lemma {:induction false} OneOrder(rules: map<string, Rule>, ks: seq<string>, a: seq<Rule>, ks': seq<string>, b: seq<Rule>)
    requires NoTies(rules) && SortedByTime(a) && SortedByTime(b) && IsListing(rules, ks, a) && IsListing(rules, ks', b)
    ensures a == b
    decreases |a|
  {
    hide IsListing, SortedByTime, NoTies;
    BothListed(rules, ks, a, ks', b);
    if a != [] {
      var n, m := |a| - 1, |b| - 1;
      var i := FindKey(rules, ks, a, ks', b);
      SameLast(rules, ks, a, ks', b, i);
      var ks'' := KeyLast(rules, ks', b, i);
      ListingFront(rules, ks, a);
      ListingFront(rules, ks'', b);
      FrontFacts(rules, ks[n], a);
      FrontFacts(rules, ks[n], b);
      OneOrder(rules - {ks[n]}, ks[..n], a[..n], ks''[..m], b[..m]);
      assert a == a[..n] + [a[n]] && b == b[..m] + [b[m]];
    }
  }

  /** The rules of a map can be sorted in one way only exactly when no two different rules have one
      timestamp. */
  lemma OrderDeterminedIff(rules: map<string, Rule>, order: seq<Rule>)
    requires IsSortedListing(rules, order)
    ensures (forall other :: IsSortedListing(rules, other) ==> other == order) <==> NoTies(rules)
  {
    hide IsListing, SortedByTime;
    var ks :| IsListing(rules, ks, order);
    if NoTies(rules) {
      forall other | IsSortedListing(rules, other) ensures other == order {
        var ks' :| IsListing(rules, ks', other);
        OneOrder(rules, ks, order, ks', other);
      }
    } else {
      var other := OtherOrder(rules, ks, order);
    }
  }

  lemma OtherOrder(rules: map<string, Rule>, ks: seq<string>, order: seq<Rule>) returns (other: seq<Rule>)
    requires IsListing(rules, ks, order) && SortedByTime(order) && !NoTies(rules)
    ensures IsSortedListing(rules, other) && other != order
  {
    hide SortedByTime, Swap;
    var x, y :| x in rules && y in rules && rules[x].timestamp == rules[y].timestamp && rules[x] != rules[y];
    var i :| 0 <= i < |ks| && ks[i] == x;
    var j :| 0 <= j < |ks| && ks[j] == y;
    other := Swap(order, i, j);
    SwapTied(order, i, j);
    SwapListed(rules, ks, order, i, j);
    assert other[i] != order[i];
  }

  /** Without ties, rewriting does not depend on the order in which the map yields its rules. */
  lemma OrderDoesNotMatter(g: Engine, rules: map<string, Rule>, a: seq<Rule>, b: seq<Rule>, path: string)
    requires NoTies(rules) && IsSortedListing(rules, a) && IsSortedListing(rules, b)
    ensures RewritePath(g, a, path) == RewritePath(g, b, path)
  {
    hide IsSortedListing, RewritePath, NoTies;
    OrderDeterminedIff(rules, a);
  }

  /** With a tie it can: two rules made in the same instant, two orders, two results. */
  lemma EqualTimesDiffer(g: Engine)
    requires g.matches("a", "a") && !g.matches("b", "a") && !g.matches("c", "a")
    requires g.generate("a", "", "b") == Some("b") && g.generate("a", "", "c") == Some("c")
    ensures
      var toB, toC := Rule("All", "a", "b", "", 7), Rule("All", "a", "c", "", 7);
      var rules := map["x" := toB, "y" := toC];
      && IsSortedListing(rules, [toB, toC]) && IsSortedListing(rules, [toC, toB])
      && RewritePath(g, [toB, toC], "a") == "c" && RewritePath(g, [toC, toB], "a") == "b"
  {
    hide IsSortedListing, RewritePath;
    var toB, toC := Rule("All", "a", "b", "", 7), Rule("All", "a", "c", "", 7);
    TwoOrders(toB, toC);
    TwoRules(g, toB, toC, "a");
    TwoRules(g, toC, toB, "a");
  }

  lemma TwoOrders(x: Rule, y: Rule)
    requires x.timestamp == y.timestamp
    ensures var rules := map["x" := x, "y" := y]; IsSortedListing(rules, [x, y]) && IsSortedListing(rules, [y, x])
  {
    hide IsListing;
    var rules := map["x" := x, "y" := y];
    PairListed(rules, "x", "y");
    PairListed(rules, "y", "x");
  }

  lemma PairListed(rules: map<string, Rule>, a: string, b: string)
    requires a != b && rules.Keys == {a, b}
    ensures IsListing(rules, [a, b], [rules[a], rules[b]])
  {
    forall k | k in rules ensures k in [a, b] {}
  }

  lemma TwoRules(g: Engine, first: Rule, second: Rule, path: string)
    ensures RewritePath(g, [first, second], path) == ApplyRule(g, first, ApplyRule(g, second, path))
  {
    assert [first, second][..1] == [first] && [first][..0] == [];
    var p := ApplyRule(g, second, path);
    assert RewritePath(g, [first], p) == RewritePath(g, [], ApplyRule(g, first, p));
  }

  // ---------------------------------------------------------------- the code

  /** The rules in whatever order the map yields them. */
  method CollectRules(rules: map<string, Rule>) returns (list: seq<Rule>, ghost ks: seq<string>)
    ensures IsListing(rules, ks, list)
  {
    list, ks := [], [];
    var left := rules.Keys;
    while left != {}
      invariant left <= rules.Keys && |ks| == |list|
      invariant forall i, j :: 0 <= i < j < |ks| ==> ks[i] != ks[j]
      invariant forall i :: 0 <= i < |ks| ==> ks[i] in rules.Keys - left && list[i] == rules[ks[i]]
      invariant forall k :: k in rules.Keys - left ==> k in ks
      decreases left
    {
      var k :| k in left;
      list, ks := list + [rules[k]], ks + [k];
      left := left - {k};
    }
  }

  /** A stable sort by timestamp. */
  method SortByTimestamp(ghost rules: map<string, Rule>, list: seq<Rule>, ghost ks: seq<string>) returns (sorted: seq<Rule>)
    requires IsListing(rules, ks, list)
    ensures IsSortedListing(rules, sorted)
    ensures forall i, j :: 0 <= i < j < |sorted| ==> sorted[i].timestamp <= sorted[j].timestamp
  {
    sorted := [];
    ghost var ks': seq<string> := [];
    for i := 0 to |list|
      invariant SortedByTime(sorted) && Lists(rules, ks', sorted)
      invariant forall k :: k in ks' <==> k in ks[..i]
    {
      hide Lists, SortedByTime;
      var p := |sorted|;
      while p > 0 && sorted[p - 1].timestamp > list[i].timestamp
        invariant 0 <= p <= |sorted|
        invariant forall a :: p <= a < |sorted| ==> sorted[a].timestamp > list[i].timestamp
      {
        p := p - 1;
      }
      ListingAt(rules, ks, list, i);
      InsertKeeps(rules, ks', sorted, p, ks[i]);
      InsertSorts(sorted, p, list[i]);
      assert ks[..i + 1] == ks[..i] + [ks[i]];
      sorted := sorted[..p] + [list[i]] + sorted[p..];
      ks' := ks'[..p] + [ks[i]] + ks'[p..];
    }
    assert ks[..|list|] == ks;
    assert IsListing(rules, ks', sorted);
  }

  lemma ListingAt(rules: map<string, Rule>, ks: seq<string>, list: seq<Rule>, i: nat)
    requires Lists(rules, ks, list) && i < |list|
    ensures |ks| == |list| && ks[i] in rules && list[i] == rules[ks[i]] && ks[i] !in ks[..i]
  {}

  lemma InsertSorts(s: seq<Rule>, p: nat, r: Rule)
    requires SortedByTime(s) && p <= |s| && (p > 0 ==> s[p - 1].timestamp <= r.timestamp)
    requires forall a :: p <= a < |s| ==> s[a].timestamp > r.timestamp
    ensures SortedByTime(s[..p] + [r] + s[p..])
  {}

  lemma InsertKeeps(rules: map<string, Rule>, ks: seq<string>, sorted: seq<Rule>, p: nat, k: string)
    requires Lists(rules, ks, sorted) && p <= |sorted| && k in rules && k !in ks
    ensures |ks| == |sorted|
    ensures Lists(rules, ks[..p] + [k] + ks[p..], sorted[..p] + [rules[k]] + sorted[p..])
    ensures forall x :: x in ks[..p] + [k] + ks[p..] <==> x in ks || x == k
  {
    assert ks == ks[..p] + ks[p..];
  }

  /** The rewriting of subscription filters and, by the same rules, of unsubscription filters: every
      path in place, the rules from the latest to the oldest. */
  method RewriteFilters(g: Engine, filters: array<string>, rules: map<string, Rule>) returns (ghost order: seq<Rule>)
    modifies filters
    ensures IsSortedListing(rules, order)
    ensures forall i :: 0 <= i < filters.Length ==> filters[i] == RewritePath(g, order, old(filters[i]))
    ensures forall i :: 0 <= i < filters.Length ==> Rewrites(g, order, old(filters[i]), filters[i])
    ensures forall i, j :: 0 <= i < j < |order| ==> order[i].timestamp <= order[j].timestamp
  {
    hide IsSortedListing;
    var list;
    ghost var ks;
    list, ks := CollectRules(rules);
    var sorted := SortByTimestamp(rules, list, ks);
    order := sorted;
    for i := 0 to filters.Length
      invariant forall k :: 0 <= k < i ==> filters[k] == RewritePath(g, sorted, old(filters[k]))
      invariant forall k :: i <= k < filters.Length ==> filters[k] == old(filters[k])
    {
      ghost var goal := RewritePath(g, sorted, filters[i]);
      assert sorted[..|sorted|] == sorted;
      for j := |sorted| downto 0
        invariant RewritePath(g, sorted[..j], filters[i]) == goal
        invariant forall k :: 0 <= k < filters.Length && k != i ==> filters[k] == if k < i then RewritePath(g, sorted, old(filters[k])) else old(filters[k])
      {
        assert sorted[..j + 1][..j] == sorted[..j];
        if !ForSubscribe(sorted[j]) {
          continue;
        }
        if g.matches(filters[i], sorted[j].sourceTopic) {
          var made := g.generate(filters[i], sorted[j].regex, sorted[j].destTopic);
          if made.Some? {
            filters[i] := made.value;
          }
        }
      }
    }
    forall i | 0 <= i < filters.Length ensures Rewrites(g, order, old(filters[i]), filters[i]) {
      ChainOf(g, order, old(filters[i]));
    }
  }

  /** One rule leads from `path` to `next`. */
  predicate Leads(g: Engine, r: Rule, path: string, next: string)
  {
    var made := g.generate(path, r.regex, r.destTopic);
    next == if r.action in ["All", "Subscribe"] && g.matches(path, r.sourceTopic) && made.Some? then made.value else path
  }

  /** The rules lead from `path` to `end`, each from where the later one led. */
  ghost predicate Rewrites(g: Engine, rules: seq<Rule>, path: string, end: string)
  {
    exists ps :: Chain(g, rules, ps) && ps[|rules|] == path && ps[0] == end
  }

  predicate Chain(g: Engine, rules: seq<Rule>, ps: seq<string>)
  {
    |ps| == |rules| + 1 && forall j :: 0 <= j < |rules| ==> Leads(g, rules[j], ps[j + 1], ps[j])
  }

  lemma {:induction false} ChainOf(g: Engine, rules: seq<Rule>, path: string)
    ensures Rewrites(g, rules, path, RewritePath(g, rules, path))
    decreases |rules|
  {
    if rules == [] {
      assert Chain(g, rules, [path]);
    } else {
      var n := |rules| - 1;
      var next := ApplyRule(g, rules[n], path);
      ChainOf(g, rules[..n], next);
      var ps :| Chain(g, rules[..n], ps) && ps[n] == next && ps[0] == RewritePath(g, rules[..n], next);
      var all := ps + [path];
      forall j | 0 <= j < |rules| ensures Leads(g, rules[j], all[j + 1], all[j]) {
        if j < n { assert Leads(g, rules[..n][j], ps[j + 1], ps[j]); }
      }
      assert Chain(g, rules, all);
    }
  }

  // ---------------------------------------------------------------- publishing

  /** Publishing takes the latest matching rule and stops. */
  function RewritePublish(g: Engine, rules: seq<Rule>, topic: string): Option<string>
  {
    if rules == [] then None
    else
      var r := rules[|rules| - 1];
      if ForPublish(r) && g.matches(topic, r.sourceTopic) then
        match g.generate(topic, r.regex, r.destTopic)
        case Some(v) => Some(v)
        case None => Some(topic)
      else RewritePublish(g, rules[..|rules| - 1], topic)
  }

  /** Rule `j` is for publishers and matches, and no later one does. */
  predicate LatestFor(g: Engine, rules: seq<Rule>, topic: string, j: nat)
  {
    && j < |rules| && rules[j].action in ["All", "Publish"] && g.matches(topic, rules[j].sourceTopic)
    && forall k :: j < k < |rules| ==> !(rules[k].action in ["All", "Publish"] && g.matches(topic, rules[k].sourceTopic))
  }

  /** `process_publish_topic_rewrite`. */
  method RewritePublishTopic(g: Engine, topic: string, rules: map<string, Rule>) returns (r: Option<string>, ghost order: seq<Rule>)
    ensures IsSortedListing(rules, order) && r == RewritePublish(g, order, topic)
    ensures r.None? <==> forall j :: 0 <= j < |order| ==> !(order[j].action in ["All", "Publish"] && g.matches(topic, order[j].sourceTopic))
    ensures r.Some? ==> exists j :: 0 <= j < |order| && LatestFor(g, order, topic, j) && r.value == Made(g, order[j], topic)
    ensures forall i, j :: 0 <= i < j < |order| ==> order[i].timestamp <= order[j].timestamp
  {
    hide IsSortedListing;
    var list;
    ghost var ks;
    list, ks := CollectRules(rules);
    var sorted := SortByTimestamp(rules, list, ks);
    order := sorted;
    assert sorted[..|sorted|] == sorted;
    for j := |sorted| downto 0
      invariant RewritePublish(g, sorted[..j], topic) == RewritePublish(g, sorted, topic)
      invariant forall k :: j <= k < |sorted| ==> !(sorted[k].action in ["All", "Publish"] && g.matches(topic, sorted[k].sourceTopic))
    {
      assert sorted[..j + 1][..j] == sorted[..j];
      if !ForPublish(sorted[j]) {
        continue;
      }
      if g.matches(topic, sorted[j].sourceTopic) {
        var made := g.generate(topic, sorted[j].regex, sorted[j].destTopic);
        assert LatestFor(g, sorted, topic, j);
        return Some(if made.Some? then made.value else topic), order;
      }
    }
    r := None;
  }

  function PublishedTo(g: Engine, rules: seq<Rule>, topic: string): string
  {
    match RewritePublish(g, rules, topic)
    case Some(v) => v
    case None => topic
  }

  /** How many rules there are up to and with the latest one that concerns the topic: it matches, and is
      for publishers or for subscribers. */
  function UpToLatest(g: Engine, rules: seq<Rule>, topic: string): (n: nat)
    ensures n <= |rules|
  {
    if rules == [] then 0
    else
      var r := rules[|rules| - 1];
      if g.matches(topic, r.sourceTopic) && (ForPublish(r) || ForSubscribe(r)) then |rules|
      else UpToLatest(g, rules[..|rules| - 1], topic)
  }

  function Made(g: Engine, r: Rule, topic: string): string
  {
    match g.generate(topic, r.regex, r.destTopic)
    case Some(v) => v
    case None => topic
  }

  /** Whether a subscriber and a publisher of one topic meet is decided by the latest rule that concerns
      it and the rules older than that.  A rule for both: the older ones must leave its result alone.  A
      rule for publishers: the older ones must take subscribers from the topic to its result.  A rule for
      subscribers: the older ones must take subscribers from its result to where they take publishers from
      the topic.  Without such a rule they meet. */
  lemma {:induction false} MeetIff(g: Engine, rules: seq<Rule>, topic: string)
    ensures
      RewritePath(g, rules, topic) == PublishedTo(g, rules, topic) <==>
      var n := UpToLatest(g, rules, topic);
      n == 0 ||
      var r, older := rules[n - 1], rules[..n - 1];
      if ForPublish(r) && ForSubscribe(r) then RewritePath(g, older, Made(g, r, topic)) == Made(g, r, topic)
      else if ForPublish(r) then RewritePath(g, older, topic) == Made(g, r, topic)
      else RewritePath(g, older, Made(g, r, topic)) == PublishedTo(g, older, topic)
  {
    if rules != [] {
      var r, front := rules[|rules| - 1], rules[..|rules| - 1];
      if !(g.matches(topic, r.sourceTopic) && (ForPublish(r) || ForSubscribe(r))) {
        MeetIff(g, front, topic);
        var n := UpToLatest(g, front, topic);
        if n > 0 { assert front[..n - 1] == rules[..n - 1] && front[n - 1] == rules[n - 1]; }
      }
    }
  }

  // ---------------------------------------------------------------- which rules concern whom

  /** What one rule, alone, makes of a filter and of a published topic. */
  lemma OneRule(g: Engine, k: string, r: Rule, order: seq<Rule>, path: string)
    requires IsSortedListing(map[k := r], order)
    ensures
      var hit, made := g.matches(path, r.sourceTopic), g.generate(path, r.regex, r.destTopic);
      var both, subscribe, publish := r.action == "All", r.action == "Subscribe", r.action == "Publish";
      && RewritePath(g, order, path) == (if (both || subscribe) && hit && made.Some? then made.value else path)
      && RewritePublish(g, order, path) == (if (both || publish) && hit then Some(if made.Some? then made.value else path) else None)
  {
    OneListed(k, r, order);
    assert [r][..0] == [];
    var p := ApplyRule(g, r, path);
    assert RewritePath(g, [r], path) == RewritePath(g, [], p);
  }

  lemma OneListed(k: string, r: Rule, order: seq<Rule>)
    requires IsSortedListing(map[k := r], order)
    ensures order == [r]
  {
    hide IsListing, SortedByTime;
    var ks :| IsListing(map[k := r], ks, order);
    assert IsListing(map[k := r], [k], [r]) && SortedByTime([r]) by { AloneListed(k, r); }
    OneOrder(map[k := r], ks, order, [k], [r]);
  }

  lemma AloneListed(k: string, r: Rule)
    ensures IsListing(map[k := r], [k], [r]) && SortedByTime([r])
  {
    assert k in [k];
  }

  /** Two rules made at different times: the later one is applied first to a filter, and is the one tried first for
      a published topic. */
  lemma LaterFirst(g: Engine, a: string, x: Rule, b: string, y: Rule, order: seq<Rule>, path: string)
    requires a != b && x.timestamp < y.timestamp && IsSortedListing(map[a := x, b := y], order)
    ensures order == [x, y]
    ensures RewritePath(g, order, path) == ApplyRule(g, x, ApplyRule(g, y, path))
    ensures y.action == "All" && g.matches(path, y.sourceTopic) ==> RewritePublish(g, order, path) == Some(Made(g, y, path))
  {
    hide IsListing, SortedByTime;
    var rules := map[a := x, b := y];
    var ks :| IsListing(rules, ks, order);
    PairListed(rules, a, b);
    assert SortedByTime([x, y]) by { TwoSorted(x, y); }
    OneOrder(rules, ks, order, [a, b], [x, y]);
    TwoRules(g, x, y, path);
    PublishOfMore(g, [x], y, path);
    assert [x] + [y] == [x, y];
  }

  lemma TwoSorted(x: Rule, y: Rule)
    requires x.timestamp <= y.timestamp
    ensures SortedByTime([x, y])
  {}

  function Without(rules: seq<Rule>, action: string): seq<Rule>
  {
    if rules == [] then []
    else
      var front, r := Without(rules[..|rules| - 1], action), rules[|rules| - 1];
      if r.action == action then front else front + [r]
  }

  lemma PathOfMore(g: Engine, rules: seq<Rule>, r: Rule, path: string)
    ensures RewritePath(g, rules + [r], path) == RewritePath(g, rules, ApplyRule(g, r, path))
  {
    assert (rules + [r])[..|rules|] == rules;
  }

  lemma PublishOfMore(g: Engine, rules: seq<Rule>, r: Rule, topic: string)
    ensures
      RewritePublish(g, rules + [r], topic) ==
      if ForPublish(r) && g.matches(topic, r.sourceTopic) then Some(Made(g, r, topic)) else RewritePublish(g, rules, topic)
  {
    assert (rules + [r])[..|rules|] == rules;
  }

  /** Rules for publishers can be left out without a change to any filter. */
  lemma {:induction false} PublishRulesSpareFilters(g: Engine, rules: seq<Rule>, path: string)
    ensures RewritePath(g, Without(rules, "Publish"), path) == RewritePath(g, rules, path)
  {
    if rules != [] {
      var n := |rules| - 1;
      var next := ApplyRule(g, rules[n], path);
      PublishRulesSpareFilters(g, rules[..n], next);
      PathOfMore(g, Without(rules[..n], "Publish"), rules[n], path);
    }
  }

  /** Rules for subscribers can be left out without a change to any published topic. */
  lemma {:induction false} SubscribeRulesSpareTopics(g: Engine, rules: seq<Rule>, topic: string)
    ensures RewritePublish(g, Without(rules, "Subscribe"), topic) == RewritePublish(g, rules, topic)
  {
    if rules != [] {
      var n := |rules| - 1;
      SubscribeRulesSpareTopics(g, rules[..n], topic);
      PublishOfMore(g, Without(rules[..n], "Subscribe"), rules[n], topic);
    }
  }

  /** They need not: with a rule from a to b and an older one from b to c, a publisher on a reaches b
      while a subscriber to a listens on c. */
  lemma PublisherMissesSubscriber(g: Engine)
    requires g.matches("a", "a") && g.matches("b", "b") && !g.matches("b", "a")
    requires g.generate("a", "", "b") == Some("b") && g.generate("b", "", "c") == Some("c")
    ensures
      var rules := [Rule("All", "b", "c", "", 1), Rule("All", "a", "b", "", 2)];
      PublishedTo(g, rules, "a") == "b" && RewritePath(g, rules, "a") == "c"
  {
    var rules := [Rule("All", "b", "c", "", 1), Rule("All", "a", "b", "", 2)];
    assert rules[..1] == [rules[0]] && [rules[0]][..0] == [];
    assert RewritePath(g, rules, "a") == RewritePath(g, [rules[0]], "b") == "c";
  }
}
