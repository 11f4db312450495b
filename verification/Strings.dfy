/** Byte order on strings, sorted key lists, prefixes and separators.

    RocksDB orders keys by their bytes.  UTF-8 keeps code-point order, so comparing
    strings character by character is the same order.
 */
module Strings {

  // ---------------------------------------------------------------- byte order

  predicate LexLess(a: string, b: string)
  {
    if b == [] then false
    else if a == [] then true
    else if a[0] != b[0] then a[0] < b[0]
    else LexLess(a[1..], b[1..])
  }

  predicate LexLeq(a: string, b: string) { a == b || LexLess(a, b) }

  /** The first characters decide, or else the rest. */
  lemma LexByFirst(a: string, b: string)
    requires a != [] && b != []
    ensures a[0] < b[0] || (a[0] == b[0] && LexLess(a[1..], b[1..])) ==> LexLess(a, b)
  {}

  lemma LexTrans(a: string, b: string, c: string)
    requires LexLess(a, b) && LexLess(b, c)
    ensures LexLess(a, c)
  {}

  lemma LexAsym(a: string, b: string)
    requires LexLess(a, b)
    ensures !LexLess(b, a) && a != b
  {}

  lemma LexTotal(a: string, b: string)
    ensures LexLess(a, b) || a == b || LexLess(b, a)
  {
    if a != [] && b != [] && a[0] == b[0] {
      LexTotal(a[1..], b[1..]);
      assert a == [a[0]] + a[1..] && b == [b[0]] + b[1..];
    }
  }

  lemma PrefixLexLeq(p: string, k: string)
    requires p <= k
    ensures LexLeq(p, k)
  {
    if p != [] {
      PrefixLexLeq(p[1..], k[1..]);
      assert p == [p[0]] + p[1..] && k == [k[0]] + k[1..];
    }
  }

  /** The keys that start with `p` are contiguous in byte order: past the first key
      at or after `p` that does not start with `p`, none does. */
  lemma {:induction false} PrefixBlock(p: string, k: string, k': string)
    requires LexLeq(p, k) && !(p <= k) && LexLess(k, k')
    ensures !(p <= k')
  {
    if p <= k' {
      if k[0] == p[0] {
        assert LexLeq(p[1..], k[1..]);
        assert p[1..] <= k[1..] ==> p <= k;
        PrefixBlock(p[1..], k[1..], k'[1..]);
      }
    }
  }

  /** A common front does not matter to the order. */
  lemma {:induction false} LexCommonFront(p: string, a: string, b: string)
    ensures LexLess(p + a, p + b) <==> LexLess(a, b)
  {
    if p == [] {
      assert p + a == a && p + b == b;
    } else {
      LexCommonFront(p[1..], a, b);
      assert (p + a)[1..] == p[1..] + a && (p + b)[1..] == p[1..] + b;
    }
  }

  /** Two strings of one length compare by their fronts first, then by the last character. */
  lemma {:induction false} LexLastChar(a: string, x: char, b: string, y: char)
    requires |a| == |b|
    ensures LexLess(a + [x], b + [y]) <==> LexLess(a, b) || (a == b && x < y)
  {
    if a != [] {
      assert (a + [x])[1..] == a[1..] + [x] && (b + [y])[1..] == b[1..] + [y];
      LexLastChar(a[1..], x, b[1..], y);
      assert a == [a[0]] + a[1..] && b == [b[0]] + b[1..];
    } else {
      assert a + [x] == [x] && b + [y] == [y];
    }
  }

  // ---------------------------------------------------------------- sorted key lists

  ghost predicate StrictlySorted(s: seq<string>)
  {
    forall i, j :: 0 <= i < j < |s| ==> LexLess(s[i], s[j])
  }

  lemma SliceSorted(s: seq<string>, lo: nat, hi: nat)
    requires StrictlySorted(s) && lo <= hi <= |s|
    ensures StrictlySorted(s[lo..hi])
  {
    hide LexLess;
  }

  function Elems(s: seq<string>): set<string> { set x | x in s }

  predicate IsLeast(k: string, s: set<string>) { k in s && forall k' :: k' in s ==> LexLeq(k, k') }

  lemma LeastOfMore(x: string, k: string, s: set<string>)
    requires IsLeast(k, s)
    ensures IsLeast(k, s + {x}) || IsLeast(x, s + {x})
  {
    LexTotal(x, k);
    if LexLess(x, k) {
      forall k' | k' in s ensures LexLeq(x, k') {
        if k' != k { LexTrans(x, k, k'); }
      }
    }
  }

  lemma {:induction false} HasLeast(s: set<string>)
    requires s != {}
    ensures exists k :: IsLeast(k, s)
  {
    var x :| x in s;
    if s == {x} {
      assert IsLeast(x, s);
    } else {
      HasLeast(s - {x});
      var k :| IsLeast(k, s - {x});
      LeastOfMore(x, k, s - {x});
      assert s == s - {x} + {x};
    }
  }

  lemma LeastUnique(s: set<string>, a: string, b: string)
    requires IsLeast(a, s) && IsLeast(b, s)
    ensures a == b
  {
    if LexLess(a, b) { LexAsym(a, b); }
  }

  function Least(s: set<string>): (k: string)
    requires s != {}
    ensures IsLeast(k, s)
  {
    HasLeast(s);
    assert forall a, b :: IsLeast(a, s) && IsLeast(b, s) ==> a == b by {
      forall a, b | IsLeast(a, s) && IsLeast(b, s) ensures a == b { LeastUnique(s, a, b); }
    }
    var k :| k in s && IsLeast(k, s);
    k
  }

  lemma SortedCons(k: string, rest: seq<string>)
    requires StrictlySorted(rest) && k !in Elems(rest) && forall k' :: k' in Elems(rest) ==> LexLeq(k, k')
    ensures StrictlySorted([k] + rest)
    ensures Elems([k] + rest) == {k} + Elems(rest)
  {
    forall i, j | 0 <= i < j < |rest| + 1 ensures LexLess(([k] + rest)[i], ([k] + rest)[j]) {
      assert rest[j - 1] in Elems(rest);
    }
  }

  /** The elements of a set in ascending byte order: what a RocksDB iterator walks over. */
  function SortedKeys(s: set<string>): (r: seq<string>)
    ensures StrictlySorted(r)
    ensures Elems(r) == s
  {
    if s == {} then []
    else
      var k := Least(s);
      var rest := SortedKeys(s - {k});
      SortedCons(k, rest);
      [k] + rest
  }

  /** A strictly sorted list is determined by its elements. */
  lemma {:induction false} SortedUnique(a: seq<string>, b: seq<string>)
    requires StrictlySorted(a) && StrictlySorted(b) && Elems(a) == Elems(b)
    ensures a == b
  {
    assert forall i :: 0 <= i < |a| ==> a[i] in Elems(b);
    assert forall i :: 0 <= i < |b| ==> b[i] in Elems(a);
    if a != [] {
      var i :| 0 <= i < |b| && b[i] == a[0];
      var j :| 0 <= j < |a| && a[j] == b[0];
      if i != 0 && j != 0 { LexAsym(b[0], b[i]); }
      SortedTail(a);
      SortedTail(b);
      SortedUnique(a[1..], b[1..]);
      assert a == [a[0]] + a[1..] && b == [b[0]] + b[1..];
    }
  }

  lemma SortedTail(a: seq<string>)
    requires StrictlySorted(a) && a != []
    ensures StrictlySorted(a[1..])
    ensures Elems(a[1..]) == Elems(a) - {a[0]}
  {
    forall x ensures x in Elems(a[1..]) <==> x in Elems(a) - {a[0]} {
      if x in Elems(a[1..]) {
        var i :| 0 <= i < |a[1..]| && a[1..][i] == x;
        assert a[i + 1] == x;
        LexAsym(a[0], a[i + 1]);
      }
      if x in Elems(a) - {a[0]} {
        var i :| 0 <= i < |a| && a[i] == x;
        assert a[1..][i - 1] == x;
      }
    }
  }

  lemma SortedConcat(s: seq<string>, t: seq<string>)
    requires StrictlySorted(s) && StrictlySorted(t)
    requires forall x, y :: x in Elems(s) && y in Elems(t) ==> LexLess(x, y)
    ensures StrictlySorted(s + t)
    ensures Elems(s + t) == Elems(s) + Elems(t)
  {
    forall i, j | 0 <= i < j < |s + t| ensures LexLess((s + t)[i], (s + t)[j]) {
      if i < |s| <= j {
        assert s[i] in Elems(s) && t[j - |s|] in Elems(t);
      }
    }
  }

  /** Sorting two key sets, one entirely before the other, is sorting each in turn. */
  lemma SortedKeysSplit(a: set<string>, b: set<string>)
    requires forall x, y :: x in a && y in b ==> LexLess(x, y)
    ensures SortedKeys(a + b) == SortedKeys(a) + SortedKeys(b)
  {
    SortedConcat(SortedKeys(a), SortedKeys(b));
    SortedUnique(SortedKeys(a + b), SortedKeys(a) + SortedKeys(b));
  }

  // ---------------------------------------------------------------- separators

  predicate Free(s: string, c: char) { forall i :: 0 <= i < |s| ==> s[i] != c }

  /** Splitting at the first separator is unambiguous when the fronts do not contain it. */
  lemma {:induction false} SplitFirst(a: string, x: string, b: string, y: string, c: char)
    requires Free(a, c) && Free(b, c)
    requires a + [c] + x == b + [c] + y
    ensures a == b && x == y
  {
    var s := a + [c] + x;
    assert s[|a|] == c && s[|b|] == c;
    assert forall i :: 0 <= i < |a| ==> s[i] == a[i];
    assert forall i :: 0 <= i < |b| ==> s[i] == b[i];
    assert a == s[..|a|] && b == s[..|b|];
    assert x == s[|a| + 1..] && y == s[|b| + 1..];
  }

  /** Splitting at the last separator is unambiguous when the tails do not contain it. */
  lemma {:induction false} SplitLast(a: string, x: string, b: string, y: string, c: char)
    requires Free(x, c) && Free(y, c)
    requires a + [c] + x == b + [c] + y
    ensures a == b && x == y
  {
    var s := a + [c] + x;
    assert s[|a|] == c && s[|b|] == c;
    assert forall i :: |a| < i < |s| ==> s[i] == x[i - |a| - 1];
    assert forall i :: |b| < i < |s| ==> s[i] == y[i - |b| - 1];
    assert a == s[..|a|] && b == s[..|b|];
    assert x == s[|a| + 1..] && y == s[|b| + 1..];
  }

  /** A separator-terminated front is a prefix of another string only if the first
      separator-free component agrees. */
  lemma {:induction false} PrefixFirst(a: string, x: string, b: string, y: string, c: char)
    requires Free(a, c) && Free(b, c)
    requires a + [c] + x <= b + [c] + y
    ensures a == b && x <= y
  {
    var s := b + [c] + y;
    var rest := s[|a + [c] + x|..];
    assert s == a + [c] + x + rest;
    assert s == a + [c] + (x + rest);
    SplitFirst(a, x + rest, b, y, c);
  }

  lemma ConcatCancel(p: string, a: string, b: string)
    requires p + a == p + b
    ensures a == b
  {
    assert a == (p + a)[|p|..] && b == (p + b)[|p|..];
  }

  lemma PrefixCancel(p: string, a: string, b: string)
    ensures p + a <= p + b <==> a <= b
  {
    if p + a <= p + b {
      assert forall i :: 0 <= i < |a| ==> a[i] == (p + a)[|p| + i] == (p + b)[|p| + i] == b[i];
    }
  }
}
