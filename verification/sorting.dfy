/** A stable sort on sequences, the model of both the store's `.sort(...)` and JavaScript's `Array.prototype.sort`. */
module Sorting {

  /** `le` is total and transitive: a sort order with possible ties. */
  ghost predicate TotalPreorder<T(!new)>(le: (T, T) -> bool)
  {
    && (forall a, b :: le(a, b) || le(b, a))
    && (forall a, b, c :: le(a, b) && le(b, c) ==> le(a, c))
  }

  /** Every earlier element is ordered before every later one. */
  ghost predicate SortedBy<T>(le: (T, T) -> bool, s: seq<T>)
  {
    forall i, j :: 0 <= i < j < |s| ==> le(s[i], s[j])
  }

  /** Places `x` before the first element it is ordered before, so `x` precedes its ties. */
  function Insert<T(!new)>(le: (T, T) -> bool, x: T, s: seq<T>): (r: seq<T>)
    requires TotalPreorder(le)
    requires SortedBy(le, s)
    ensures SortedBy(le, r)
    ensures multiset(r) == multiset(s) + multiset{x}
    ensures |r| == |s| + 1
    decreases |s|
  {
    if |s| == 0 then [x]
    else if le(x, s[0]) then
      LeadsAll(le, x, s);
      ConsSorted(le, x, s);
      [x] + s
    else
      assert s == [s[0]] + s[1..];
      var rest := Insert(le, x, s[1..]);
      RestAboveHead(le, x, s, rest);
      ConsSorted(le, s[0], rest);
      [s[0]] + rest
  }

  /** An element ordered before the head of a sorted sequence is ordered before all of it. */
  lemma LeadsAll<T(!new)>(le: (T, T) -> bool, x: T, s: seq<T>)
    requires TotalPreorder(le) && SortedBy(le, s)
    requires |s| > 0 && le(x, s[0])
    ensures forall y :: y in s ==> le(x, y)
  {
    forall y | y in s ensures le(x, y) {
      var k :| 0 <= k < |s| && s[k] == y;
      if k > 0 {
        assert le(s[0], s[k]);
      }
    }
  }

  /** The head of a sorted sequence is ordered before everything inserted after it. */
  lemma RestAboveHead<T(!new)>(le: (T, T) -> bool, x: T, s: seq<T>, rest: seq<T>)
    requires TotalPreorder(le) && SortedBy(le, s)
    requires |s| > 0 && !le(x, s[0])
    requires multiset(rest) == multiset(s[1..]) + multiset{x}
    ensures forall y :: y in rest ==> le(s[0], y)
  {
    forall y | y in rest ensures le(s[0], y) {
      assert y in multiset(rest);
      if y != x {
        assert y in multiset(s[1..]);
        var k :| 0 <= k < |s[1..]| && s[1..][k] == y;
        assert s[k + 1] == y;
      }
    }
  }

  /** A sorted sequence stays sorted behind an element ordered before all of it. */
  lemma ConsSorted<T>(le: (T, T) -> bool, h: T, rest: seq<T>)
    requires SortedBy(le, rest)
    requires forall y :: y in rest ==> le(h, y)
    ensures SortedBy(le, [h] + rest)
  {
    var r := [h] + rest;
    forall i, j | 0 <= i < j < |r| ensures le(r[i], r[j]) {
      assert r[j] == rest[j - 1];
      if i > 0 {
        assert r[i] == rest[i - 1];
      } else {
        assert rest[j - 1] in rest;
      }
    }
  }

  /** Insertion sort that keeps equal elements in their input order. */
  function Sort<T(!new)>(le: (T, T) -> bool, s: seq<T>): (r: seq<T>)
    requires TotalPreorder(le)
    ensures SortedBy(le, r)
    ensures multiset(r) == multiset(s)
    ensures |r| == |s|
    decreases |s|
  {
    if |s| == 0 then []
    else
      assert s == [s[0]] + s[1..];
      Insert(le, s[0], Sort(le, s[1..]))
  }

  /** The first `n` entries of a sorted sequence are drawn from it and ordered before every entry
      they leave out. */
  lemma PrefixLeads<T>(le: (T, T) -> bool, s: seq<T>, n: nat)
    requires SortedBy(le, s) && n <= |s|
    ensures multiset(s[..n]) <= multiset(s)
    ensures forall x, y :: x in s[..n] && y in s && y !in s[..n] ==> le(x, y)
  {
    assert s == s[..n] + s[n..];
    assert multiset(s) == multiset(s[..n]) + multiset(s[n..]);
    forall x, y | x in s[..n] && y in s && y !in s[..n] ensures le(x, y) {
      var i :| 0 <= i < n && s[..n][i] == x;
      var k :| 0 <= k < |s| && s[k] == y;
      assert s[i] == x;
    }
  }

  /** Sorting keeps exactly the elements it was given. */
  lemma SortSameElements<T(!new)>(le: (T, T) -> bool, s: seq<T>)
    requires TotalPreorder(le)
    ensures forall x :: x in Sort(le, s) <==> x in s
  {
    var r := Sort(le, s);
    forall x ensures x in r <==> x in s {
      assert x in r <==> x in multiset(r);
      assert x in s <==> x in multiset(s);
    }
  }
}
