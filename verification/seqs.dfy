/** Query primitives over an in-memory collection: the model's stand-in for a document store. */
module Seqs {
  import opened Wrappers

  /** Position of the first element satisfying `p`, as `findOne` returns it. */
  function FirstIndex<T>(s: seq<T>, p: T -> bool): (r: Option<nat>)
    ensures r.Some? ==> r.value < |s| && p(s[r.value])
    ensures r.Some? ==> forall j :: 0 <= j < r.value ==> !p(s[j])
    ensures r.None? <==> forall j :: 0 <= j < |s| ==> !p(s[j])
    decreases |s|
  {
    if |s| == 0 then None
    else if p(s[0]) then Some(0)
    else
      match FirstIndex(s[1..], p)
      case None => None
      case Some(k) => Some(k + 1)
  }

  /** `findOneAndUpdate(filter, update, { new: true })` on a collection: the first element the
      filter matches is rewritten and returned, or nothing matches and the collection is unchanged. */
  function UpdateFirst<T>(s: seq<T>, filter: T -> bool, update: T -> T): (r: (Option<T>, seq<T>))
    ensures r.0.None? <==> forall i :: 0 <= i < |s| ==> !filter(s[i])
    ensures r.0.None? ==> r.1 == s
    ensures r.0.Some? ==> exists i :: 0 <= i < |s| && filter(s[i])
                                  && (forall j :: 0 <= j < i ==> !filter(s[j]))
                                  && r.0.value == update(s[i])
                                  && r.1 == s[i := update(s[i])]
  {
    match FirstIndex(s, filter)
    case None => (None, s)
    case Some(i) => (Some(update(s[i])), s[i := update(s[i])])
  }

  /** The elements satisfying `p`, in their original order, as `find` returns them. */
  function Filter<T(!new)>(s: seq<T>, p: T -> bool): (r: seq<T>)
    ensures |r| <= |s|
    ensures forall x :: x in r <==> x in s && p(x)
    ensures multiset(r) <= multiset(s)
    decreases |s|
  {
    if |s| == 0 then []
    else
      assert s == [s[0]] + s[1..];
      if p(s[0]) then [s[0]] + Filter(s[1..], p)
      else Filter(s[1..], p)
  }

  /** Filtering twice by the same predicate filters once. */
  lemma {:induction false} FilterIdempotent<T(!new)>(s: seq<T>, p: T -> bool)
    ensures Filter(Filter(s, p), p) == Filter(s, p)
    decreases |s|
  {
    if |s| > 0 {
      FilterIdempotent(s[1..], p);
      if p(s[0]) {
        assert Filter(s, p)[1..] == Filter(s[1..], p);
      }
    }
  }

  /** A filter every element passes keeps the sequence as it is. */
  lemma {:induction false} FilterKeepsAll<T(!new)>(s: seq<T>, p: T -> bool)
    requires forall i :: 0 <= i < |s| ==> p(s[i])
    ensures Filter(s, p) == s
    decreases |s|
  {
    if |s| > 0 {
      FilterKeepsAll(s[1..], p);
    }
  }

  /** Filters that agree on every element keep the same elements. */
  lemma {:induction false} FilterSamePredicate<T(!new)>(s: seq<T>, p: T -> bool, q: T -> bool)
    requires forall x :: p(x) == q(x)
    ensures Filter(s, p) == Filter(s, q)
    decreases |s|
  {
    if |s| > 0 {
      FilterSamePredicate(s[1..], p, q);
    }
  }

  /** Filtering distributes over concatenation: the kept elements keep their relative order. */
  lemma {:induction false} FilterConcat<T(!new)>(a: seq<T>, b: seq<T>, p: T -> bool)
    ensures Filter(a + b, p) == Filter(a, p) + Filter(b, p)
    decreases |a|
  {
    if |a| > 0 {
      assert (a + b)[1..] == a[1..] + b;
      FilterConcat(a[1..], b, p);
    } else {
      assert a + b == b;
    }
  }

  /** A property holds at every index of a four-element sequence exactly when it holds at each. */
  lemma AllOfFour<T>(s: seq<T>, p: T -> bool)
    requires |s| == 4
    ensures (forall i :: 0 <= i < |s| ==> p(s[i])) <==> p(s[0]) && p(s[1]) && p(s[2]) && p(s[3])
  {
  }

  /** A property holds at every index of a five-element sequence exactly when it holds at each. */
  lemma AllOfFive<T>(s: seq<T>, p: T -> bool)
    requires |s| == 5
    ensures (forall i :: 0 <= i < |s| ==> p(s[i])) <==> p(s[0]) && p(s[1]) && p(s[2]) && p(s[3]) && p(s[4])
  {
  }

  /** A property holds at every index of a seven-element sequence exactly when it holds at each. */
  lemma AllOfSeven<T>(s: seq<T>, p: T -> bool)
    requires |s| == 7
    ensures (forall i :: 0 <= i < |s| ==> p(s[i])) <==> p(s[0]) && p(s[1]) && p(s[2]) && p(s[3]) && p(s[4]) && p(s[5]) && p(s[6])
  {
  }

  /** `save()` keyed by `key`: every element with `x`'s key is replaced by `x`, or `x` is appended
      when none has it. */
  function Upsert<T, K(==)>(s: seq<T>, x: T, key: T -> K): (r: seq<T>)
    ensures x in r
    ensures forall y :: y in r ==> y == x || (y in s && key(y) != key(x))
    ensures forall y :: y in s && key(y) != key(x) ==> y in r
    ensures (forall i :: 0 <= i < |s| ==> key(s[i]) != key(x)) ==> r == s + [x]
  {
    match FirstIndex(s, (y: T) => key(y) == key(x))
    case None => s + [x]
    case Some(k) =>
      var r := seq(|s|, i requires 0 <= i < |s| => if key(s[i]) == key(x) then x else s[i]);
      assert r[k] == x;
      assert forall y :: y in s && key(y) != key(x) ==> y in r by {
        forall y | y in s && key(y) != key(x) ensures y in r {
          var j :| 0 <= j < |s| && s[j] == y;
          assert r[j] == y;
        }
      }
      r
  }

  /** Number of elements satisfying `p`, as `countDocuments` returns it. */
  function Count<T>(s: seq<T>, p: T -> bool): (n: nat)
    ensures n <= |s|
    ensures n == 0 <==> forall j :: 0 <= j < |s| ==> !p(s[j])
    decreases |s|
  {
    if |s| == 0 then 0
    else (if p(s[0]) then 1 else 0) + Count(s[1..], p)
  }

  /** Counting agrees with the length of the filtered sequence. */
  lemma {:induction false} CountIsFilterLength<T(!new)>(s: seq<T>, p: T -> bool)
    ensures Count(s, p) == |Filter(s, p)|
    decreases |s|
  {
    if |s| > 0 {
      CountIsFilterLength(s[1..], p);
    }
  }

  /** A stronger filter counts no more elements than a weaker one. */
  lemma {:induction false} CountMonotone<T>(s: seq<T>, p: T -> bool, q: T -> bool)
    requires forall x :: p(x) ==> q(x)
    ensures Count(s, p) <= Count(s, q)
    decreases |s|
  {
    if |s| > 0 {
      CountMonotone(s[1..], p, q);
    }
  }

  /** Two disjoint filters together count no more than a filter that covers both. */
  lemma {:induction false} CountDisjointSum<T>(s: seq<T>, p: T -> bool, q: T -> bool, u: T -> bool)
    requires forall x :: !(p(x) && q(x))
    requires forall x :: p(x) || q(x) ==> u(x)
    ensures Count(s, p) + Count(s, q) <= Count(s, u)
    decreases |s|
  {
    if |s| > 0 {
      CountDisjointSum(s[1..], p, q, u);
    }
  }

  /** Concatenation of the parts with `sep` between consecutive parts, as `Array.prototype.join`. */
  function Join(parts: seq<string>, sep: string): (r: string)
    ensures |parts| == 0 ==> r == []
    ensures |parts| == 1 ==> r == parts[0]
    ensures |parts| > 0 ==> |parts[0]| <= |r| && r[..|parts[0]|] == parts[0]
    decreases |parts|
  {
    if |parts| == 0 then []
    else if |parts| == 1 then parts[0]
    else parts[0] + sep + Join(parts[1..], sep)
  }

  /** Decimal rendering of a natural number, as JavaScript's template literals print it. */
  function NatToString(n: nat): (r: string)
    ensures |r| > 0
    ensures forall i :: 0 <= i < |r| ==> '0' <= r[i] <= '9'
    decreases n
  {
    if n < 10 then [DigitChar(n)]
    else NatToString(n / 10) + [DigitChar(n % 10)]
  }

  /** The ASCII digit for a value below ten. */
  function DigitChar(d: nat): (c: char)
    requires d < 10
    ensures '0' <= c <= '9'
    ensures c as int - '0' as int == d
  {
    ('0' as int + d) as char
  }
}
