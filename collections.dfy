/** Sequence utilities that mirror the JavaScript array operations the pages
    use: `filter`, `find`, and `sort` with a comparator. */
module Collections {

  datatype Option<+T> = None | Some(value: T) {
    function GetOr(default: T): T {
      match this
      case Some(v) => v
      case None => default
    }
  }

  /** `a` is an order-preserving subsequence of `b` (greedy matching). */
  predicate IsSubsequence<T(==)>(a: seq<T>, b: seq<T>)
    decreases |b|
  {
    if a == [] then true
    else if b == [] then false
    else if a[0] == b[0] then IsSubsequence(a[1..], b[1..])
    else IsSubsequence(a, b[1..])
  }

  /** `Array.prototype.filter`: the elements of `s` satisfying `p`, in order. */
  function Filter<T(==,!new)>(s: seq<T>, p: T -> bool): (r: seq<T>)
    ensures |r| <= |s|
    ensures forall x :: x in r <==> x in s && p(x)
  {
    if s == [] then []
    else
      assert s == [s[0]] + s[1..];
      var rest := Filter(s[1..], p);
      if p(s[0]) then [s[0]] + rest else rest
  }

  /** `filter` keeps every passing element as often as it occurs and drops
      every other one. */
  lemma {:induction false} FilterMultiplicity<T(!new)>(s: seq<T>, p: T -> bool)
    ensures forall x :: multiset(Filter(s, p))[x] == if p(x) then multiset(s)[x] else 0
  {
    if s != [] {
      assert s == [s[0]] + s[1..];
      FilterMultiplicity(s[1..], p);
    }
  }

  /** `filter` keeps the order of the elements it keeps. */
  lemma {:induction false} FilterIsSubsequence<T(!new)>(s: seq<T>, p: T -> bool)
    ensures IsSubsequence(Filter(s, p), s)
  {
    if s != [] {
      FilterIsSubsequence(s[1..], p);
    }
  }

  lemma {:induction false} FilterAppend<T(!new)>(s: seq<T>, t: seq<T>, p: T -> bool)
    ensures Filter(s + t, p) == Filter(s, p) + Filter(t, p)
  {
    if s == [] {
      assert s + t == t;
    } else {
      assert (s + t)[1..] == s[1..] + t;
      FilterAppend(s[1..], t, p);
    }
  }

  lemma {:induction false} FilterAllTrue<T(!new)>(s: seq<T>, p: T -> bool)
    requires forall i :: 0 <= i < |s| ==> p(s[i])
    ensures Filter(s, p) == s
  {
    if s != [] {
      FilterAllTrue(s[1..], p);
    }
  }

  /** Filtering by `p` and by its negation splits `s` into two parts. */
  lemma {:induction false} FilterComplement<T(!new)>(s: seq<T>, p: T -> bool, q: T -> bool)
    requires forall x :: q(x) == !p(x)
    ensures |Filter(s, p)| + |Filter(s, q)| == |s|
  {
    if s != [] {
      FilterComplement(s[1..], p, q);
    }
  }

  /** Filtering keeps the length exactly when every element passes. */
  lemma {:induction false} FilterKeepsLengthIffAll<T(!new)>(s: seq<T>, p: T -> bool)
    ensures |Filter(s, p)| == |s| <==> forall i :: 0 <= i < |s| ==> p(s[i])
  {
    if s != [] {
      var rest := s[1..];
      FilterKeepsLengthIffAll(rest, p);
      if p(s[0]) {
        assert Filter(s, p) == [s[0]] + Filter(rest, p);
        if forall i :: 0 <= i < |rest| ==> p(rest[i]) {
          forall i | 0 < i < |s| ensures p(s[i]) {
            assert s[i] == rest[i - 1];
          }
        } else {
          var i :| 0 <= i < |rest| && !p(rest[i]);
          assert s[i + 1] == rest[i];
        }
      } else {
        assert Filter(s, p) == Filter(rest, p);
      }
    }
  }

  /** Putting a related pair in front of two position-wise related
      sequences keeps them position-wise related. */
  lemma ConsPairwise<A, B>(rel: (A, B) -> bool, x: A, y: B, xs: seq<A>, ys: seq<B>)
    requires rel(x, y) && |xs| == |ys|
    requires forall k :: 0 <= k < |xs| ==> rel(xs[k], ys[k])
    ensures forall k :: 0 <= k < |xs| + 1 ==> rel(([x] + xs)[k], ([y] + ys)[k])
  {
    forall k | 1 <= k < |xs| + 1 ensures rel(([x] + xs)[k], ([y] + ys)[k]) {
      assert ([x] + xs)[k] == xs[k - 1] && ([y] + ys)[k] == ys[k - 1];
    }
  }

  /** Index of the first element satisfying `p`. */
  function FirstIndex<T>(s: seq<T>, p: T -> bool): (r: Option<nat>)
    ensures r.Some? ==> r.value < |s| && p(s[r.value])
                        && forall j :: 0 <= j < r.value ==> !p(s[j])
    ensures r.None? <==> forall j :: 0 <= j < |s| ==> !p(s[j])
  {
    if s == [] then None
    else if p(s[0]) then Some(0)
    else match FirstIndex(s[1..], p)
      case None => None
      case Some(k) => Some(k + 1)
  }

  /** `Array.prototype.find`: the first element satisfying `p`, if any. */
  function Find<T>(s: seq<T>, p: T -> bool): (r: Option<T>)
    ensures r.None? <==> forall j :: 0 <= j < |s| ==> !p(s[j])
    ensures r.Some? ==> exists i :: 0 <= i < |s| && s[i] == r.value && p(s[i])
                          && forall j :: 0 <= j < i ==> !p(s[j])
  {
    match FirstIndex(s, p)
    case None => None
    case Some(i) => Some(s[i])
  }

  /** `find` on a non-empty sequence looks at the head, then at the tail. */
  lemma FindCons<T>(s: seq<T>, p: T -> bool)
    requires s != []
    ensures Find(s, p) == if p(s[0]) then Some(s[0]) else Find(s[1..], p)
  {
    if !p(s[0]) {
      match FirstIndex(s[1..], p)
      case None =>
      case Some(k) => assert s[1..][k] == s[k + 1];
    }
  }

  /** Finding by `q` among the elements that pass `p` finds the first element
      that passes both. */
  lemma {:induction false} FindAfterFilter<T(!new)>(s: seq<T>, p: T -> bool, q: T -> bool, both: T -> bool)
    requires forall x :: both(x) == (p(x) && q(x))
    ensures Find(Filter(s, p), q) == Find(s, both)
  {
    if s != [] {
      FindAfterFilter(s[1..], p, q, both);
      FindCons(s, both);
      var rest := Filter(s[1..], p);
      if p(s[0]) {
        assert Filter(s, p) == [s[0]] + rest;
        FindCons([s[0]] + rest, q);
        assert ([s[0]] + rest)[1..] == rest;
      } else {
        assert Filter(s, p) == rest;
      }
    }
  }

  /** Appending elements never changes what `find` already found. */
  lemma {:induction false} FindAppend<T>(s: seq<T>, t: seq<T>, p: T -> bool)
    requires Find(s, p).Some?
    ensures Find(s + t, p) == Find(s, p)
  {
    if !p(s[0]) {
      assert (s + t)[1..] == s[1..] + t;
      FindAppend(s[1..], t, p);
    }
  }

  /** Appending to a sequence in which nothing matches: `find` sees only the new part. */
  lemma {:induction false} FindAppendMiss<T>(s: seq<T>, t: seq<T>, p: T -> bool)
    requires Find(s, p).None?
    ensures Find(s + t, p) == Find(t, p)
  {
    if s != [] {
      assert (s + t)[1..] == s[1..] + t;
      FindAppendMiss(s[1..], t, p);
    } else {
      assert s + t == t;
    }
  }

  /** `le` is total and transitive: what a consistent sort comparator gives. */
  ghost predicate TotalPreorder<T(!new)>(le: (T, T) -> bool) {
    && (forall x, y :: le(x, y) || le(y, x))
    && (forall x, y, z :: le(x, y) && le(y, z) ==> le(x, z))
  }

  ghost predicate SortedBy<T>(s: seq<T>, le: (T, T) -> bool) {
    forall i, j :: 0 <= i < j < |s| ==> le(s[i], s[j])
  }

  /** Inserts `x` before the first element it does not follow, so that equal
      elements keep their relative order. */
  function InsertBy<T(!new)>(x: T, s: seq<T>, le: (T, T) -> bool): (r: seq<T>)
    requires TotalPreorder(le)
    requires SortedBy(s, le)
    ensures SortedBy(r, le)
    ensures multiset(r) == multiset(s) + multiset{x}
    ensures forall y :: y in r <==> y == x || y in s
  {
    if s == [] then [x]
    else if le(x, s[0]) then
      SortedCons(x, s, le);
      [x] + s
    else
      assert s == [s[0]] + s[1..];
      var rest := InsertBy(x, s[1..], le);
      assert forall k :: 0 <= k < |rest| ==> le(s[0], rest[k]) by {
        forall k | 0 <= k < |rest| ensures le(s[0], rest[k]) {
          assert rest[k] in rest;
          if rest[k] != x {
            var m :| 0 <= m < |s[1..]| && s[1..][m] == rest[k];
            assert s[1 + m] == rest[k];
          }
        }
      }
      SortedCons(s[0], rest, le);
      [s[0]] + rest
  }

  /** A first element that every later one follows keeps a sorted sequence sorted. */
  lemma SortedCons<T>(x: T, s: seq<T>, le: (T, T) -> bool)
    requires SortedBy(s, le)
    requires forall k :: 0 <= k < |s| ==> le(x, s[k])
    ensures SortedBy([x] + s, le)
  {
    var r := [x] + s;
    forall i, j | 0 <= i < j < |r| ensures le(r[i], r[j]) {
      assert r[j] == s[j - 1];
      if i > 0 {
        assert r[i] == s[i - 1];
      }
    }
  }

  /** A stable sort by the comparator `le`, standing for `Array.prototype.sort`. */
  function SortBy<T(!new)>(s: seq<T>, le: (T, T) -> bool): (r: seq<T>)
    requires TotalPreorder(le)
    ensures SortedBy(r, le)
    ensures multiset(r) == multiset(s)
    ensures |r| == |s|
  {
    if s == [] then []
    else
      assert s == [s[0]] + s[1..];
      var r := InsertBy(s[0], SortBy(s[1..], le), le);
      assert |r| == |multiset(r)|;
      r
  }
}
