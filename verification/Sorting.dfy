/**
 Stable sorting by a comparison, as Python's `list.sort(key=...)` does it, and the few facts the
 other modules need: the result is a sorted permutation, a sorted list is left alone, and a strictly
 sorted list is determined by its members.
 */
module Sorting {
  import opened Counting

  ghost predicate Connected<T(!new)>(leq: (T, T) -> bool) {
    forall x, y :: leq(x, y) || leq(y, x)
  }

  ghost predicate Transitive<T(!new)>(leq: (T, T) -> bool) {
    forall x, y, z :: leq(x, y) && leq(y, z) ==> leq(x, z)
  }

  ghost predicate Sorted<T>(s: seq<T>, leq: (T, T) -> bool) {
    forall i, j :: 0 <= i < j < |s| ==> leq(s[i], s[j])
  }

  /** No two positions tie: the order of the elements is forced. */
  ghost predicate StrictlySorted<T>(s: seq<T>, leq: (T, T) -> bool) {
    forall i, j :: 0 <= i < j < |s| ==> leq(s[i], s[j]) && !leq(s[j], s[i])
  }

  function Insert<T>(x: T, s: seq<T>, leq: (T, T) -> bool): (r: seq<T>)
    ensures |r| == |s| + 1
  {
    if s == [] then [x]
    else if leq(x, s[0]) then [x] + s
    else [s[0]] + Insert(x, s[1..], leq)
  }

  /** Stable: an element goes before the later elements it ties with. */
  function Sort<T>(s: seq<T>, leq: (T, T) -> bool): (r: seq<T>)
    ensures |r| == |s|
  {
    if s == [] then [] else Insert(s[0], Sort(s[1..], leq), leq)
  }

  lemma {:induction false} InsertAddsOne<T>(x: T, s: seq<T>, leq: (T, T) -> bool)
    ensures multiset(Insert(x, s, leq)) == multiset{x} + multiset(s)
  {
    if s != [] {
      assert s == [s[0]] + s[1..];
      if !leq(x, s[0]) { InsertAddsOne(x, s[1..], leq); }
    }
  }

  lemma {:induction false} SortPermutes<T>(s: seq<T>, leq: (T, T) -> bool)
    ensures multiset(Sort(s, leq)) == multiset(s)
  {
    if s != [] {
      assert s == [s[0]] + s[1..];
      SortPermutes(s[1..], leq);
      InsertAddsOne(s[0], Sort(s[1..], leq), leq);
    }
  }

  lemma {:induction false} InsertMembers<T>(x: T, s: seq<T>, leq: (T, T) -> bool)
    ensures forall y :: y in Insert(x, s, leq) <==> y == x || y in s
  {
    if s != [] && !leq(x, s[0]) {
      assert s == [s[0]] + s[1..];
      InsertMembers(x, s[1..], leq);
    }
  }

  lemma {:induction false} InsertKeepsSorted<T(!new)>(x: T, s: seq<T>, leq: (T, T) -> bool)
    requires Connected(leq) && Transitive(leq) && Sorted(s, leq)
    ensures Sorted(Insert(x, s, leq), leq)
  {
    if s == [] {
    } else if leq(x, s[0]) {
      forall j | 0 < j <= |s| ensures leq(x, ([x] + s)[j]) {
        assert leq(s[0], s[0]);
      }
    } else {
      var t := Insert(x, s[1..], leq);
      InsertKeepsSorted(x, s[1..], leq);
      InsertMembers(x, s[1..], leq);
      forall j | 0 <= j < |t| ensures leq(s[0], t[j]) {
        assert t[j] == x || t[j] in s[1..];
      }
    }
  }

  lemma {:induction false} SortSorts<T(!new)>(s: seq<T>, leq: (T, T) -> bool)
    requires Connected(leq) && Transitive(leq)
    ensures Sorted(Sort(s, leq), leq)
  {
    if s != [] {
      SortSorts(s[1..], leq);
      InsertKeepsSorted(s[0], Sort(s[1..], leq), leq);
    }
  }

  lemma {:induction false} SortKeepsMembers<T>(s: seq<T>, leq: (T, T) -> bool)
    ensures forall x :: x in Sort(s, leq) <==> x in s
  {
    if s != [] {
      assert s == [s[0]] + s[1..];
      SortKeepsMembers(s[1..], leq);
      InsertMembers(s[0], Sort(s[1..], leq), leq);
    }
  }

  /** A list already in order is left alone. */
  lemma {:induction false} SortIsIdentityOnSorted<T(!new)>(s: seq<T>, leq: (T, T) -> bool)
    requires Sorted(s, leq)
    ensures Sort(s, leq) == s
  {
    if s != [] {
      SortIsIdentityOnSorted(s[1..], leq);
      assert s == [s[0]] + s[1..];
      if |s| > 1 { assert leq(s[0], s[1]); }
    }
  }

  /** Two orders that agree on the elements at hand sort them alike. */
  lemma {:induction false} SortCongruence<T(!new)>(s: seq<T>, leq: (T, T) -> bool, leq': (T, T) -> bool)
    requires forall x, y :: x in s && y in s ==> leq(x, y) == leq'(x, y)
    ensures Sort(s, leq) == Sort(s, leq')
  {
    if s != [] {
      SortCongruence(s[1..], leq, leq');
      SortKeepsMembers(s[1..], leq);
      InsertCongruence(s[0], Sort(s[1..], leq), leq, leq');
    }
  }

  lemma {:induction false} InsertCongruence<T(!new)>(x: T, s: seq<T>, leq: (T, T) -> bool, leq': (T, T) -> bool)
    requires forall y :: y in s ==> leq(x, y) == leq'(x, y)
    ensures Insert(x, s, leq) == Insert(x, s, leq')
  {
    if s != [] {
      assert s[0] in s;
      InsertCongruence(x, s[1..], leq, leq');
    }
  }

  lemma {:induction false} InsertKeepsDistinct<T>(x: T, s: seq<T>, leq: (T, T) -> bool)
    requires NoRepeats(s) && x !in s
    ensures NoRepeats(Insert(x, s, leq))
  {
    if s != [] && !leq(x, s[0]) {
      InsertKeepsDistinct(x, s[1..], leq);
      InsertMembers(x, s[1..], leq);
      var t := Insert(x, s[1..], leq);
      forall j | 0 <= j < |t| ensures t[j] != s[0] {
        assert t[j] in t;
      }
    }
  }

  lemma {:induction false} SortKeepsDistinct<T>(s: seq<T>, leq: (T, T) -> bool)
    requires NoRepeats(s)
    ensures NoRepeats(Sort(s, leq))
  {
    if s != [] {
      SortKeepsDistinct(s[1..], leq);
      SortKeepsMembers(s[1..], leq);
      InsertKeepsDistinct(s[0], Sort(s[1..], leq), leq);
    }
  }

  // ---- strict order ----

  lemma {:induction false} SameFirst<T(!new)>(a: seq<T>, b: seq<T>, leq: (T, T) -> bool)
    requires StrictlySorted(a, leq) && StrictlySorted(b, leq)
    requires a != [] && b != [] && forall x :: x in a <==> x in b
    ensures a[0] == b[0]
  {
    assert a[0] in b && b[0] in a;
    var i :| 0 <= i < |a| && a[i] == b[0];
    var j :| 0 <= j < |b| && b[j] == a[0];
  }

  lemma {:induction false} TailMembers<T(!new)>(a: seq<T>, leq: (T, T) -> bool)
    requires StrictlySorted(a, leq) && a != []
    ensures StrictlySorted(a[1..], leq)
    ensures forall x :: x in a[1..] <==> x in a && x != a[0]
  {
    assert a == [a[0]] + a[1..];
    forall k | 0 <= k < |a[1..]| ensures a[1..][k] != a[0] {
      assert leq(a[0], a[k + 1]) && !leq(a[k + 1], a[0]);
    }
  }

  /** A strictly ordered list is determined by its members. */
  lemma {:induction false} OrderedByMembers<T(!new)>(a: seq<T>, b: seq<T>, leq: (T, T) -> bool)
    requires StrictlySorted(a, leq) && StrictlySorted(b, leq)
    requires forall x :: x in a <==> x in b
    ensures a == b
    decreases |a|
  {
    assert b != [] ==> b[0] in a;
    if a != [] {
      assert a[0] in b;
      SameFirst(a, b, leq);
      TailMembers(a, leq);
      TailMembers(b, leq);
      OrderedByMembers(a[1..], b[1..], leq);
      assert a == [a[0]] + a[1..] && b == [b[0]] + b[1..];
    }
  }
}
