/**
 * `sorted(data, key=lambda x: x['BeginTime'])`: Python's sort is stable, so
 * the result is ordered by begin time and sentences with equal begin times
 * keep their relative order. The model is an insertion sort with those
 * properties, and `SortUnique` shows that they determine the result, so any
 * stable sort by begin time (Python's included) gives the same sequence.
 */
module Sorting {
  import opened Transcript

  predicate SortedByBegin(s: seq<Sentence>)
  {
    forall i, j :: 0 <= i < j < |s| ==> s[i].beginTime <= s[j].beginTime
  }

  /** The sentences of s that begin at time k, in their order in s. */
  function WithBegin(s: seq<Sentence>, k: int): seq<Sentence>
  {
    if s == [] then []
    else (if s[0].beginTime == k then [s[0]] else []) + WithBegin(s[1..], k)
  }

  /** WithBegin keeps exactly the sentences that begin at k. */
  lemma {:induction false} WithBeginMembers(s: seq<Sentence>, k: int, x: Sentence)
    ensures x in WithBegin(s, k) <==> x in s && x.beginTime == k
  {
    if s != [] {
      WithBeginMembers(s[1..], k, x);
      assert x in s <==> x == s[0] || x in s[1..];
    }
  }

  /** Insert x before the first element that does not begin strictly earlier. */
  function Insert(x: Sentence, r: seq<Sentence>): seq<Sentence>
  {
    if r == [] || x.beginTime <= r[0].beginTime then [x] + r
    else [r[0]] + Insert(x, r[1..])
  }

  /** Insert adds x and keeps every sentence of r, as many times as r holds it. */
  lemma {:induction false} InsertPermutes(x: Sentence, r: seq<Sentence>)
    ensures multiset(Insert(x, r)) == multiset(r) + multiset{x}
  {
    if r != [] && x.beginTime > r[0].beginTime {
      InsertPermutes(x, r[1..]);
      assert r == [r[0]] + r[1..];
    }
  }

  lemma {:induction false} InsertMembers(x: Sentence, r: seq<Sentence>, y: Sentence)
    ensures y in Insert(x, r) <==> y == x || y in r
  {
    if r != [] && x.beginTime > r[0].beginTime {
      InsertMembers(x, r[1..], y);
      assert r == [r[0]] + r[1..];
    }
  }

  lemma {:induction false} InsertSorted(x: Sentence, r: seq<Sentence>)
    requires SortedByBegin(r)
    ensures SortedByBegin(Insert(x, r))
  {
    if r != [] && x.beginTime > r[0].beginTime {
      var rest := Insert(x, r[1..]);
      InsertSorted(x, r[1..]);
      assert r == [r[0]] + r[1..];
      forall y | y in rest ensures r[0].beginTime <= y.beginTime {
        InsertMembers(x, r[1..], y);
      }
    }
  }

  /** Inserting x puts it ahead of every sentence that begins at the same time. */
  lemma {:induction false} InsertStable(x: Sentence, r: seq<Sentence>, k: int)
    ensures WithBegin(Insert(x, r), k) == (if x.beginTime == k then [x] else []) + WithBegin(r, k)
  {
    if r == [] || x.beginTime <= r[0].beginTime {
      WithBeginCons(x, r, k);
    } else {
      var rest := Insert(x, r[1..]);
      InsertStable(x, r[1..], k);
      WithBeginCons(r[0], rest, k);
      assert [r[0]] + r[1..] == r;
      WithBeginCons(r[0], r[1..], k);
      if r[0].beginTime == k {
        assert WithBegin(rest, k) == WithBegin(r[1..], k);
        assert WithBegin(Insert(x, r), k) == [r[0]] + WithBegin(r[1..], k);
      } else if x.beginTime == k {
        assert WithBegin(Insert(x, r), k) == WithBegin(rest, k);
        assert WithBegin(r, k) == WithBegin(r[1..], k);
      } else {
        assert WithBegin(rest, k) == WithBegin(r[1..], k);
        assert WithBegin(Insert(x, r), k) == WithBegin(rest, k);
        assert WithBegin(r, k) == WithBegin(r[1..], k);
      }
    }
  }

  lemma WithBeginCons(y: Sentence, s: seq<Sentence>, k: int)
    ensures WithBegin([y] + s, k) == if y.beginTime == k then [y] + WithBegin(s, k) else WithBegin(s, k)
  {
    assert ([y] + s)[1..] == s;
  }

  /** The stable sort by begin time. */
  function SortByBegin(s: seq<Sentence>): seq<Sentence>
  {
    if s == [] then [] else Insert(s[0], SortByBegin(s[1..]))
  }

  /** The sort is a permutation of its input. */
  lemma {:induction false} SortPermutes(s: seq<Sentence>)
    ensures multiset(SortByBegin(s)) == multiset(s)
  {
    if s != [] {
      SortPermutes(s[1..]);
      InsertPermutes(s[0], SortByBegin(s[1..]));
      assert s == [s[0]] + s[1..];
    }
  }

  lemma {:induction false} SortSorted(s: seq<Sentence>)
    ensures SortedByBegin(SortByBegin(s))
  {
    if s != [] {
      SortSorted(s[1..]);
      InsertSorted(s[0], SortByBegin(s[1..]));
    }
  }

  /** Sentences that begin at the same time keep their relative order. */
  lemma {:induction false} SortStable(s: seq<Sentence>, k: int)
    ensures WithBegin(SortByBegin(s), k) == WithBegin(s, k)
  {
    if s != [] {
      SortStable(s[1..], k);
      InsertStable(s[0], SortByBegin(s[1..]), k);
    }
  }

  lemma {:induction false} SortedHead(b: seq<Sentence>, y: Sentence)
    requires SortedByBegin(b) && y in b
    ensures b[0].beginTime <= y.beginTime
  {
    var i :| 0 <= i < |b| && b[i] == y;
    if i > 0 {
      assert b[0].beginTime <= b[i].beginTime;
    }
  }

  /** A sequence with no sentence of any begin time is empty. */
  lemma NothingBeginsIn(b: seq<Sentence>)
    requires forall k :: WithBegin(b, k) == []
    ensures b == []
  {
    if b != [] {
      var k := b[0].beginTime;
      WithBeginMembers(b, k, b[0]);
    }
  }

  /**
   * A sequence sorted by begin time is determined by its sentences of each
   * begin time, in order: two sorted sequences that agree on every WithBegin
   * are equal.
   */
  lemma {:induction false} SortedDetermined(a: seq<Sentence>, b: seq<Sentence>)
    requires SortedByBegin(a) && SortedByBegin(b)
    requires forall k :: WithBegin(a, k) == WithBegin(b, k)
    ensures a == b
    decreases |a| + |b|
  {
    if a == [] {
      NothingBeginsIn(b);
    } else if b == [] {
      NothingBeginsIn(a);
    } else {
      var k0 := a[0].beginTime;
      assert b[0].beginTime == k0 by {
        WithBeginMembers(a, k0, a[0]);
        assert WithBegin(a, k0) == WithBegin(b, k0);
        WithBeginMembers(b, k0, a[0]);
        SortedHead(b, a[0]);
        var k1 := b[0].beginTime;
        WithBeginMembers(b, k1, b[0]);
        assert WithBegin(a, k1) == WithBegin(b, k1);
        WithBeginMembers(a, k1, b[0]);
        SortedHead(a, b[0]);
      }
      forall k ensures WithBegin(a[1..], k) == WithBegin(b[1..], k) {
        assert WithBegin(a, k) == WithBegin(b, k);
        if k == k0 {
          assert WithBegin(a[1..], k) == WithBegin(a, k)[1..];
          assert WithBegin(b[1..], k) == WithBegin(b, k)[1..];
        } else {
          assert WithBegin(a, k) == WithBegin(a[1..], k);
          assert WithBegin(b, k) == WithBegin(b[1..], k);
        }
      }
      assert a[0] == b[0] by {
        assert WithBegin(a, k0) == WithBegin(b, k0);
        assert WithBegin(a, k0)[0] == a[0];
        assert WithBegin(b, k0)[0] == b[0];
      }
      assert SortedByBegin(a[1..]) && SortedByBegin(b[1..]);
      SortedDetermined(a[1..], b[1..]);
      assert a == [a[0]] + a[1..] && b == [b[0]] + b[1..];
    }
  }

  /**
   * Any ordering of s by begin time that keeps the order of equal begin times
   * (a stable sort, as Python's `sorted` is) is SortByBegin(s).
   */
  lemma SortUnique(s: seq<Sentence>, o: seq<Sentence>)
    requires SortedByBegin(o)
    requires forall k :: WithBegin(o, k) == WithBegin(s, k)
    ensures o == SortByBegin(s)
  {
    SortSorted(s);
    forall k ensures WithBegin(o, k) == WithBegin(SortByBegin(s), k) {
      SortStable(s, k);
    }
    SortedDetermined(o, SortByBegin(s));
  }
}
