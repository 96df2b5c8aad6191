/**
 * Order-preserving selection over sequences, and the two shapes of ordering
 * the content store keeps: a key that strictly decreases along a sequence
 * ("newest first") and a key that no two elements share ("unique").
 */
module Seqs {

  /** The elements of `s` that satisfy `f`, in their original order. */
  function Filter<T(==)>(s: seq<T>, f: T -> bool): (r: seq<T>)
    ensures |r| <= |s|
    ensures forall x | x in r :: x in s && f(x)
    ensures forall x | x in s && f(x) :: x in r
  {
    if s == [] then []
    else
      assert s == [s[0]] + s[1..];
      (if f(s[0]) then [s[0]] else []) + Filter(s[1..], f)
  }

  /** `a` is obtained from `b` by dropping elements, keeping the order of the rest. */
  predicate Subseq<T(==)>(a: seq<T>, b: seq<T>)
    decreases |b|
  {
    a == [] || (b != [] && ((a[0] == b[0] && Subseq(a[1..], b[1..])) || Subseq(a, b[1..])))
  }

  /** `key` strictly decreases from each element to every later one. */
  predicate Descending<T>(s: seq<T>, key: T -> int)
  {
    forall i, j | 0 <= i < j < |s| :: key(s[i]) > key(s[j])
  }

  /** No two elements of `s` share a `key`. */
  predicate UniqueBy<T, K(==)>(s: seq<T>, key: T -> K)
  {
    forall i, j | 0 <= i < j < |s| :: key(s[i]) != key(s[j])
  }

  lemma {:induction false} SubseqMembers<T>(a: seq<T>, b: seq<T>)
    requires Subseq(a, b)
    ensures forall x | x in a :: x in b
    decreases |b|
  {
    if a != [] {
      if a[0] == b[0] && Subseq(a[1..], b[1..]) {
        SubseqMembers(a[1..], b[1..]);
        assert a == [a[0]] + a[1..];
        assert b == [b[0]] + b[1..];
      } else {
        SubseqMembers(a, b[1..]);
        assert b == [b[0]] + b[1..];
      }
    }
  }

  /** Filtering drops elements and never reorders the ones it keeps. */
  lemma {:induction false} FilterIsSubseq<T>(s: seq<T>, f: T -> bool)
    ensures Subseq(Filter(s, f), s)
  {
    if s != [] {
      FilterIsSubseq(s[1..], f);
      var r := Filter(s, f);
      if f(s[0]) {
        assert r == [s[0]] + Filter(s[1..], f);
        assert r[0] == s[0] && r[1..] == Filter(s[1..], f);
      } else {
        assert r == Filter(s[1..], f);
      }
    }
  }

  lemma {:induction false} SubseqDescending<T>(a: seq<T>, b: seq<T>, key: T -> int)
    requires Subseq(a, b) && Descending(b, key)
    ensures Descending(a, key)
    decreases |b|
  {
    if a != [] {
      var b' := b[1..];
      assert Descending(b', key) by {
        forall i, j | 0 <= i < j < |b'| ensures key(b'[i]) > key(b'[j]) {
          assert b'[i] == b[i + 1] && b'[j] == b[j + 1];
        }
      }
      if a[0] == b[0] && Subseq(a[1..], b') {
        SubseqDescending(a[1..], b', key);
        SubseqMembers(a[1..], b');
        forall i, j | 0 <= i < j < |a| ensures key(a[i]) > key(a[j]) {
          assert a[j] == a[1..][j - 1];
          if i == 0 {
            assert a[j] in b';
            var k :| 0 <= k < |b'| && b'[k] == a[j];
            assert b[k + 1] == a[j];
          } else {
            assert a[i] == a[1..][i - 1];
          }
        }
      } else {
        SubseqDescending(a, b', key);
      }
    }
  }

  lemma {:induction false} SubseqUnique<T, K>(a: seq<T>, b: seq<T>, key: T -> K)
    requires Subseq(a, b) && UniqueBy(b, key)
    ensures UniqueBy(a, key)
    decreases |b|
  {
    if a != [] {
      var b' := b[1..];
      assert UniqueBy(b', key) by {
        forall i, j | 0 <= i < j < |b'| ensures key(b'[i]) != key(b'[j]) {
          assert b'[i] == b[i + 1] && b'[j] == b[j + 1];
        }
      }
      if a[0] == b[0] && Subseq(a[1..], b') {
        SubseqUnique(a[1..], b', key);
        SubseqMembers(a[1..], b');
        forall i, j | 0 <= i < j < |a| ensures key(a[i]) != key(a[j]) {
          assert a[j] == a[1..][j - 1];
          if i == 0 {
            assert a[j] in b';
            var k :| 0 <= k < |b'| && b'[k] == a[j];
            assert b[k + 1] == a[j];
          } else {
            assert a[i] == a[1..][i - 1];
          }
        }
      } else {
        SubseqUnique(a, b', key);
      }
    }
  }

  /** A filtered sequence keeps a strictly decreasing key strictly decreasing. */
  lemma FilterDescending<T>(s: seq<T>, f: T -> bool, key: T -> int)
    requires Descending(s, key)
    ensures Descending(Filter(s, f), key)
  {
    FilterIsSubseq(s, f);
    SubseqDescending(Filter(s, f), s, key);
  }

  /** A filtered sequence keeps a unique key unique. */
  lemma FilterUnique<T, K>(s: seq<T>, f: T -> bool, key: T -> K)
    requires UniqueBy(s, key)
    ensures UniqueBy(Filter(s, f), key)
  {
    FilterIsSubseq(s, f);
    SubseqUnique(Filter(s, f), s, key);
  }

  /** Filtering with a condition every element meets changes nothing. */
  lemma {:induction false} FilterKeepsAll<T>(s: seq<T>, f: T -> bool)
    requires forall x | x in s :: f(x)
    ensures Filter(s, f) == s
  {
    if s != [] {
      assert s[0] in s;
      assert forall x | x in s[1..] :: x in s;
      FilterKeepsAll(s[1..], f);
      assert s == [s[0]] + s[1..];
    }
  }

  /** Filtering with a condition no element meets leaves nothing. */
  lemma {:induction false} FilterKeepsNone<T>(s: seq<T>, f: T -> bool)
    requires forall x | x in s :: !f(x)
    ensures Filter(s, f) == []
  {
    if s != [] {
      assert s[0] in s;
      assert forall x | x in s[1..] :: x in s;
      FilterKeepsNone(s[1..], f);
    }
  }

  /** Filtering distributes over concatenation. */
  lemma {:induction false} FilterAppend<T>(a: seq<T>, b: seq<T>, f: T -> bool)
    ensures Filter(a + b, f) == Filter(a, f) + Filter(b, f)
  {
    if a == [] {
      assert a + b == b;
    } else {
      var ab := a + b;
      assert ab != [] && ab[0] == a[0] && ab[1..] == a[1..] + b;
      var head := if f(a[0]) then [a[0]] else [];
      calc {
        Filter(ab, f);
        head + Filter(a[1..] + b, f);
        { FilterAppend(a[1..], b, f); }
        head + (Filter(a[1..], f) + Filter(b, f));
        (head + Filter(a[1..], f)) + Filter(b, f);
        Filter(a, f) + Filter(b, f);
      }
    }
  }

  /** Two members of a sequence with the same unique key are the same element. */
  lemma UniqueByMembers<T, K>(s: seq<T>, key: T -> K, x: T, y: T)
    requires UniqueBy(s, key) && x in s && y in s && key(x) == key(y)
    ensures x == y
  {
    var i :| 0 <= i < |s| && s[i] == x;
    var j :| 0 <= j < |s| && s[j] == y;
    if i < j {
      assert key(s[i]) != key(s[j]);
    } else if j < i {
      assert key(s[j]) != key(s[i]);
    }
  }

  /** Putting in front an element whose key exceeds every other keeps the order. */
  lemma ConsDescending<T>(x: T, s: seq<T>, key: T -> int)
    requires Descending(s, key)
    requires forall y | y in s :: key(y) < key(x)
    ensures Descending([x] + s, key)
  {
    var t := [x] + s;
    forall i, j | 0 <= i < j < |t| ensures key(t[i]) > key(t[j]) {
      assert t[j] == s[j - 1];
      if i == 0 {
        assert s[j - 1] in s;
      } else {
        assert t[i] == s[i - 1];
      }
    }
  }

  /** Putting in front an element with a fresh key keeps the key unique. */
  lemma ConsUnique<T, K>(x: T, s: seq<T>, key: T -> K)
    requires UniqueBy(s, key)
    requires forall y | y in s :: key(y) != key(x)
    ensures UniqueBy([x] + s, key)
  {
    var t := [x] + s;
    forall i, j | 0 <= i < j < |t| ensures key(t[i]) != key(t[j]) {
      assert t[j] == s[j - 1];
      if i == 0 {
        assert s[j - 1] in s;
      } else {
        assert t[i] == s[i - 1];
      }
    }
  }

  /** Appending an element with a fresh key keeps the key unique. */
  lemma SnocUnique<T, K>(s: seq<T>, x: T, key: T -> K)
    requires UniqueBy(s, key)
    requires forall y | y in s :: key(y) != key(x)
    ensures UniqueBy(s + [x], key)
  {
    var t := s + [x];
    forall i, j | 0 <= i < j < |t| ensures key(t[i]) != key(t[j]) {
      assert t[i] == s[i];
      if j == |s| {
        assert s[i] in s;
      } else {
        assert t[j] == s[j];
      }
    }
  }
}
