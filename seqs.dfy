/**
 * Sequence helpers shared by the recency order of the LRU container:
 * duplicate-freedom and removal of one element while keeping the
 * relative order of all others.
 */
module Seqs {

  /** No element occurs twice. */
  predicate NoDup<T(==)>(s: seq<T>) {
    forall i, j :: 0 <= i < j < |s| ==> s[i] != s[j]
  }

  /** `s` with every occurrence of `x` removed; the others keep their order. */
  function Without<T(==)>(s: seq<T>, x: T): (r: seq<T>)
    ensures forall i :: 0 <= i < |r| ==> r[i] != x
    ensures |r| <= |s|
  {
    if s == [] then [] else (if s[0] == x then [] else [s[0]]) + Without(s[1..], x)
  }

  /** `Without(s, x)` holds exactly the elements of `s` other than `x`. */
  lemma {:induction false} WithoutMembers<T>(s: seq<T>, x: T)
    ensures forall i :: 0 <= i < |Without(s, x)| ==> Without(s, x)[i] in s
    ensures forall i :: 0 <= i < |s| && s[i] != x ==> s[i] in Without(s, x)
  {
    if s != [] {
      WithoutMembers(s[1..], x);
      var r, t := Without(s, x), Without(s[1..], x);
      forall i | 0 <= i < |r|
        ensures r[i] in s
      {
        if s[0] != x && i == 0 {
        } else {
          var k := if s[0] == x then i else i - 1;
          assert r[i] == t[k];
        }
      }
      forall i | 0 <= i < |s| && s[i] != x
        ensures s[i] in r
      {
        if i > 0 {
          assert s[i] == s[1..][i - 1];
        }
      }
    }
  }

  /** `x` moved to the back of `s` (appended when it was absent). */
  function Touch<T(==)>(s: seq<T>, x: T): (r: seq<T>)
    ensures |r| > 0 && r[|r| - 1] == x
  {
    Without(s, x) + [x]
  }

  /** `Touch(s, x)` holds exactly the elements of `s` and `x`. */
  lemma TouchMembers<T>(s: seq<T>, x: T)
    ensures forall i :: 0 <= i < |Touch(s, x)| ==> Touch(s, x)[i] in s || Touch(s, x)[i] == x
    ensures forall i :: 0 <= i < |s| ==> s[i] in Touch(s, x)
  {
    WithoutMembers(s, x);
    var w := Without(s, x);
    forall i | 0 <= i < |Touch(s, x)|
      ensures Touch(s, x)[i] in s || Touch(s, x)[i] == x
    {
      if i < |w| {
        assert Touch(s, x)[i] == w[i];
      }
    }
    forall i | 0 <= i < |s|
      ensures s[i] in Touch(s, x)
    {
      if s[i] != x {
        var j :| 0 <= j < |w| && w[j] == s[i];
        assert Touch(s, x)[j] == s[i];
      }
    }
  }

  lemma {:induction false} WithoutAbsent<T>(s: seq<T>, x: T)
    requires x !in s
    ensures Without(s, x) == s
  {
    if s != [] {
      WithoutAbsent(s[1..], x);
    }
  }

  lemma {:induction false} WithoutAppend<T>(a: seq<T>, b: seq<T>, x: T)
    ensures Without(a + b, x) == Without(a, x) + Without(b, x)
  {
    if a == [] {
      assert a + b == b;
    } else {
      assert (a + b)[1..] == a[1..] + b;
      WithoutAppend(a[1..], b, x);
    }
  }

  /** Removing an element that occurs once, at index `i`, cuts out exactly that index. */
  lemma {:induction false} WithoutAt<T>(s: seq<T>, i: nat)
    requires NoDup(s) && i < |s|
    ensures Without(s, s[i]) == s[..i] + s[i + 1..]
  {
    if i == 0 {
      assert s[0] !in s[1..];
      WithoutAbsent(s[1..], s[0]);
    } else {
      var t := s[1..];
      assert NoDup(t) by {
        forall a, b | 0 <= a < b < |t|
          ensures t[a] != t[b]
        {
          assert t[a] == s[a + 1] && t[b] == s[b + 1];
        }
      }
      assert s[0] != s[i];
      WithoutAt(t, i - 1);
      assert t[i - 1] == s[i];
      calc {
        Without(s, s[i]);
        [s[0]] + Without(t, s[i]);
        [s[0]] + (t[..i - 1] + t[i..]);
        { assert [s[0]] + t[..i - 1] == s[..i]; assert t[i..] == s[i + 1..]; }
        s[..i] + s[i + 1..];
      }
    }
  }

  lemma {:induction false} WithoutNoDup<T>(s: seq<T>, x: T)
    requires NoDup(s)
    ensures NoDup(Without(s, x))
  {
    if s != [] {
      assert NoDup(s[1..]);
      WithoutNoDup(s[1..], x);
      WithoutMembers(s[1..], x);
      assert s[0] !in s[1..];
    }
  }

  lemma {:induction false} WithoutIdempotent<T>(s: seq<T>, x: T)
    ensures Without(Without(s, x), x) == Without(s, x)
  {
    WithoutAbsent(Without(s, x), x);
  }

  /** Touching keeps every other element in its relative order. */
  lemma TouchKeepsOthers<T>(s: seq<T>, x: T)
    ensures Without(Touch(s, x), x) == Without(s, x)
  {
    WithoutAppend(Without(s, x), [x], x);
    WithoutIdempotent(s, x);
    assert Without([x], x) == [];
  }

  /** Touching a duplicate-free sequence keeps it duplicate-free and of the same length when `x` was in it. */
  lemma TouchNoDup<T>(s: seq<T>, x: T)
    requires NoDup(s)
    ensures NoDup(Touch(s, x))
    ensures x in s ==> |Touch(s, x)| == |s|
    ensures x !in s ==> Touch(s, x) == s + [x]
  {
    WithoutNoDup(s, x);
    if x in s {
      var i :| 0 <= i < |s| && s[i] == x;
      WithoutAt(s, i);
    } else {
      WithoutAbsent(s, x);
    }
  }

  /** Touching twice is touching once. */
  lemma TouchIdempotent<T>(s: seq<T>, x: T)
    ensures Touch(Touch(s, x), x) == Touch(s, x)
  {
    TouchKeepsOthers(s, x);
  }

  /** Dropping the front and appending a new element keeps a sequence duplicate-free. */
  lemma DropFrontAppend<T>(s: seq<T>, x: T)
    requires NoDup(s) && x !in s && s != []
    ensures NoDup(s[1..] + [x])
    ensures s[0] !in s[1..] + [x]
    ensures Without(s[1..] + [x], x) == s[1..]
  {
    var t := s[1..] + [x];
    forall i, j | 0 <= i < j < |t|
      ensures t[i] != t[j]
    {
      if j < |t| - 1 {
        assert t[i] == s[i + 1] && t[j] == s[j + 1];
      }
    }
    WithoutAppend(s[1..], [x], x);
    WithoutAbsent(s[1..], x);
  }

  /** `s` with its `i`-th element moved to the back. */
  function Rotated<T>(s: seq<T>, i: nat): (t: seq<T>)
    requires i < |s|
    ensures |t| == |s| && t[|t| - 1] == s[i]
    ensures forall j {:trigger t[j]} :: 0 <= j < i ==> t[j] == s[j]
    ensures forall j :: i <= j < |s| - 1 ==> t[j] == s[j + 1]
  {
    s[..i] + s[i + 1..] + [s[i]]
  }

  /** In a duplicate-free sequence, moving the `i`-th element to the back is touching it. */
  lemma RotatedIsTouch<T>(s: seq<T>, i: nat)
    requires NoDup(s) && i < |s|
    ensures Rotated(s, i) == Touch(s, s[i])
  {
    WithoutAt(s, i);
  }

  lemma RotatedNoDup<T>(s: seq<T>, i: nat)
    requires NoDup(s) && i < |s|
    ensures NoDup(Rotated(s, i))
    ensures forall j :: 0 <= j < |s| ==> s[j] in Rotated(s, i)
  {
    var t := Rotated(s, i);
    var last := |s| - 1;
    forall j, k | 0 <= j < k < |t|
      ensures t[j] != t[k]
    {
      var j' := if j < i then j else if j < last then j + 1 else i;
      var k' := if k < i then k else if k < last then k + 1 else i;
      assert t[j] == s[j'] && t[k] == s[k'] && j' != k';
    }
    forall j | 0 <= j < |s|
      ensures s[j] in t
    {
      if j < i {
        assert t[j] == s[j];
      } else if j == i {
        assert t[last] == s[j];
      } else {
        assert t[j - 1] == s[j];
      }
    }
  }
}
