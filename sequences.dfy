/**
 * The two ways the engine's dynamic arrays drop an element, as functions on sequences.
 */
module Sequences {
  ghost predicate Distinct<T>(s: seq<T>) {
    forall a, b :: 0 <= a < b < |s| ==> s[a] != s[b]
  }

  /** Removal that keeps the order of the remaining elements. */
  function RemoveAt<T>(s: seq<T>, i: nat): (r: seq<T>)
    requires i < |s|
    ensures |r| == |s| - 1
    ensures r[..i] == s[..i] && r[i..] == s[i + 1..]
    ensures multiset(r) + multiset{s[i]} == multiset(s)
  {
    assert s == s[..i] + [s[i]] + s[i + 1..];
    s[..i] + s[i + 1..]
  }

  /** Removal that moves the last element into the gap, so the order after i changes. */
  function RemoveAtSwap<T>(s: seq<T>, i: nat): (r: seq<T>)
    requires i < |s|
    ensures |r| == |s| - 1
    ensures r[..i] == s[..i]
    ensures i < |s| - 1 ==> r[i..] == [s[|s| - 1]] + s[i + 1..|s| - 1]
    ensures multiset(r[i..]) == multiset(s[i + 1..])
    ensures forall x :: x in r ==> x in s
  {
    var last := |s| - 1;
    if i == last then s[..i]
    else
      var r := s[..i] + [s[last]] + s[i + 1..last];
      assert r[i..] == [s[last]] + s[i + 1..last];
      assert s[i + 1..] == s[i + 1..last] + [s[last]];
      r
  }

  /** What sits at the removed position does not matter to swap-removal. */
  lemma RemoveAtSwapIgnoresGap<T>(s: seq<T>, s': seq<T>, i: nat)
    requires i < |s| == |s'| && forall j :: 0 <= j < |s| && j != i ==> s[j] == s'[j]
    ensures RemoveAtSwap(s, i) == RemoveAtSwap(s', i)
  {
    var last := |s| - 1;
    assert s[..i] == s'[..i];
    if i < last {
      assert s[i + 1..last] == s'[i + 1..last];
    }
  }

  /** Overwriting one position brings in only the new value. */
  lemma UpdateMembers<T>(s: seq<T>, i: nat, v: T)
    requires i < |s|
    ensures forall x :: x in s[i := v] ==> x == v || x in s
  {
    forall x | x in s[i := v] ensures x == v || x in s {
      var j :| 0 <= j < |s| && s[i := v][j] == x;
      if j != i {
        assert s[j] == x;
      }
    }
  }

  /** The elements of s that are not in drop, in their order. */
  function Without<T(!new)>(s: seq<T>, drop: set<T>): (r: seq<T>)
    ensures forall x :: x in r <==> x in s && x !in drop
    ensures |r| <= |s|
  {
    if s == [] then []
    else if s[0] in drop then Without(s[1..], drop)
    else [s[0]] + Without(s[1..], drop)
  }

  /** Moving past a kept element: the prefix grows by it exactly as the filtered rest loses it. */
  lemma WithoutSkip<T(!new)>(s: seq<T>, i: nat, drop: set<T>)
    requires i < |s| && s[i] !in drop
    ensures s[..i] + Without(s[i..], drop) == s[..i + 1] + Without(s[i + 1..], drop)
  {
    assert s[i..][1..] == s[i + 1..];
    assert Without(s[i..], drop) == [s[i]] + Without(s[i + 1..], drop);
    assert s[..i + 1] == s[..i] + [s[i]];
  }

  /** Removing a dropped element does not change what is kept after it. */
  lemma WithoutRemoveAt<T(!new)>(s: seq<T>, i: nat, drop: set<T>)
    requires i < |s| && s[i] in drop
    ensures Without(s[i..], drop) == Without(RemoveAt(s, i)[i..], drop)
  {
    assert s[i..][1..] == s[i + 1..];
  }

  lemma {:induction false} WithoutConcat<T(!new)>(a: seq<T>, b: seq<T>, drop: set<T>)
    ensures Without(a + b, drop) == Without(a, drop) + Without(b, drop)
    decreases |a|
  {
    if a == [] {
      assert a + b == b;
    } else {
      assert (a + b)[0] == a[0] && (a + b)[1..] == a[1..] + b;
      WithoutConcat(a[1..], b, drop);
    }
  }

  lemma {:induction false} WithoutTwice<T(!new)>(s: seq<T>, d1: set<T>, d2: set<T>)
    ensures Without(Without(s, d1), d2) == Without(s, d1 + d2)
    decreases |s|
  {
    if s != [] {
      WithoutTwice(s[1..], d1, d2);
      if s[0] !in d1 {
        var w := Without(s, d1);
        assert w == [s[0]] + Without(s[1..], d1);
        assert w[0] == s[0] && w[1..] == Without(s[1..], d1);
      }
    }
  }

  lemma {:induction false} WithoutDistinct<T(!new)>(s: seq<T>, drop: set<T>)
    requires Distinct(s)
    ensures Distinct(Without(s, drop))
    decreases |s|
  {
    if s != [] {
      assert Distinct(s[1..]) by {
        forall a, b | 0 <= a < b < |s[1..]| ensures s[1..][a] != s[1..][b] {
          assert s[1..][a] == s[a + 1] && s[1..][b] == s[b + 1];
        }
      }
      WithoutDistinct(s[1..], drop);
      if s[0] !in drop {
        var w := Without(s[1..], drop);
        forall k | 0 <= k < |s[1..]| ensures s[1..][k] != s[0] {
          assert s[1..][k] == s[k + 1];
        }
        assert s[0] !in w;
        var r := [s[0]] + w;
        forall a, b | 0 <= a < b < |r| ensures r[a] != r[b] {
          if a == 0 {
            assert r[b] == w[b - 1];
          } else {
            assert r[a] == w[a - 1] && r[b] == w[b - 1];
          }
        }
      }
    }
  }

  lemma DistinctConcat<T>(a: seq<T>, b: seq<T>)
    requires Distinct(a) && Distinct(b) && forall x :: x in a ==> x !in b
    ensures Distinct(a + b)
  {
    var r := a + b;
    forall i, j | 0 <= i < j < |r| ensures r[i] != r[j] {
      if i < |a| && j >= |a| {
        assert r[i] in a && r[j] == b[j - |a|];
      } else if i >= |a| {
        assert r[i] == b[i - |a|] && r[j] == b[j - |a|];
      }
    }
  }

  lemma RemoveAtDistinct<T>(s: seq<T>, i: nat)
    requires i < |s| && Distinct(s)
    ensures Distinct(RemoveAt(s, i)) && s[i] !in RemoveAt(s, i)
    ensures forall x :: x in RemoveAt(s, i) <==> x in s && x != s[i]
  {
    var r := RemoveAt(s, i);
    forall a, b | 0 <= a < b < |r| ensures r[a] != r[b] {
      var a' := if a < i then a else a + 1;
      var b' := if b < i then b else b + 1;
      assert r[a] == s[a'] && r[b] == s[b'];
    }
    forall k | 0 <= k < |r| ensures r[k] != s[i] {
      var k' := if k < i then k else k + 1;
      assert r[k] == s[k'];
    }
    forall x | x in s && x != s[i] ensures x in r {
      var k :| 0 <= k < |s| && s[k] == x;
      assert r[if k < i then k else k - 1] == x;
    }
  }

  lemma {:induction false} WithoutNothing<T(!new)>(s: seq<T>)
    ensures Without(s, {}) == s
    decreases |s|
  {
    if s != [] {
      WithoutNothing(s[1..]);
      assert s == [s[0]] + s[1..];
    }
  }
}
