/** Sums over sequences, and position/removal of a value in a sequence: the two
    lemma families every table below is reasoned about with. */
module Sums {

  function Sum(s: seq<int>): int {
    if s == [] then 0 else Sum(s[..|s| - 1]) + s[|s| - 1]
  }

  /** Updating one element shifts the sum by the difference. */
  lemma {:induction false} SumUpdate(s: seq<int>, i: nat, v: int)
    requires i < |s|
    ensures Sum(s[i := v]) == Sum(s) - s[i] + v
  {
    var n := |s| - 1;
    if i == n {
      assert s[i := v][..n] == s[..n];
    } else {
      assert s[i := v][..n] == s[..n][i := v];
      SumUpdate(s[..n], i, v);
    }
  }

  lemma {:induction false} SumMonotone(s: seq<int>, t: seq<int>)
    requires |s| == |t|
    requires forall i :: 0 <= i < |s| ==> s[i] <= t[i]
    ensures Sum(s) <= Sum(t)
  {
    if s != [] {
      var n := |s| - 1;
      assert s[n] <= t[n];
      forall i | 0 <= i < n ensures s[..n][i] <= t[..n][i] { assert s[i] <= t[i]; }
      SumMonotone(s[..n], t[..n]);
    }
  }

  /** No element of a sequence of naturals exceeds the sum. */
  lemma {:induction false} SumMember(s: seq<int>, i: nat)
    requires i < |s|
    requires forall j :: 0 <= j < |s| ==> s[j] >= 0
    ensures 0 <= s[i] <= Sum(s)
  {
    var zero := seq(|s|, j => 0);
    SumUpdate(zero, i, s[i]);
    SumZeros(zero);
    SumMonotone(zero[i := s[i]], s);
  }

  lemma {:induction false} SumZeros(s: seq<int>)
    requires forall i :: 0 <= i < |s| ==> s[i] == 0
    ensures Sum(s) == 0
  {
    if s != [] {
      SumZeros(s[..|s| - 1]);
    }
  }

  lemma SumNonNegative(s: seq<int>)
    requires forall i :: 0 <= i < |s| ==> s[i] >= 0
    ensures Sum(s) >= 0
  {
    var zero := seq(|s|, j => 0);
    SumZeros(zero);
    SumMonotone(zero, s);
  }

  /** Pointwise sums add up. */
  lemma {:induction false} SumAdd(s: seq<int>, t: seq<int>, u: seq<int>)
    requires |s| == |t| == |u|
    requires forall i :: 0 <= i < |s| ==> u[i] == s[i] + t[i]
    ensures Sum(u) == Sum(s) + Sum(t)
  {
    if s != [] {
      SumAdd(s[..|s| - 1], t[..|s| - 1], u[..|s| - 1]);
    }
  }

  lemma {:induction false} SumConcat(s: seq<int>, t: seq<int>)
    ensures Sum(s + t) == Sum(s) + Sum(t)
  {
    if t == [] {
      assert s + t == s;
    } else {
      assert (s + t)[..|s + t| - 1] == s + t[..|t| - 1];
      SumConcat(s, t[..|t| - 1]);
    }
  }

  lemma SumSplit(s: seq<int>, i: nat)
    requires i <= |s|
    ensures Sum(s) == Sum(s[..i]) + Sum(s[i..])
  {
    assert s == s[..i] + s[i..];
    SumConcat(s[..i], s[i..]);
  }

  /** Deleting one element lowers the sum by that element. */
  lemma SumDelete(s: seq<int>, i: nat)
    requires i < |s|
    ensures Sum(s[..i] + s[i + 1..]) == Sum(s) - s[i]
  {
    SumSplit(s, i + 1);
    assert s[..i + 1][..i] == s[..i];
    SumConcat(s[..i], s[i + 1..]);
  }

  /** First position of x at or after i; |s| when there is none. */
  function FindFrom(s: seq<nat>, x: nat, i: nat): (k: nat)
    requires i <= |s|
    ensures i <= k <= |s|
    ensures k < |s| ==> s[k] == x
    ensures forall j :: i <= j < k ==> s[j] != x
    decreases |s| - i
  {
    if i == |s| || s[i] == x then i else FindFrom(s, x, i + 1)
  }

  function Find(s: seq<nat>, x: nat): (k: nat)
    ensures k <= |s|
    ensures k < |s| ==> s[k] == x
    ensures forall j :: 0 <= j < k ==> s[j] != x
  {
    FindFrom(s, x, 0)
  }

  ghost predicate Distinct(s: seq<nat>) {
    forall i, j :: 0 <= i < j < |s| ==> s[i] != s[j]
  }

  function DeleteAt<T>(s: seq<T>, i: nat): seq<T>
    requires i < |s|
  {
    s[..i] + s[i + 1..]
  }

  /** Removes the first occurrence of x, keeping the order of the rest. */
  function Remove(s: seq<nat>, x: nat): seq<nat> {
    var k := Find(s, x);
    if k < |s| then DeleteAt(s, k) else s
  }

  lemma RemoveMembers(s: seq<nat>, x: nat)
    requires Distinct(s)
    ensures Distinct(Remove(s, x))
    ensures forall y :: y in Remove(s, x) <==> y in s && y != x
  {
    var k := Find(s, x);
    if k < |s| {
      var t := DeleteAt(s, k);
      forall y | y in s && y != x ensures y in t {
        var i :| 0 <= i < |s| && s[i] == y;
        assert t[if i < k then i else i - 1] == y;
      }
      forall y | y in t ensures y in s && y != x {
        var i :| 0 <= i < |t| && t[i] == y;
        assert s[if i < k then i else i + 1] == y;
      }
    }
  }

  /** Removing a value that a prefix does not hold leaves the prefix in place. */
  lemma RemoveKeepsPrefix(p: seq<nat>, s: seq<nat>, x: nat)
    requires p <= s && x !in p
    ensures p <= Remove(s, x)
  {
    var k := Find(s, x);
    if k < |s| {
      forall i | 0 <= i < |p| ensures s[i] != x {
        assert p[i] in p;
      }
    }
  }

  /** Two duplicate-free sequences with the same members, one a prefix of the other, are equal. */
  lemma PrefixWithSameMembers(p: seq<nat>, s: seq<nat>)
    requires p <= s && Distinct(s)
    requires forall x :: x in s ==> x in p
    ensures p == s
  {
    if s != [] {
      InsidePrefix(p, s, |s| - 1);
    }
  }

  lemma InsidePrefix(p: seq<nat>, s: seq<nat>, i: nat)
    requires p <= s && Distinct(s)
    requires i < |s| && s[i] in p
    ensures i < |p|
  {
    var j :| 0 <= j < |p| && p[j] == s[i];
    assert s[j] == s[i];
  }
}
