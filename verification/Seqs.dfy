/** Facts about sequences shared by the list models. */
module Seqs {

  ghost predicate Apart<T>(s: seq<T>, i: nat, j: nat)
    requires i < j < |s|
  {
    s[i] != s[j]
  }

  ghost predicate Distinct<T>(s: seq<T>) {
    forall i, j {:trigger Apart(s, i, j)} :: 0 <= i < j < |s| ==> Apart(s, i, j)
  }

  ghost predicate Disjoint<T>(s: seq<T>, t: seq<T>) {
    forall x :: x in s ==> x !in t
  }

  function Front<T>(s: seq<T>): (r: seq<T>) {
    if s == [] then [] else s[..|s| - 1]
  }

  function Tail<T>(s: seq<T>): (r: seq<T>) {
    if s == [] then [] else s[1..]
  }

  function Last<T>(s: seq<T>): (r: T)
    requires s != []
  {
    s[|s| - 1]
  }

  function Without<T>(s: seq<T>, k: nat): (r: seq<T>)
    requires k < |s|
  {
    s[..k] + s[k + 1..]
  }

  /** `s` with `u` put in after its first `k` elements. */
  function Inserted<T>(s: seq<T>, k: nat, u: seq<T>): (r: seq<T>)
    requires k <= |s|
  {
    s[..k] + u + s[k..]
  }

  function Rotated<T>(s: seq<T>, k: nat): (r: seq<T>)
    requires k <= |s|
  {
    s[k..] + s[..k]
  }

  /** No other position of `s` holds `s[k]`. */
  lemma DistinctAt<T>(s: seq<T>, k: nat)
    requires Distinct(s) && k < |s|
    ensures forall i {:trigger s[i]} :: 0 <= i < |s| && i != k ==> s[i] != s[k]
  {
    forall i | 0 <= i < |s| && i != k
      ensures s[i] != s[k]
    {
      assert if i < k then Apart(s, i, k) else Apart(s, k, i);
    }
  }

  lemma NotInSlice<T>(s: seq<T>, k: nat, lo: nat, hi: nat)
    requires Distinct(s) && k < |s| && lo <= hi <= |s| && (k < lo || hi <= k)
    ensures s[k] !in s[lo..hi]
  {
    forall i | lo <= i < hi
      ensures s[i] != s[k]
    {
      assert if i < k then Apart(s, i, k) else Apart(s, k, i);
    }
  }

  /** The first and last elements of a sequence without repetitions occur nowhere else in it. */
  lemma DistinctEnds<T>(s: seq<T>)
    requires Distinct(s) && s != []
    ensures s[0] !in Tail(s) && Last(s) !in Front(s)
    ensures forall x :: x in Front(s) || x in Tail(s) ==> x in s
    ensures |s| > 1 ==> s[0] != Last(s)
  {
    NotInSlice(s, 0, 1, |s|);
    NotInSlice(s, |s| - 1, 0, |s| - 1);
  }

  lemma DistinctAppend<T>(s: seq<T>, t: seq<T>)
    requires Distinct(s) && Distinct(t) && Disjoint(s, t)
    ensures Distinct(s + t)
  {
    var r := s + t;
    forall i, j | 0 <= i < j < |r|
      ensures Apart(r, i, j)
    {
      if j < |s| {
        assert Apart(s, i, j);
      } else if i >= |s| {
        assert Apart(t, i - |s|, j - |s|);
      } else {
        assert r[i] in s && r[j] in t;
      }
    }
  }

  lemma DistinctSplit<T>(s: seq<T>, k: nat)
    requires Distinct(s) && k <= |s|
    ensures Distinct(s[..k]) && Distinct(s[k..]) && Disjoint(s[..k], s[k..])
  {
    forall i, j | 0 <= i < j < k
      ensures Apart(s[..k], i, j)
    {
      assert Apart(s, i, j);
    }
    forall i, j | 0 <= i < j < |s| - k
      ensures Apart(s[k..], i, j)
    {
      assert Apart(s, k + i, k + j);
    }
    forall i | 0 <= i < k
      ensures s[i] !in s[k..]
    {
      NotInSlice(s, i, k, |s|);
    }
  }

  lemma DistinctWithout<T>(s: seq<T>, k: nat)
    requires Distinct(s) && k < |s|
    ensures Distinct(Without(s, k)) && s[k] !in Without(s, k)
  {
    DistinctRotated(s, k);
    DistinctEnds(Rotated(s, k));
    DistinctSplit(Rotated(s, k), 1);
    assert Rotated(s, k)[1..] == s[k + 1..] + s[..k];
    DistinctRotated(s[k + 1..] + s[..k], |s| - k - 1);
    assert Rotated(s[k + 1..] + s[..k], |s| - k - 1) == Without(s, k);
  }

  lemma DistinctRotated<T>(s: seq<T>, k: nat)
    requires Distinct(s) && k <= |s|
    ensures Distinct(Rotated(s, k))
  {
    DistinctSplit(s, k);
    DistinctAppend(s[k..], s[..k]);
  }
}
