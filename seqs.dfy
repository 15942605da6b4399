/** Order-preserving selection from sequences, the one notion behind every boolean
    mask of the pipeline: the row filter, the column drops and the row drop. */
module Seqs {

  /** The elements of `s` satisfying `p`, in their original order. */
  function Keep<T(!new)>(s: seq<T>, p: T -> bool): (r: seq<T>)
    ensures |r| <= |s|
    ensures forall x :: x in r <==> x in s && p(x)
  {
    if s == [] then [] else (if p(s[0]) then [s[0]] else []) + Keep(s[1..], p)
  }

  /** Keeping distributes over concatenation: together with the one-element case
      this says that `Keep` keeps exactly the matching elements in order. */
  lemma {:induction false} KeepAppend<T(!new)>(a: seq<T>, b: seq<T>, p: T -> bool)
    ensures Keep(a + b, p) == Keep(a, p) + Keep(b, p)
  {
    if a == [] {
      assert a + b == b;
    } else {
      assert (a + b)[0] == a[0];
      assert (a + b)[1..] == a[1..] + b;
      KeepAppend(a[1..], b, p);
    }
  }

  /** When every element matches, nothing is removed. */
  lemma {:induction false} KeepAll<T(!new)>(s: seq<T>, p: T -> bool)
    requires forall x :: x in s ==> p(x)
    ensures Keep(s, p) == s
  {
    if s != [] {
      assert forall x :: x in s[1..] ==> x in s;
      KeepAll(s[1..], p);
    }
  }

  /** The positions 0, 1, ..., n - 1. */
  function Range(n: nat): (r: seq<nat>)
    ensures |r| == n
    ensures forall i :: 0 <= i < n ==> r[i] == i
  {
    seq(n, i requires 0 <= i => i)
  }

  lemma RangeMembers(n: nat)
    ensures forall x :: x in Range(n) <==> 0 <= x < n
  {
    var all := Range(n);
    forall i | 0 <= i < n ensures i in all {
      assert all[i] == i;
    }
  }

  predicate StrictlyIncreasing(s: seq<nat>)
  {
    forall i, j :: 0 <= i < j < |s| ==> s[i] < s[j]
  }

  /** An order-preserving selection of a strictly increasing sequence is strictly increasing. */
  lemma {:induction false} KeepIncreasing(s: seq<nat>, p: nat -> bool)
    requires StrictlyIncreasing(s)
    ensures StrictlyIncreasing(Keep(s, p))
  {
    if s != [] {
      KeepIncreasing(s[1..], p);
      var rest := Keep(s[1..], p);
      forall x | x in rest ensures s[0] < x {
        var k :| 0 <= k < |s[1..]| && s[1..][k] == x;
        assert s[k + 1] == x;
      }
      var r := Keep(s, p);
      assert r == (if p(s[0]) then [s[0]] else []) + rest;
      if p(s[0]) {
        forall i, j | 0 <= i < j < |r| ensures r[i] < r[j] {
          assert r[j] == rest[j - 1] && rest[j - 1] in rest;
          if i > 0 { assert r[i] == rest[i - 1]; }
        }
      }
    }
  }

  /** The positions below `n` that satisfy `p`, in increasing order. */
  function Positions(n: nat, p: nat -> bool): (r: seq<nat>)
    ensures StrictlyIncreasing(r)
    ensures forall k :: 0 <= k < |r| ==> r[k] < n
    ensures forall i :: 0 <= i < n ==> (i in r <==> p(i))
  {
    var all := Range(n);
    KeepIncreasing(all, p);
    RangeMembers(n);
    var r := Keep(all, p);
    assert forall k :: 0 <= k < |r| ==> r[k] in r;
    r
  }

  /** `Positions` of a mask that holds everywhere is the whole range. */
  lemma PositionsAll(n: nat, p: nat -> bool)
    requires forall i :: 0 <= i < n ==> p(i)
    ensures Positions(n, p) == Range(n)
  {
    KeepAll(Range(n), p);
  }
}
