/** Cyclic order: what "the bad server becomes the last one on the list" means
    for a sequence, and the two facts the failover needs about it. */
module Rotation {

  /** The sequence that starts at position k and wraps around. */
  function Rotate<T>(s: seq<T>, k: nat): (r: seq<T>)
    requires k <= |s|
    ensures |r| == |s|
  {
    seq(|s|, i requires 0 <= i < |s| => if i + k < |s| then s[i + k] else s[i + k - |s|])
  }

  lemma RotateParts<T>(s: seq<T>, k: nat)
    requires k <= |s|
    ensures Rotate(s, k) == s[k..] + s[..k]
  {
  }

  /** A prefix is its head, and a prefix of the sequence whose head has moved to the end. */
  lemma PrefixOfRotation<T>(s: seq<T>, n: nat)
    requires 1 <= n <= |s|
    ensures s[..n] == [s[0]] + Rotate(s, 1)[..n - 1]
  {
  }

  ghost predicate Distinct<T>(s: seq<T>) {
    forall i, j :: 0 <= i < j < |s| ==> s[i] != s[j]
  }

  ghost predicate IsRotation<T>(base: seq<T>, s: seq<T>) {
    exists k: nat :: k <= |base| && s == Rotate(base, k)
  }

  /** Moving the head to the end j times and then k times more. */
  lemma RotateTwice<T>(s: seq<T>, j: nat, k: nat)
    requires j + k <= |s|
    ensures Rotate(Rotate(s, j), k) == Rotate(s, j + k)
  {
  }

  /** A rotation holds exactly the elements of the original, once each. */
  lemma RotationPermutes<T>(base: seq<T>, s: seq<T>)
    requires IsRotation(base, s)
    ensures multiset(s) == multiset(base)
    ensures Distinct(base) ==> Distinct(s)
  {
    var k: nat :| k <= |base| && s == Rotate(base, k);
    RotateParts(base, k);
    assert base == base[..k] + base[k..];
  }
}
