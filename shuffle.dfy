/**
  `SliceRandom::shuffle` from the `rand` crate: a Fisher-Yates shuffle that
  walks the indices from the last down to 1 and swaps each with a position
  drawn uniformly from those not after it. The draw for index `i` is supplied
  by the caller as `pick(i)`, reduced into `0..=i`; every permutation is the
  result of some choice of draws (`EveryPermutation`).
 */
module Shuffle {

  /** What is left in front once position `j` has been swapped with the last one
      and the last slot is settled: the old last element moves to position `j`. */
  function Rest<T>(s: seq<T>, j: nat): (r: seq<T>)
    requires j < |s|
    ensures |r| == |s| - 1
    ensures multiset(r) + multiset{s[j]} == multiset(s)
  {
    var i := |s| - 1;
    assert s == s[..i] + [s[i]];
    if j == i then s[..i] else s[..i][j := s[i]]
  }

  function Shuffled<T>(s: seq<T>, pick: nat -> nat): (r: seq<T>)
    ensures |r| == |s|
    ensures multiset(r) == multiset(s)
    decreases |s|
  {
    if |s| <= 1 then s
    else
      var j := pick(|s| - 1) % |s|;
      Shuffled(Rest(s, j), pick) + [s[j]]
  }

  /** The last slot receives the element at the drawn index, taken from the
      whole sequence: any element, not only a recently appended one, can end
      up last. */
  lemma ShuffleLast<T>(s: seq<T>, pick: nat -> nat)
    requires |s| >= 2
    ensures Shuffled(s, pick)[|s| - 1] == s[pick(|s| - 1) % |s|]
  {
    var j := pick(|s| - 1) % |s|;
    assert Shuffled(s, pick) == Shuffled(Rest(s, j), pick) + [s[j]];
  }

  /** The shuffle reads only the draws for indices below the length. */
  lemma {:induction false} ShuffledUsesPicksBelow<T>(s: seq<T>, p: nat -> nat, q: nat -> nat)
    requires forall k: nat :: k < |s| ==> p(k) == q(k)
    ensures Shuffled(s, p) == Shuffled(s, q)
    decreases |s|
  {
    if |s| > 1 {
      ShuffledUsesPicksBelow(Rest(s, p(|s| - 1) % |s|), p, q);
    }
  }

  /** Every permutation of `s` is the result of some choice of draws: draw, for
      the last index, a position holding the element wanted last, and so on down. */
  lemma {:induction false} EveryPermutation<T>(s: seq<T>, r: seq<T>) returns (pick: nat -> nat)
    requires multiset(r) == multiset(s)
    ensures Shuffled(s, pick) == r
    decreases |s|
  {
    SameLength(s, r);
    if |s| <= 1 {
      pick := (k: nat) => 0;
      ShortIsItsOwnPermutation(s, r);
    } else {
      var i := |s| - 1;
      var j := FindLast(s, r);
      var rest := Rest(s, j);
      RestMatchesFront(s, r, j);
      var p := EveryPermutation(rest, r[..i]);
      pick := Extend(s, r, j, p);
    }
  }

  lemma SameLength<T>(s: seq<T>, r: seq<T>)
    requires multiset(r) == multiset(s)
    ensures |r| == |s|
  {
    assert |r| == |multiset(r)| == |s|;
  }

  /** The last element of `r` occurs somewhere in its permutation `s`. */
  lemma FindLast<T>(s: seq<T>, r: seq<T>) returns (j: nat)
    requires multiset(r) == multiset(s) && |r| > 0
    ensures j < |s| && s[j] == r[|r| - 1]
  {
    assert r[|r| - 1] in multiset(s);
    j :| 0 <= j < |s| && s[j] == r[|r| - 1];
  }

  /** Draws that shuffle what `Rest(s, j)` leaves into the front of `r`,
      extended with `j` for the last index, shuffle `s` into `r`. */
  lemma Extend<T>(s: seq<T>, r: seq<T>, j: nat, p: nat -> nat) returns (pick: nat -> nat)
    requires |s| >= 2 && |r| == |s| && j < |s| && s[j] == r[|r| - 1]
    requires Shuffled(Rest(s, j), p) == r[..|r| - 1]
    ensures Shuffled(s, pick) == r
  {
    var i := |s| - 1;
    pick := DrawAt(p, i, j);
    ShuffledUsesPicksBelow(Rest(s, j), p, pick);
    ShuffledStep(s, j, pick, r[..i]);
    LastSplit(r);
  }

  /** The draws of `p`, with `j` drawn for index `i` instead. */
  lemma DrawAt(p: nat -> nat, i: nat, j: nat) returns (pick: nat -> nat)
    ensures pick(i) == j
    ensures forall k: nat :: k < i ==> pick(k) == p(k)
  {
    pick := (k: nat) => if k == i then j else p(k);
  }

  /** A sequence of at most one element has no other permutation. */
  lemma ShortIsItsOwnPermutation<T>(s: seq<T>, r: seq<T>)
    requires |s| <= 1 && multiset(r) == multiset(s)
    ensures r == s
  {
    assert |r| == |multiset(r)| == |s|;
    if |s| == 1 {
      assert r[0] in multiset(s);
      assert r == [r[0]] && s == [s[0]];
    }
  }

  /** Taking `s[j] == r[|r| - 1]` out of `s` leaves a permutation of the rest of `r`. */
  lemma RestMatchesFront<T>(s: seq<T>, r: seq<T>, j: nat)
    requires multiset(r) == multiset(s) && |s| >= 2 && j < |s| && s[j] == r[|r| - 1]
    ensures multiset(Rest(s, j)) == multiset(r[..|r| - 1])
  {
    LastSplit(r);
    assert multiset(r) == multiset(r[..|r| - 1]) + multiset{r[|r| - 1]};
    MultisetCancel(multiset(Rest(s, j)), multiset(r[..|r| - 1]), s[j]);
  }

  /** Drawing `j` for the last index puts `s[j]` last, after the shuffle of the rest. */
  lemma ShuffledStep<T>(s: seq<T>, j: nat, pick: nat -> nat, front: seq<T>)
    requires |s| >= 2 && j < |s| && pick(|s| - 1) == j && Shuffled(Rest(s, j), pick) == front
    ensures Shuffled(s, pick) == front + [s[j]]
  {
    ModSmall(j, |s|);
  }

  lemma MultisetCancel<T>(a: multiset<T>, b: multiset<T>, x: T)
    requires a + multiset{x} == b + multiset{x}
    ensures a == b
  {
    assert a == (a + multiset{x}) - multiset{x};
    assert b == (b + multiset{x}) - multiset{x};
  }

  lemma ModSmall(x: nat, n: nat)
    requires x < n
    ensures x % n == x
  {
  }

  lemma LastSplit<T>(r: seq<T>)
    requires |r| > 0
    ensures r == r[..|r| - 1] + [r[|r| - 1]]
  {
  }
}
