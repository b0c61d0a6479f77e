/** The random-number helpers of the game. Math.random is foreign and nondeterministic, so it is
    modelled as an arbitrary stream of reals in [0, 1) that the caller supplies; every property
    proved below holds for every such stream. */
module Utility {

  datatype Option<T> = None | Some(value: T)

  /** A value Math.random can return. */
  type UnitInterval = r: real | 0.0 <= r < 1.0

  /** randInt(min, max): floor(u * (max - min + 1)) + min for a draw u. */
  function RandInt(lo: int, hi: int, u: UnitInterval): (r: int)
    ensures lo <= hi ==> lo <= r <= hi
    ensures hi == lo - 1 ==> r == lo
  {
    (u * (hi - lo + 1) as real).Floor + lo
  }

  /** Every integer of [lo, hi] is the result of some draw, so quantifying over the draws
      quantifies over every choice in the range. */
  lemma RandIntCovers(lo: int, hi: int, v: int)
    requires lo <= v <= hi
    ensures exists u: UnitInterval :: RandInt(lo, hi, u) == v
  {
    var n := (hi - lo + 1) as real;
    var u: UnitInterval := (v - lo) as real / n;
    assert u * n == (v - lo) as real;
    assert RandInt(lo, hi, u) == v;
  }

  lemma AppendAssociates<T>(a: seq<T>, b: seq<T>, c: seq<T>)
    ensures (a + b) + c == a + (b + c)
  {
  }

  /** The stream of Math.random results: the i-th call returns draw(i). */
  class RandomSource {
    const draw: nat -> UnitInterval
    var used: nat

    constructor (draw: nat -> UnitInterval)
      ensures this.draw == draw && used == 0
    {
      this.draw := draw;
      used := 0;
    }

    /** One call of randInt(lo, hi). */
    method Int(lo: int, hi: int) returns (r: int)
      modifies this
      ensures used == old(used) + 1
      ensures r == RandInt(lo, hi, draw(old(used)))
    {
      r := RandInt(lo, hi, draw(used));
      used := used + 1;
    }
  }

  /** The Fisher-Yates swaps of shuffle, from index i down to 1, the swap partner of index i being
      randInt(0, i) for the draw draw(k). */
  function ShuffleFrom<T>(s: seq<T>, i: nat, draw: nat -> UnitInterval, k: nat): (r: seq<T>)
    requires i < |s|
    ensures |r| == |s|
    decreases i
  {
    if i == 0 then s
    else
      var j := RandInt(0, i, draw(k));
      ShuffleFrom(s[i := s[j]][j := s[i]], i - 1, draw, k + 1)
  }

  /** The result of shuffle on s when its draws start at draw(k). */
  function Shuffled<T>(s: seq<T>, draw: nat -> UnitInterval, k: nat): (r: seq<T>)
    ensures |r| == |s|
  {
    if |s| == 0 then s else ShuffleFrom(s, |s| - 1, draw, k)
  }

  /** Whatever the draws, shuffling only rearranges the elements. */
  lemma {:induction false} ShuffleFromIsPermutation<T>(s: seq<T>, i: nat, draw: nat -> UnitInterval, k: nat)
    requires i < |s|
    ensures multiset(ShuffleFrom(s, i, draw, k)) == multiset(s)
    decreases i
  {
    if i > 0 {
      var j := RandInt(0, i, draw(k));
      SwapIsPermutation(s, i, j);
      ShuffleFromIsPermutation(s[i := s[j]][j := s[i]], i - 1, draw, k + 1);
    }
  }

  /** Exchanging two elements keeps the multiset of elements. */
  lemma SwapIsPermutation<T>(s: seq<T>, i: nat, j: nat)
    requires i < |s| && j < |s|
    ensures multiset(s[i := s[j]][j := s[i]]) == multiset(s)
  {
    if i != j {
      calc {
        multiset(s[i := s[j]][j := s[i]]);
        multiset(s) - multiset{s[i]} + multiset{s[j]} - multiset{s[j]} + multiset{s[i]};
        multiset(s);
      }
    }
  }

  lemma ShuffledIsPermutation<T>(s: seq<T>, draw: nat -> UnitInterval, k: nat, r: seq<T>)
    requires r == Shuffled(s, draw, k)
    ensures multiset(r) == multiset(s)
  {
    if |s| > 0 {
      ShuffleFromIsPermutation(s, |s| - 1, draw, k);
    }
  }

  /** The destructuring swap `[a[i], a[j]] = [a[j], a[i]]`. */
  method Swap<T>(a: array<T>, i: int, j: int)
    requires 0 <= i < a.Length && 0 <= j < a.Length
    modifies a
    ensures a[..] == old(a[..])[i := old(a[..])[j]][j := old(a[..])[i]]
  {
    a[i], a[j] := a[j], a[i];
  }

  /** shuffle(arr): Fisher-Yates in place, one draw per index from the last down to 1. */
  method Shuffle<T>(a: array<T>, rng: RandomSource)
    modifies a, rng
    ensures a[..] == Shuffled(old(a[..]), rng.draw, old(rng.used))
    ensures multiset(a[..]) == multiset(old(a[..]))
    ensures rng.used == old(rng.used) + (if a.Length == 0 then 0 else a.Length - 1)
  {
    if a.Length == 0 {
      return;
    }
    var i := a.Length - 1;
    while i > 0
      invariant 0 <= i < a.Length
      invariant rng.used == old(rng.used) + (a.Length - 1 - i)
      invariant ShuffleFrom(a[..], i, rng.draw, rng.used) == Shuffled(old(a[..]), rng.draw, old(rng.used))
    {
      ghost var before, k := a[..], rng.used;
      var j := rng.Int(0, i);
      assert ShuffleFrom(before, i, rng.draw, k) == ShuffleFrom(before[i := before[j]][j := before[i]], i - 1, rng.draw, k + 1);
      Swap(a, i, j);
      i := i - 1;
    }
    ShuffledIsPermutation(old(a[..]), rng.draw, old(rng.used), a[..]);
  }
}
