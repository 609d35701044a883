/**
 * The carry-rippler enumeration of the subsets of a mask
 * (chess-core/src/magic.rs, the `init_*_attacks` loops).
 *
 * A 64-bit word is a bit string, least significant bit first, and its
 * value is `ToNat`.  The step `occ = (occ - mask) & mask` with a wrapping
 * subtraction moves from one subset of `mask` to the next larger one and
 * from the whole mask back to 0.
 */
module Subsets {
  import opened Bitboards
  // ---------------------------------------------------------------------
  // Numbers as bit strings
  // ---------------------------------------------------------------------

  /** The index of the lowest clear bit of `s`, or `|s|` when every bit is set. */
  function TrailingOnes(s: seq<bool>): (r: nat)
    ensures r <= |s|
    ensures r < |s| ==> !s[r]
    ensures forall i :: 0 <= i < r ==> s[i]
  {
    if |s| == 0 then 0
    else if !s[0] then 0
    else
      var k := TrailingOnes(s[1..]);
      assert forall i :: 1 <= i < k + 1 ==> s[i] == s[1..][i - 1];
      1 + k
  }

  /** A bit string and its complement add up to the all-ones value. */
  lemma {:induction false} ComplementSum(s: seq<bool>, c: seq<bool>)
    requires |c| == |s| && forall i :: 0 <= i < |s| ==> c[i] == !s[i]
    ensures ToNat(s) + ToNat(c) == Pow2(|s|) - 1
  {
    if |s| > 0 {
      ComplementSum(s[1..], c[1..]);
    }
  }

  /** Adding two bit strings with no common bit is taking their union. */
  lemma {:induction false} DisjointSum(a: seq<bool>, b: seq<bool>, o: seq<bool>)
    requires |a| == |b| == |o|
    requires forall i :: 0 <= i < |a| ==> !(a[i] && b[i]) && o[i] == (a[i] || b[i])
    ensures ToNat(a) + ToNat(b) == ToNat(o)
  {
    if |a| > 0 {
      DisjointSum(a[1..], b[1..], o[1..]);
    }
  }

  /**
   * `s + 1` when some bit of `s` is clear: the trailing ones become 0,
   * the lowest clear bit becomes 1, the bits above it are unchanged.
   */
  lemma {:induction false} Increment(s: seq<bool>, i: nat)
    requires TrailingOnes(s) < |s| && i < |s|
    ensures FromNat(ToNat(s) + 1, |s|)[i] == (i == TrailingOnes(s) || (i > TrailingOnes(s) && s[i]))
  {
    var tail := s[1..];
    var v := ToNat(s) + 1;
    if i == 0 {
      FromNatStep(v, |s|, 0);
    } else {
      FromNatStep(v, |s|, i);
      assert s[i] == tail[i - 1];
      if !s[0] {
        assert v / 2 == ToNat(tail);
        FromNatToNat(tail);
      } else {
        assert TrailingOnes(s) == 1 + TrailingOnes(tail);
        assert v / 2 == ToNat(tail) + 1;
        Increment(tail, i - 1);
      }
    }
  }

  /** Bit 0 of `FromNat(v, n)` is the parity of `v`; the others are the bits of `v / 2`. */
  lemma FromNatStep(v: nat, n: nat, i: nat)
    requires i < n
    ensures i == 0 ==> FromNat(v, n)[i] == (v % 2 == 1)
    ensures i > 0 ==> FromNat(v, n)[i] == FromNat(v / 2, n - 1)[i - 1]
  {
  }

  /** A string with a clear bit is below the all-ones value. */
  lemma {:induction false} BelowAllOnes(s: seq<bool>, i: nat)
    requires i < |s| && !s[i]
    ensures ToNat(s) + 1 < Pow2(|s|)
  {
    ToNatBound(s[1..]);
    if i > 0 {
      BelowAllOnes(s[1..], i - 1);
    }
  }

  /** The all-ones string plus one is the next power of two. */
  lemma {:induction false} AllOnes(s: seq<bool>)
    requires forall i :: 0 <= i < |s| ==> s[i]
    ensures ToNat(s) + 1 == Pow2(|s|)
  {
    if |s| > 0 {
      AllOnes(s[1..]);
    }
  }

  /**
   * Of two strings that agree above bit `p` and differ there, the one
   * with bit `p` set is the larger number.
   */
  lemma {:induction false} HighBitLess(a: seq<bool>, b: seq<bool>, p: nat)
    requires |a| == |b| && p < |a| && !a[p] && b[p]
    requires forall i :: p < i < |a| ==> a[i] == b[i]
    ensures ToNat(a) < ToNat(b)
  {
    if p == 0 {
      assert a[1..] == b[1..];
    } else {
      HighBitLess(a[1..], b[1..], p - 1);
    }
  }

  /** Two different strings of one length differ at a highest bit. */
  lemma {:induction false} HighestDiff(a: seq<bool>, b: seq<bool>) returns (h: nat)
    requires |a| == |b| && a != b
    ensures h < |a| && a[h] != b[h]
    ensures forall i :: h < i < |a| ==> a[i] == b[i]
  {
    var n := |a| - 1;
    if a[n] != b[n] {
      h := n;
    } else {
      assert a == a[..n] + [a[n]] && b == b[..n] + [b[n]];
      h := HighestDiff(a[..n], b[..n]);
      assert a[h] == a[..n][h] && b[h] == b[..n][h];
    }
  }

  /** A string whose bits are among those of another is no larger. */
  lemma {:induction false} SubsetLe(a: seq<bool>, b: seq<bool>)
    requires |a| == |b| && forall i :: 0 <= i < |a| ==> a[i] ==> b[i]
    ensures ToNat(a) <= ToNat(b)
  {
    if |a| > 0 {
      SubsetLe(a[1..], b[1..]);
    }
  }

  /** Equal numbers of one width are equal bit strings. */
  lemma ToNatInjective(a: seq<bool>, b: seq<bool>)
    requires |a| == |b| && ToNat(a) == ToNat(b)
    ensures a == b
  {
    FromNatToNat(a);
    FromNatToNat(b);
  }

  /**
   * Two different strings of one length are ordered by their highest
   * differing bit: the one holding it is the larger.
   */
  lemma DiffOrder(a: seq<bool>, b: seq<bool>) returns (h: nat)
    requires |a| == |b| && a != b
    ensures h < |a| && a[h] != b[h]
    ensures forall i :: h < i < |a| ==> a[i] == b[i]
    ensures ToNat(a) < ToNat(b) <==> b[h]
  {
    h := HighestDiff(a, b);
    if b[h] {
      HighBitLess(a, b, h);
    } else {
      HighBitLess(b, a, h);
    }
  }

  // ---------------------------------------------------------------------
  // The carry-rippler subset enumeration
  // ---------------------------------------------------------------------

  /** Every square of `b` is a square of `m`. */
  predicate SubsetOf(b: Bitboard, m: Bitboard)
  {
    forall i :: 0 <= i < 64 ==> b[i] ==> m[i]
  }

  /**
   * The step of the `init_*_attacks` loops,
   * `occupancy.wrapping_sub(mask) & mask`.
   */
  function NextSubset(occupancy: Bitboard, mask: Bitboard): (r: Bitboard)
    ensures SubsetOf(r, mask)
  {
    And(Word(ToNat(occupancy) - ToNat(mask)), mask)
  }

  /** The lowest square of `mask` missing from `occupancy`. */
  function LowestFree(occupancy: Bitboard, mask: Bitboard): nat
  {
    TrailingOnes(Or(occupancy, Not(mask)))
  }

  /** The bits of `occupancy | !mask`. */
  lemma FreeBits(occupancy: Bitboard, mask: Bitboard, i: nat)
    requires i < 64
    ensures Or(occupancy, Not(mask))[i] == (occupancy[i] || !mask[i])
    ensures NextSubset(occupancy, mask)[i] == (Word(ToNat(occupancy) - ToNat(mask))[i] && mask[i])
  {
  }

  lemma LowestFreeFacts(occupancy: Bitboard, mask: Bitboard)
    requires SubsetOf(occupancy, mask) && occupancy != mask
    ensures LowestFree(occupancy, mask) < 64
    ensures mask[LowestFree(occupancy, mask)] && !occupancy[LowestFree(occupancy, mask)]
    ensures forall i :: 0 <= i < LowestFree(occupancy, mask) ==> mask[i] ==> occupancy[i]
  {
    var x := Or(occupancy, Not(mask));
    var i :| 0 <= i < 64 && occupancy[i] != mask[i];
    FreeBits(occupancy, mask, i);
    var p := LowestFree(occupancy, mask);
    FreeBits(occupancy, mask, p);
    forall j | 0 <= j < p
      ensures mask[j] ==> occupancy[j]
    {
      FreeBits(occupancy, mask, j);
    }
  }

  /** A difference that went below zero wraps around by 2^64. */
  lemma WordWraps(n: int, v: nat, i: nat)
    requires n + WordRange == v < WordRange && i < 64
    ensures Word(n)[i] == FromNat(v, 64)[i]
  {
  }

  /** The wrapped difference `occupancy - mask` is `(occupancy | !mask) + 1`, 2^64 too low. */
  lemma WrappedDifferenceValue(occupancy: Bitboard, mask: Bitboard)
    requires SubsetOf(occupancy, mask) && occupancy != mask
    ensures ToNat(Or(occupancy, Not(mask))) + 1 < WordRange
    ensures ToNat(occupancy) - ToNat(mask) + WordRange == ToNat(Or(occupancy, Not(mask))) + 1
  {
    LowestFreeFacts(occupancy, mask);
    forall i | 0 <= i < 64
      ensures Not(mask)[i] == !mask[i] && Or(occupancy, Not(mask))[i] == (occupancy[i] || Not(mask)[i])
    {
      FreeBits(occupancy, mask, i);
    }
    FreeBits(occupancy, mask, LowestFree(occupancy, mask));
    WrappedSub(occupancy, mask, Or(occupancy, Not(mask)), Not(mask), LowestFree(occupancy, mask));
  }

  /**
   * For `o` within `m`, with `c` the complement of `m` and `x = o | c`
   * not all ones: `o - m` wraps around to `x + 1`.
   */
  lemma WrappedSub(o: seq<bool>, m: seq<bool>, x: seq<bool>, c: seq<bool>, i: nat)
    requires |o| == |m| == |x| == |c| && i < |o| && !x[i]
    requires forall j :: 0 <= j < |o| ==> c[j] == !m[j] && x[j] == (o[j] || c[j]) && (o[j] ==> m[j])
    ensures ToNat(x) + 1 < Pow2(|o|)
    ensures ToNat(o) - ToNat(m) + Pow2(|o|) == ToNat(x) + 1
  {
    DisjointSum(o, c, x);
    ComplementSum(m, c);
    BelowAllOnes(x, i);
  }



  lemma NextSubsetBit(occupancy: Bitboard, mask: Bitboard, i: nat)
    requires SubsetOf(occupancy, mask) && occupancy != mask && i < 64
    ensures NextSubset(occupancy, mask)[i] ==
      (mask[i] && (i == LowestFree(occupancy, mask) || (i > LowestFree(occupancy, mask) && occupancy[i])))
  {
    FreeBits(occupancy, mask, i);
    DifferenceBit(occupancy, mask, i);
    SuccessorBit(occupancy, mask, i);
  }

  /** Bit `i` of the wrapped difference is bit `i` of `(occupancy | !mask) + 1`. */
  lemma DifferenceBit(occupancy: Bitboard, mask: Bitboard, i: nat)
    requires SubsetOf(occupancy, mask) && occupancy != mask && i < 64
    ensures Word(ToNat(occupancy) - ToNat(mask))[i] == FromNat(ToNat(Or(occupancy, Not(mask))) + 1, 64)[i]
  {
    WrappedDifferenceValue(occupancy, mask);
    WordWraps(ToNat(occupancy) - ToNat(mask), ToNat(Or(occupancy, Not(mask))) + 1, i);
  }

  /** Bit `i` of `(occupancy | !mask) + 1`. */
  lemma SuccessorBit(occupancy: Bitboard, mask: Bitboard, i: nat)
    requires SubsetOf(occupancy, mask) && occupancy != mask && i < 64
    ensures FromNat(ToNat(Or(occupancy, Not(mask))) + 1, 64)[i] ==
      (i == LowestFree(occupancy, mask) || (i > LowestFree(occupancy, mask) && Or(occupancy, Not(mask))[i]))
  {
    LowestFreeFacts(occupancy, mask);
    Increment(Or(occupancy, Not(mask)), i);
  }

  /**
   * The step adds one to `occupancy | !mask`: the squares of the mask
   * below the lowest missing one are dropped, that square is added, and
   * the squares above it stay as they were.
   */
  lemma NextSubsetBits(occupancy: Bitboard, mask: Bitboard)
    requires SubsetOf(occupancy, mask) && occupancy != mask
    ensures forall i :: 0 <= i < 64 ==>
      NextSubset(occupancy, mask)[i] ==
        (mask[i] && (i == LowestFree(occupancy, mask) || (i > LowestFree(occupancy, mask) && occupancy[i])))
  {
    forall i | 0 <= i < 64
      ensures NextSubset(occupancy, mask)[i] ==
        (mask[i] && (i == LowestFree(occupancy, mask) || (i > LowestFree(occupancy, mask) && occupancy[i])))
    {
      NextSubsetBit(occupancy, mask, i);
    }
  }

  /**
   * Unless `occupancy` is the whole mask, the step moves to a larger
   * subset of the mask, and to the next one: no subset lies strictly
   * between the two.
   */
  lemma NextSubsetSuccessor(occupancy: Bitboard, mask: Bitboard)
    requires SubsetOf(occupancy, mask) && occupancy != mask
    ensures !IsEmpty(NextSubset(occupancy, mask))
    ensures ToNat(occupancy) < ToNat(NextSubset(occupancy, mask))
    ensures forall b: Bitboard :: SubsetOf(b, mask) && ToNat(b) < ToNat(NextSubset(occupancy, mask)) ==> ToNat(b) <= ToNat(occupancy)
  {
    var next := NextSubset(occupancy, mask);
    var p := LowestFree(occupancy, mask);
    LowestFreeFacts(occupancy, mask);
    NextSubsetBits(occupancy, mask);
    assert p in Elems(next);
    HighBitLess(occupancy, next, p);
    forall b: Bitboard | SubsetOf(b, mask) && ToNat(b) < ToNat(next)
      ensures ToNat(b) <= ToNat(occupancy)
    {
      NoSubsetBetween(occupancy, mask, b);
    }
  }

  lemma NoSubsetBetween(occupancy: Bitboard, mask: Bitboard, b: Bitboard)
    requires SubsetOf(occupancy, mask) && occupancy != mask
    requires SubsetOf(b, mask) && ToNat(b) < ToNat(NextSubset(occupancy, mask))
    ensures ToNat(b) <= ToNat(occupancy)
  {
    var next := NextSubset(occupancy, mask);
    var p := LowestFree(occupancy, mask);
    LowestFreeFacts(occupancy, mask);
    NextSubsetBits(occupancy, mask);
    var h := DiffOrder(b, next);
    if h > p {
      HighBitLess(b, occupancy, h);
    } else {
      SubsetLe(b, occupancy);
    }
  }

  /** Stepping from the whole mask gives 0, which ends the loop. */
  lemma NextSubsetLast(mask: Bitboard)
    ensures IsEmpty(NextSubset(mask, mask))
  {
    forall i | 0 <= i < 64
      ensures !NextSubset(mask, mask)[i]
    {
      ZeroWordBit(i);
      FreeBits(mask, mask, i);
    }
    ToNatZero(NextSubset(mask, mask));
  }

  lemma ZeroWordBit(i: nat)
    requires i < 64
    ensures !Word(0)[i]
  {
    ToNatZero(Word(0));
  }

  /** Every subset of the mask is at most the mask, so the enumeration ends at the mask. */
  lemma SubsetsBelowMask(mask: Bitboard)
    ensures forall b: Bitboard :: SubsetOf(b, mask) ==> ToNat(b) <= ToNat(mask)
  {
    forall b: Bitboard | SubsetOf(b, mask)
      ensures ToNat(b) <= ToNat(mask)
    {
      SubsetLe(b, mask);
    }
  }

  /**
   * One step of the enumeration: either it ends (the step gives 0) and no
   * subset lies above `occupancy`, or it moves up to a subset below 2^64
   * and skips none.
   */
  lemma NextSubsetStep(occupancy: Bitboard, mask: Bitboard)
    requires SubsetOf(occupancy, mask)
    ensures IsEmpty(NextSubset(occupancy, mask)) ==>
      forall b: Bitboard :: SubsetOf(b, mask) ==> ToNat(b) <= ToNat(occupancy)
    ensures !IsEmpty(NextSubset(occupancy, mask)) ==>
      ToNat(occupancy) < ToNat(NextSubset(occupancy, mask)) < WordRange
      && forall b: Bitboard :: SubsetOf(b, mask) && ToNat(b) < ToNat(NextSubset(occupancy, mask)) ==> ToNat(b) <= ToNat(occupancy)
  {
    ToNatBound(NextSubset(occupancy, mask));
    if occupancy != mask {
      NextSubsetSuccessor(occupancy, mask);
    } else {
      NextSubsetLast(mask);
      SubsetsBelowMask(mask);
    }
  }
}
