/**
 * Bitboards (chess-core/src/bitboard.rs): a u64 read as a set of squares,
 * bit i standing for square i (a1 = 0, b1 = 1, ..., h8 = 63).
 *
 * The word is modelled by its 64 bits, least significant first.  Each
 * bitwise operator of the source is then a pointwise operation, each shift
 * moves bit positions, and the numeric value of the word (`ToNat`) is used
 * where the source does arithmetic on it (`b - 1`, wrapping subtraction and
 * multiplication).  Every operation is specified through the set of squares
 * it denotes, `Elems`.
 */
module Bitboards {
  import opened Wrappers

  /**
   * A square index below 64: shifting a u64 by 64 or more panics in a debug
   * build, and is masked to the low six bits in a release build.
   */
  type Sq = s: int | 0 <= s < 64

  /** The u64 word as its 64 bits, bit 0 (square a1) first. */
  type Bitboard = b: seq<bool> | |b| == 64 witness Zeros(64)

  /** A run of `n` clear bits. */
  function Zeros(n: nat): (r: seq<bool>)
    ensures |r| == n && forall i :: 0 <= i < n ==> !r[i]
  {
    seq(n, _ => false)
  }

  /** A run of `n` set bits. */
  function Ones(n: nat): (r: seq<bool>)
    ensures |r| == n && forall i :: 0 <= i < n ==> r[i]
  {
    seq(n, _ => true)
  }

  /** The number of bits in the word. */
  const Width: nat := 64

  /** Bitboard::empty(), the word 0. */
  const Empty: Bitboard := Zeros(Width)
  /** Bitboard::full(), u64::MAX. */
  const Full: Bitboard := Ones(Width)

  // ---------------------------------------------------------------------
  // The numeric value of a word
  // ---------------------------------------------------------------------

  function Pow2(n: nat): (r: nat)
    ensures r >= 1
  {
    if n == 0 then 1 else 2 * Pow2(n - 1)
  }

  /** The unsigned value of a little-endian bit string. */
  function ToNat(s: seq<bool>): nat
  {
    if |s| == 0 then 0 else (if s[0] then 1 else 0) + 2 * ToNat(s[1..])
  }

  /** The `len` low bits of `n`, least significant first. */
  function FromNat(n: nat, len: nat): (r: seq<bool>)
    ensures |r| == len
  {
    if len == 0 then [] else [n % 2 == 1] + FromNat(n / 2, len - 1)
  }

  lemma {:induction false} ToNatBound(s: seq<bool>)
    ensures ToNat(s) < Pow2(|s|)
  {
    if |s| > 0 { ToNatBound(s[1..]); }
  }

  lemma {:induction false} FromNatToNat(s: seq<bool>)
    ensures FromNat(ToNat(s), |s|) == s
  {
    if |s| > 0 {
      FromNatToNat(s[1..]);
      assert ToNat(s) / 2 == ToNat(s[1..]);
    }
  }

  lemma {:induction false} ToNatFromNat(n: nat, len: nat)
    requires n < Pow2(len)
    ensures ToNat(FromNat(n, len)) == n
  {
    if len > 0 {
      var r := FromNat(n, len);
      assert r[1..] == FromNat(n / 2, len - 1);
      ToNatFromNat(n / 2, len - 1);
    }
  }

  /** A bit string is zero exactly when none of its bits is set. */
  lemma {:induction false} ToNatZero(s: seq<bool>)
    ensures ToNat(s) == 0 <==> forall i :: 0 <= i < |s| ==> !s[i]
  {
    if |s| > 0 {
      ToNatZero(s[1..]);
      assert forall i :: 1 <= i < |s| ==> s[i] == s[1..][i - 1];
    }
  }

  /** The number of u64 values, 2^64. */
  const WordRange: nat := Pow2(64)

  /**
   * The u64 holding `n` reduced modulo 2^64, as u64 arithmetic wraps: a
   * value in range is kept, one pushed below zero by a subtraction comes
   * back 2^64 higher.
   */
  function Word(n: int): (r: Bitboard)
    ensures 0 <= n < WordRange ==> r == FromNat(n, 64) && ToNat(r) == n
    ensures n < 0 && 0 <= n + WordRange ==> r == FromNat(n + WordRange, 64) && ToNat(r) == n + WordRange
  {
    if 0 <= n < WordRange then
      ToNatFromNat(n, 64);
      FromNat(n, 64)
    else if n < 0 && 0 <= n + WordRange then
      ToNatFromNat(n + WordRange, 64);
      FromNat(n + WordRange, 64)
    else
      FromNat(n % WordRange, 64)
  }

  // ---------------------------------------------------------------------
  // Squares of a bitboard
  // ---------------------------------------------------------------------

  /** The set of squares a bitboard denotes. */
  function Elems(b: Bitboard): set<int> { set s | 0 <= s < 64 && b[s] }


  /** Two bitboards holding the same squares are the same word. */
  lemma Extensionality(a: Bitboard, b: Bitboard)
    requires Elems(a) == Elems(b)
    ensures a == b
  {
    forall i | 0 <= i < 64 ensures a[i] == b[i] {
      assert i in Elems(a) <==> i in Elems(b);
    }
  }

  /** All 64 squares. */
  function AllSquares(): set<int> { Elems(Full) }

  // ---------------------------------------------------------------------
  // The u64 operators (BitOr, BitAnd, BitXor, Not, <<, >>)
  // ---------------------------------------------------------------------

  function Or(a: Bitboard, b: Bitboard): (r: Bitboard)
    ensures Elems(r) == Elems(a) + Elems(b)
  {
    seq(64, i requires 0 <= i < 64 => a[i] || b[i])
  }

  function And(a: Bitboard, b: Bitboard): (r: Bitboard)
    ensures Elems(r) == Elems(a) * Elems(b)
  {
    seq(64, i requires 0 <= i < 64 => a[i] && b[i])
  }

  function Xor(a: Bitboard, b: Bitboard): (r: Bitboard)
    ensures Elems(r) == (Elems(a) - Elems(b)) + (Elems(b) - Elems(a))
  {
    seq(64, i requires 0 <= i < 64 => a[i] != b[i])
  }

  function Not(a: Bitboard): (r: Bitboard)
    ensures Elems(r) == AllSquares() - Elems(a)
  {
    seq(64, i requires 0 <= i < 64 => !a[i])
  }

  /** `a << n`: bits move up by `n`; the top `n` bits are lost. */
  function Shl(a: Bitboard, n: nat): (r: Bitboard)
    requires n < 64
    ensures forall t: Sq :: t in Elems(r) <==> t >= n && t - n in Elems(a)
  {
    seq(64, i requires 0 <= i < 64 => i >= n && a[i - n])
  }

  /** `a >> n`: bits move down by `n`; the low `n` bits are lost. */
  function Shr(a: Bitboard, n: nat): (r: Bitboard)
    requires n < 64
    ensures forall t: Sq :: t in Elems(r) <==> t + n < 64 && t + n in Elems(a)
  {
    seq(64, i requires 0 <= i < 64 => i + n < 64 && a[i + n])
  }

  // ---------------------------------------------------------------------
  // Constants
  // ---------------------------------------------------------------------


  /** FILE_A = 0x0101010101010101 ... FILE_H = 0x8080808080808080. */
  function FileMask(f: int): Bitboard { seq(64, i requires 0 <= i < 64 => i % 8 == f) }
  /** RANK_1 = 0x00000000000000FF ... RANK_8 = 0xFF00000000000000. */
  function RankMask(r: int): Bitboard { seq(64, i requires 0 <= i < 64 => i / 8 == r) }

  const FileA: Bitboard := FileMask(0)
  const FileB: Bitboard := FileMask(1)
  const FileC: Bitboard := FileMask(2)
  const FileD: Bitboard := FileMask(3)
  const FileE: Bitboard := FileMask(4)
  const FileF: Bitboard := FileMask(5)
  const FileG: Bitboard := FileMask(6)
  const FileH: Bitboard := FileMask(7)

  const Rank1: Bitboard := RankMask(0)
  const Rank2: Bitboard := RankMask(1)
  const Rank3: Bitboard := RankMask(2)
  const Rank4: Bitboard := RankMask(3)
  const Rank5: Bitboard := RankMask(4)
  const Rank6: Bitboard := RankMask(5)
  const Rank7: Bitboard := RankMask(6)
  const Rank8: Bitboard := RankMask(7)

  /** LIGHT_SQUARES = 0x55AA55AA55AA55AA: squares whose rank and file differ in parity. */
  const LightSquares: Bitboard := seq(64, i requires 0 <= i < 64 => (i / 8 + i % 8) % 2 == 1)
  /** DARK_SQUARES = 0xAA55AA55AA55AA55: a1 and the squares of its colour. */
  const DarkSquares: Bitboard := seq(64, i requires 0 <= i < 64 => (i / 8 + i % 8) % 2 == 0)

  lemma EmptyFull()
    ensures Elems(Empty) == {} && Elems(Full) == AllSquares()
    ensures ToNat(Empty) == 0
  {
    ToNatZero(Empty);
  }

  /** Light and dark squares split the board. */
  lemma LightDark()
    ensures Elems(LightSquares) * Elems(DarkSquares) == {}
    ensures Elems(LightSquares) + Elems(DarkSquares) == AllSquares()
    ensures 0 in Elems(DarkSquares) && 7 in Elems(LightSquares)
  {
  }

  // ---------------------------------------------------------------------
  // Bitboard methods
  // ---------------------------------------------------------------------

  /** The word 1. */
  const One: Bitboard := [true] + Zeros(63)

  lemma OneValue()
    ensures Elems(One) == {0} && ToNat(One) == 1
  {
    assert One[1..] == Zeros(63);
    ToNatZero(Zeros(63));
  }

  /** from_square: `1u64 << square`, the bitboard holding exactly `s`. */
  function FromSquare(s: Sq): (r: Bitboard)
    ensures Elems(r) == {s}
  {
    OneValue();
    Shl(One, s)
  }

  /** The value of the single-square word is 2^s. */
  lemma FromSquareValue(s: Sq)
    ensures ToNat(FromSquare(s)) == Pow2(s)
  {
    var r := FromSquare(s);
    assert r == seq(64, i requires 0 <= i < 64 => i == s) by {
      Extensionality(r, seq(64, i requires 0 <= i < 64 => i == s));
    }
    SingleValue(s, 64);
  }

  lemma {:induction false} SingleValue(s: nat, len: nat)
    requires s < len
    ensures ToNat(seq(len, i requires 0 <= i < len => i == s)) == Pow2(s)
  {
    var r := seq(len, i requires 0 <= i < len => i == s);
    if s == 0 {
      ToNatZero(r[1..]);
    } else {
      assert r[1..] == seq(len - 1, i requires 0 <= i < len - 1 => i == s - 1);
      SingleValue(s - 1, len - 1);
    }
  }

  /** is_empty: the word is 0, i.e. no square is in the set. */
  predicate IsEmpty(b: Bitboard)
    ensures IsEmpty(b) <==> Elems(b) == {}
    ensures IsEmpty(b) <==> ToNat(b) == 0
  {
    ToNatZero(b);
    assert Elems(b) == {} ==> b == Empty by {
      if Elems(b) == {} { EmptyFull(); Extensionality(b, Empty); }
    }
    b == Empty
  }

  /** has_square: bit `s` of the word. */
  predicate HasSquare(b: Bitboard, s: Sq)
    ensures HasSquare(b, s) <==> s in Elems(b)
  {
    b[s]
  }

  /** set_square: bit `s` of the word set to 1. */
  function SetSquare(b: Bitboard, s: Sq): (r: Bitboard)
    ensures Elems(r) == Elems(b) + {s}
  {
    b[s := true]
  }

  /** `m` with square `s` set when `cond` holds. */
  function SetIf(m: Bitboard, cond: bool, s: int): (r: Bitboard)
    requires cond ==> 0 <= s < 64
    ensures cond ==> Elems(r) == Elems(m) + {s}
    ensures !cond ==> r == m
  {
    if cond then SetSquare(m, s) else m
  }

  /** clear_square: bit `s` of the word set to 0. */
  function ClearSquare(b: Bitboard, s: Sq): (r: Bitboard)
    ensures Elems(r) == Elems(b) - {s}
  {
    b[s := false]
  }

  /**
   * The three single-square operations are the word operations the source
   * writes: `self & (1 << s) != 0`, `self |= 1 << s` and `self &= !(1 << s)`.
   */
  lemma SquareOpsAsWords(b: Bitboard, s: Sq)
    ensures HasSquare(b, s) <==> !IsEmpty(And(b, FromSquare(s)))
    ensures SetSquare(b, s) == Or(b, FromSquare(s))
    ensures ClearSquare(b, s) == And(b, Not(FromSquare(s)))
  {
    assert s in Elems(b) ==> s in Elems(And(b, FromSquare(s)));
    Extensionality(SetSquare(b, s), Or(b, FromSquare(s)));
    Extensionality(ClearSquare(b, s), And(b, Not(FromSquare(s))));
  }

  /** toggle_square (`self ^= 1 << s`). */
  function ToggleSquare(b: Bitboard, s: Sq): (r: Bitboard)
    ensures s in Elems(b) ==> Elems(r) == Elems(b) - {s}
    ensures s !in Elems(b) ==> Elems(r) == Elems(b) + {s}
  {
    Xor(b, FromSquare(s))
  }

  /** Setting a square changes no other square, and makes `has_square` true. */
  lemma SetClearSquare(b: Bitboard, s: Sq, t: Sq)
    ensures HasSquare(SetSquare(b, s), s) && !HasSquare(ClearSquare(b, s), s)
    ensures t != s ==> (HasSquare(SetSquare(b, s), t) <==> HasSquare(b, t))
    ensures t != s ==> (HasSquare(ClearSquare(b, s), t) <==> HasSquare(b, t))
  {
  }

  /** Toggling twice restores the bitboard. */
  lemma ToggleTwice(b: Bitboard, s: Sq)
    ensures ToggleSquare(ToggleSquare(b, s), s) == b
  {
    Extensionality(ToggleSquare(ToggleSquare(b, s), s), b);
  }

  /** count_ones over the bits of `s` from index `i` up. */
  function CountFrom(s: seq<bool>, i: nat): (r: nat)
    requires i <= |s|
    ensures r <= |s| - i
    decreases |s| - i
  {
    if i == |s| then 0 else (if s[i] then 1 else 0) + CountFrom(s, i + 1)
  }

  lemma {:induction false} CountFromCard(s: seq<bool>, i: nat)
    requires i <= |s|
    ensures CountFrom(s, i) == |set t | i <= t < |s| && s[t]|
    decreases |s| - i
  {
    if i < |s| {
      CountFromCard(s, i + 1);
      var here := set t | i <= t < |s| && s[t];
      var above := set t | i + 1 <= t < |s| && s[t];
      if s[i] {
        assert here == above + {i};
      } else {
        assert here == above;
      }
    }
  }

  /** count: the number of squares in the set (count_ones). */
  function Count(b: Bitboard): (r: nat)
    ensures r == |Elems(b)|
    ensures r <= 64
  {
    CountFromCard(b, 0);
    assert Elems(b) == set t | 0 <= t < |b| && b[t];
    CountFrom(b, 0)
  }

  /** Counting facts stated by the source's tests. */
  lemma CountFacts(b: Bitboard, s: Sq)
    ensures Count(Empty) == 0
    ensures Count(FromSquare(s)) == 1
    ensures s !in Elems(b) ==> Count(SetSquare(b, s)) == Count(b) + 1
    ensures s in Elems(b) ==> Count(ClearSquare(b, s)) == Count(b) - 1
  {
    EmptyFull();
  }

  /** trailing_zeros of a bit string. */
  function TrailingZeros(s: seq<bool>): (r: nat)
    ensures r <= |s|
    ensures r < |s| ==> s[r]
    ensures forall i :: 0 <= i < r ==> !s[i]
  {
    if |s| == 0 then 0
    else if s[0] then 0
    else
      var k := TrailingZeros(s[1..]);
      assert forall i :: 1 <= i < k + 1 ==> s[i] == s[1..][i - 1];
      1 + k
  }

  /** leading_zeros of a bit string (counted from the most significant end). */
  function LeadingZeros(s: seq<bool>): (r: nat)
    ensures r <= |s|
    ensures r < |s| ==> s[|s| - 1 - r]
    ensures forall i :: |s| - r <= i < |s| ==> !s[i]
  {
    if |s| == 0 then 0
    else if s[|s| - 1] then 0
    else
      var k := LeadingZeros(s[..|s| - 1]);
      assert forall i :: |s| - 1 - k <= i < |s| - 1 ==> s[i] == s[..|s| - 1][i];
      1 + k
  }

  /** lsb: `None` for 0, else the lowest square (trailing_zeros). */
  function Lsb(b: Bitboard): (r: Option<Sq>)
    ensures r.None? <==> Elems(b) == {}
    ensures r.Some? ==> r.value in Elems(b) && forall t :: t in Elems(b) ==> r.value <= t
  {
    if IsEmpty(b) then None
    else
      var x :| x in Elems(b);
      var k := TrailingZeros(b);
      assert k <= x;
      Some(k)
  }

  /** msb: `None` for 0, else the highest square (63 - leading_zeros). */
  function Msb(b: Bitboard): (r: Option<Sq>)
    ensures r.None? <==> Elems(b) == {}
    ensures r.Some? ==> r.value in Elems(b) && forall t :: t in Elems(b) ==> t <= r.value
  {
    if IsEmpty(b) then None
    else
      var x :| x in Elems(b);
      var k := LeadingZeros(b);
      assert 63 - k >= x;
      Some(63 - k)
  }

  /**
   * `b - 1` on a non-zero word: the bits below the lowest set bit become 1,
   * that bit becomes 0, and the bits above it are unchanged.
   */
  lemma {:induction false} Decrement(s: seq<bool>, i: nat)
    requires ToNat(s) > 0 && i < |s|
    ensures TrailingZeros(s) < |s|
    ensures FromNat(ToNat(s) - 1, |s|)[i] == (i < TrailingZeros(s) || (i > TrailingZeros(s) && s[i]))
  {
    ToNatZero(s);
    var tail := s[1..];
    if s[0] {
      assert ToNat(s) - 1 == 2 * ToNat(tail);
      if i > 0 {
        FromNatToNat(tail);
        assert FromNat(ToNat(s) - 1, |s|)[i] == FromNat(ToNat(tail), |tail|)[i - 1];
      }
    } else {
      assert ToNat(s) == 2 * ToNat(tail);
      assert ToNat(tail) > 0;
      assert ToNat(s) - 1 == 2 * (ToNat(tail) - 1) + 1;
      if i > 0 {
        Decrement(tail, i - 1);
        assert FromNat(ToNat(s) - 1, |s|)[i] == FromNat(ToNat(tail) - 1, |tail|)[i - 1];
      } else {
        Decrement(tail, 0);
      }
    }
  }

  /** The bits of `b - 1` for a non-empty bitboard `b`. */
  lemma DecrementWord(b: Bitboard, i: Sq)
    requires Elems(b) != {}
    ensures Lsb(b).Some?
    ensures Word(ToNat(b) - 1)[i] == (i < Lsb(b).value || (i > Lsb(b).value && b[i]))
  {
    assert b[Lsb(b).value];
    ToNatZero(b);
    ToNatBound(b);
    Decrement(b, i);
  }

  /** `b & (b - 1)` clears the lowest set square of a non-empty bitboard. */
  lemma ClearLowest(b: Bitboard)
    requires Elems(b) != {}
    ensures Lsb(b).Some?
    ensures Elems(And(b, Word(ToNat(b) - 1))) == Elems(b) - {Lsb(b).value}
  {
    forall i | 0 <= i < 64
      ensures i in Elems(And(b, Word(ToNat(b) - 1))) <==> i in Elems(b) && i != Lsb(b).value
    {
      DecrementWord(b, i);
    }
  }

  /**
   * pop_lsb: the lowest square and the bitboard after `self &= self - 1`;
   * the empty bitboard comes back unchanged with `None`.
   */
  function PopLsb(b: Bitboard): (r: (Option<Sq>, Bitboard))
    ensures r.0 == Lsb(b)
    ensures r.0.None? ==> r.1 == b
    ensures r.0.Some? ==> Elems(r.1) == Elems(b) - {r.0.value}
  {
    var lsb := Lsb(b);
    if lsb.Some? then
      ClearLowest(b);
      (lsb, And(b, Word(ToNat(b) - 1)))
    else
      (lsb, b)
  }

  // ---------------------------------------------------------------------
  // Directional shifts
  // ---------------------------------------------------------------------

  /** north: `self << 8`; rank 8 falls off the board. */
  function North(b: Bitboard): (r: Bitboard)
    ensures forall t: Sq :: t in Elems(r) <==> t >= 8 && t - 8 in Elems(b)
  {
    Shl(b, 8)
  }

  /** south: `self >> 8`; rank 1 falls off the board. */
  function South(b: Bitboard): (r: Bitboard)
    ensures forall t: Sq :: t in Elems(r) <==> t < 56 && t + 8 in Elems(b)
  {
    Shr(b, 8)
  }

  /** east: `(self << 1) & !FILE_A`; nothing wraps from the h-file to the a-file. */
  function East(b: Bitboard): (r: Bitboard)
    ensures forall t: Sq :: t in Elems(r) <==> t % 8 != 0 && t - 1 in Elems(b)
  {
    And(Shl(b, 1), Not(FileA))
  }

  /** west: `(self >> 1) & !FILE_H`; nothing wraps from the a-file to the h-file. */
  function West(b: Bitboard): (r: Bitboard)
    ensures forall t: Sq :: t in Elems(r) <==> t % 8 != 7 && t + 1 in Elems(b)
  {
    And(Shr(b, 1), Not(FileH))
  }

  function NorthEast(b: Bitboard): (r: Bitboard)
    ensures forall t: Sq :: t in Elems(r) <==> t >= 8 && t % 8 != 0 && t - 9 in Elems(b)
  {
    East(North(b))
  }

  function NorthWest(b: Bitboard): (r: Bitboard)
    ensures forall t: Sq :: t in Elems(r) <==> t >= 8 && t % 8 != 7 && t - 7 in Elems(b)
  {
    West(North(b))
  }

  function SouthEast(b: Bitboard): (r: Bitboard)
    ensures forall t: Sq :: t in Elems(r) <==> t < 56 && t % 8 != 0 && t + 7 in Elems(b)
  {
    East(South(b))
  }

  function SouthWest(b: Bitboard): (r: Bitboard)
    ensures forall t: Sq :: t in Elems(r) <==> t < 56 && t % 8 != 7 && t + 9 in Elems(b)
  {
    West(South(b))
  }

  /** The shift examples of the source's tests: a1 and h8 moved one step. */
  lemma ShiftExamples()
    ensures North(FromSquare(0)) == FromSquare(8)
    ensures East(FromSquare(0)) == FromSquare(1)
    ensures NorthEast(FromSquare(0)) == FromSquare(9)
    ensures South(FromSquare(63)) == FromSquare(55)
    ensures West(FromSquare(63)) == FromSquare(62)
    ensures SouthWest(FromSquare(63)) == FromSquare(54)
  {
    Extensionality(North(FromSquare(0)), FromSquare(8));
    Extensionality(East(FromSquare(0)), FromSquare(1));
    Extensionality(NorthEast(FromSquare(0)), FromSquare(9));
    Extensionality(South(FromSquare(63)), FromSquare(55));
    Extensionality(West(FromSquare(63)), FromSquare(62));
    Extensionality(SouthWest(FromSquare(63)), FromSquare(54));
  }

  /** east never yields an a-file square and west never an h-file square. */
  lemma ShiftEdges(b: Bitboard)
    ensures Elems(East(b)) * Elems(FileA) == {}
    ensures Elems(West(b)) * Elems(FileH) == {}
    ensures Elems(North(b)) * Elems(Rank1) == {}
    ensures Elems(South(b)) * Elems(Rank8) == {}
  {
  }

  // ---------------------------------------------------------------------
  // Iteration: BitboardIterator, popping the lowest square each time
  // ---------------------------------------------------------------------

  /** The squares of `b` at index `i` or above, in ascending order. */
  function ListFrom(b: Bitboard, i: int): (r: seq<Sq>)
    requires 0 <= i <= 64
    decreases 64 - i
  {
    if i == 64 then [] else (if b[i] then [i as Sq] else []) + ListFrom(b, i + 1)
  }

  /** What squares() yields: every square of `b`, in ascending order. */
  function SquareList(b: Bitboard): seq<Sq> { ListFrom(b, 0) }

  predicate Increasing(s: seq<int>)
  {
    forall i, j :: 0 <= i < j < |s| ==> s[i] < s[j]
  }

  lemma {:induction false} ListFromProps(b: Bitboard, i: int)
    requires 0 <= i <= 64
    ensures Increasing(ListFrom(b, i))
    ensures forall j :: 0 <= j < |ListFrom(b, i)| ==> i <= ListFrom(b, i)[j] && b[ListFrom(b, i)[j]]
    ensures forall t :: i <= t < 64 && b[t] ==> t in ListFrom(b, i)
    decreases 64 - i
  {
    if i < 64 {
      ListFromProps(b, i + 1);

    }
  }

  /** squares() yields exactly the squares of the set, each once, in ascending order. */
  lemma SquareListProps(b: Bitboard)
    ensures Increasing(SquareList(b))
    ensures forall t :: t in SquareList(b) <==> t in Elems(b)
    ensures |SquareList(b)| == Count(b)
  {
    ListFromProps(b, 0);
    var l := SquareList(b);
    DistinctCard(l);
    assert (set x | x in l) == Elems(b);
  }

  lemma {:induction false} DistinctCard(s: seq<int>)
    requires Increasing(s)
    ensures |set x | x in s| == |s|
  {
    if |s| > 0 {
      var last := s[|s| - 1];
      var init := s[..|s| - 1];
      DistinctCard(init);
      assert (set x | x in s) == (set x | x in init) + {last};
      assert last !in init;
    }
  }

  /** Popping the lowest square of `b` leaves the list of the remaining squares. */
  lemma PopLsbList(b: Bitboard)
    requires Elems(b) != {}
    ensures PopLsb(b).0.Some?
    ensures SquareList(b) == [PopLsb(b).0.value] + SquareList(PopLsb(b).1)
  {
    forall t | 0 <= t < 64
      ensures PopLsb(b).1[t] <==> b[t] && t != Lsb(b).value
    {
      assert t in Elems(PopLsb(b).1) <==> PopLsb(b).1[t];
      assert t in Elems(b) <==> b[t];
    }
    ListFromSkip(b, 0, Lsb(b).value);
    ListFromSkip(PopLsb(b).1, 0, Lsb(b).value + 1);
    ListFromAgree(b, PopLsb(b).1, Lsb(b).value + 1);
  }

  /** Squares below the first set one contribute nothing. */
  lemma {:induction false} ListFromSkip(b: Bitboard, i: int, j: int)
    requires 0 <= i <= j <= 64
    requires forall t :: i <= t < j ==> !b[t]
    ensures ListFrom(b, i) == ListFrom(b, j)
    decreases j - i
  {
    if i < j { ListFromSkip(b, i + 1, j); }
  }

  lemma {:induction false} ListFromAgree(a: Bitboard, b: Bitboard, i: int)
    requires 0 <= i <= 64
    requires forall t :: i <= t < 64 ==> a[t] == b[t]
    ensures ListFrom(a, i) == ListFrom(b, i)
    decreases 64 - i
  {
    if i < 64 { ListFromAgree(a, b, i + 1); }
  }

  /** Popping a square lowers the count by one. */
  lemma PopLsbCount(b: Bitboard)
    requires Elems(b) != {}
    ensures PopLsb(b).0.Some?
    ensures Count(PopLsb(b).1) == Count(b) - 1
  {
    assert Elems(b) == Elems(PopLsb(b).1) + {PopLsb(b).0.value};
  }

  /** The empty bitboard lists no squares. */
  lemma EmptyList(b: Bitboard)
    requires Elems(b) == {}
    ensures SquareList(b) == []
  {
    forall t | 0 <= t < 64 ensures !b[t] { assert t !in Elems(b); }
    ListFromSkip(b, 0, 64);
  }

  /** One step of the iterator keeps the squares listed so far plus those left. */
  lemma PopStep(b: Bitboard, rest: Bitboard, sqs: seq<Sq>)
    requires sqs + SquareList(rest) == SquareList(b)
    requires Elems(rest) != {}
    ensures PopLsb(rest).0.Some?
    ensures (sqs + [PopLsb(rest).0.value]) + SquareList(PopLsb(rest).1) == SquareList(b)
    ensures Count(PopLsb(rest).1) < Count(rest)
  {
    PopLsbList(rest);
    PopLsbCount(rest);
    assert (sqs + [PopLsb(rest).0.value]) + SquareList(PopLsb(rest).1)
        == sqs + ([PopLsb(rest).0.value] + SquareList(PopLsb(rest).1));
  }

  /**
   * Collects `squares()` as the iterator does: `next` pops the lowest square
   * until `pop_lsb` answers `None`.
   */
  method Squares(b: Bitboard) returns (sqs: seq<Sq>)
    ensures sqs == SquareList(b)
  {
    sqs := [];
    var rest := b;
    while true
      invariant sqs + SquareList(rest) == SquareList(b)
      decreases Count(rest)
    {
      var popped := PopLsb(rest);
      if popped.0.None? {
        EmptyList(rest);
        assert sqs + [] == sqs;
        break;
      }
      PopStep(b, rest, sqs);
      sqs := sqs + [popped.0.value];
      rest := popped.1;
    }
  }

  /** The iterator example of the source's tests. */
  lemma IteratorExample()
    ensures SquareList(SetSquare(SetSquare(SetSquare(Empty, 0), 2), 4)) == [0, 2, 4]
  {
    var b := SetSquare(SetSquare(SetSquare(Empty, 0), 2), 4);
    EmptyFull();
    ListFromSkip(b, 5, 64);
    ListFromSkip(b, 3, 4);
    ListFromSkip(b, 1, 2);
  }
}
