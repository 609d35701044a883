/**
 * Magic-bitboard attack tables (chess-core/src/magic.rs).
 *
 * For each square a relevant-occupancy mask is computed; every subset of
 * the mask is enumerated with the carry-rippler step
 * `occ = (occ - mask) & mask`, hashed by a multiply and a shift into a
 * row of the table, and the slow ray-scan attacks for that subset are
 * stored there.  A lookup hashes the board's occupancy the same way.
 *
 * The tables are `static mut` arrays in the source; here they are the two
 * arrays of a `MagicTables` object that `Init` fills in place.
 */
module Magic {
  import opened Bitboards
  import opened Boards
  import opened Rays
  import opened Subsets

  // ---------------------------------------------------------------------
  // Relevant-occupancy masks
  // ---------------------------------------------------------------------

  /**
   * The rank half of `rook_mask` for a square at (`rank`, `file`): files
   * 1 .. f-1 of that rank, other than the square's own file.
   */
  function RookRankPart(rank: nat, file: nat, f: nat): Bitboard
    requires rank < 8 && 1 <= f <= 7
  {
    if f == 1 then Empty
    else SetIf(RookRankPart(rank, file, f - 1), f - 1 != file, rank * 8 + (f - 1))
  }

  /** The file half on top of `base`: ranks 1 .. r-1 of the file, other than the square's own rank. */
  function RookFilePart(base: Bitboard, rank: nat, file: nat, r: nat): Bitboard
    requires rank < 8 && file < 8 && 1 <= r <= 7
  {
    if r == 1 then base
    else SetIf(RookFilePart(base, rank, file, r - 1), r - 1 != rank, (r - 1) * 8 + file)
  }

  /** The squares `rook_mask` collects: the inner squares of the rank and of the file, without the square itself. */
  predicate InRookMask(s: Sq, t: Sq)
  {
    (Rank(t) == Rank(s) && 1 <= File(t) <= 6 && File(t) != File(s))
    || (File(t) == File(s) && 1 <= Rank(t) <= 6 && Rank(t) != Rank(s))
  }

  function OneIf(c: bool): nat { if c then 1 else 0 }

  /** Setting a square adds one to the count exactly when the square was absent. */
  lemma SetIfCount(m: Bitboard, cond: bool, sq: int)
    requires cond ==> 0 <= sq < 64
    ensures Count(SetIf(m, cond, sq)) == Count(m) + OneIf(cond && sq !in Elems(m))
  {
    if cond {
      CountFacts(m, sq);
      if sq in Elems(m) {
        assert Elems(SetIf(m, cond, sq)) == Elems(m);
      }
    }
  }

  lemma {:induction false} RookRankPartElems(rank: nat, file: nat, f: nat)
    requires rank < 8 && 1 <= f <= 7
    ensures forall t: Sq :: t in Elems(RookRankPart(rank, file, f)) <==>
      Rank(t) == rank && 1 <= File(t) < f && File(t) != file
  {
    if f == 1 {
      EmptyFull();
    } else {
      RookRankPartElems(rank, file, f - 1);
      var sq := rank * 8 + (f - 1);
      SquareCoordinates(f - 1, rank, sq);
      forall t: Sq
        ensures t in Elems(RookRankPart(rank, file, f)) <==> Rank(t) == rank && 1 <= File(t) < f && File(t) != file
      {
        if t != sq {
          SquareCoordinates(File(t), Rank(t), t);
        }
      }
    }
  }

  lemma RookRankPartFresh(rank: nat, file: nat, f: nat)
    requires rank < 8 && 2 <= f <= 7
    ensures rank * 8 + (f - 1) !in Elems(RookRankPart(rank, file, f - 1))
  {
    SquareCoordinates(f - 1, rank, rank * 8 + (f - 1));
    RookRankPartElems(rank, file, f - 1);
  }

  /** One step of the rank half adds one square exactly when the step is not the square's own file. */
  lemma RookRankPartStep(rank: nat, file: nat, f: nat)
    requires rank < 8 && 2 <= f <= 7
    ensures Count(RookRankPart(rank, file, f)) == Count(RookRankPart(rank, file, f - 1)) + OneIf(f - 1 != file)
  {
    if f - 1 != file {
      RookRankPartFresh(rank, file, f);
      SetIfCount(RookRankPart(rank, file, f - 1), true, rank * 8 + (f - 1));
    }
  }

  lemma {:induction false} RookRankPartCount(rank: nat, file: nat, f: nat)
    requires rank < 8 && 1 <= f <= 7
    ensures Count(RookRankPart(rank, file, f)) + OneIf(1 <= file < f) == f - 1
  {
    if f == 1 {
      CountFacts(Empty, 0);
    } else {
      RookRankPartCount(rank, file, f - 1);
      RookRankPartStep(rank, file, f);
      assert OneIf(1 <= file < f) == OneIf(1 <= file < f - 1) + OneIf(f - 1 == file);
    }
  }

  lemma {:induction false} RookFilePartElems(base: Bitboard, rank: nat, file: nat, r: nat)
    requires rank < 8 && file < 8 && 1 <= r <= 7
    ensures forall t: Sq :: t in Elems(RookFilePart(base, rank, file, r)) <==>
      t in Elems(base) || (File(t) == file && 1 <= Rank(t) < r && Rank(t) != rank)
  {
    if r > 1 {
      RookFilePartElems(base, rank, file, r - 1);
      var sq := (r - 1) * 8 + file;
      SquareCoordinates(file, r - 1, sq);
      forall t: Sq
        ensures t in Elems(RookFilePart(base, rank, file, r)) <==>
          t in Elems(base) || (File(t) == file && 1 <= Rank(t) < r && Rank(t) != rank)
      {
        if t != sq {
          SquareCoordinates(File(t), Rank(t), t);
        }
      }
    }
  }

  /** Square `i * 8 + file`: rank `i` of the file. */
  function FileSquare(i: nat, file: nat): nat { i * 8 + file }

  /** Ranks `r` and above of the file are still clear after the first `r - 1` steps. */
  lemma {:induction false} RookFilePartLacks(base: Bitboard, rank: nat, file: nat, r: nat, i: nat)
    requires rank < 8 && file < 8 && 1 <= r <= i < 8
    requires !base[FileSquare(i, file)]
    ensures !RookFilePart(base, rank, file, r)[FileSquare(i, file)]
  {
    if r > 1 {
      RookFilePartLacks(base, rank, file, r - 1, i);
    }
  }

  /** One step of the file half adds one square exactly when the step is not the square's own rank. */
  lemma RookFilePartStep(base: Bitboard, rank: nat, file: nat, r: nat)
    requires rank < 8 && file < 8 && 2 <= r <= 7
    requires r - 1 != rank ==> !base[FileSquare(r - 1, file)]
    ensures Count(RookFilePart(base, rank, file, r)) == Count(RookFilePart(base, rank, file, r - 1)) + OneIf(r - 1 != rank)
  {
    var m := RookFilePart(base, rank, file, r - 1);
    if r - 1 != rank {
      RookFilePartLacks(base, rank, file, r - 1, r - 1);
      SetIfCount(m, true, FileSquare(r - 1, file));
    }
  }

  lemma {:induction false} RookFilePartCount(base: Bitboard, rank: nat, file: nat, r: nat)
    requires rank < 8 && file < 8 && 1 <= r <= 7
    requires forall i :: 1 <= i < 7 && i != rank ==> !base[FileSquare(i, file)]
    ensures Count(RookFilePart(base, rank, file, r)) + OneIf(1 <= rank < r) == Count(base) + r - 1
  {
    if r > 1 {
      RookFilePartCount(base, rank, file, r - 1);
      RookFilePartStep(base, rank, file, r);
      assert OneIf(1 <= rank < r) == OneIf(1 <= rank < r - 1) + OneIf(r - 1 == rank);
    }
  }

  /** The rook mask as a value. */
  function RookMaskBits(s: Sq): (r: Bitboard)
    ensures forall t: Sq :: t in Elems(r) <==> InRookMask(s, t)
    ensures Count(r) == 12 - OneIf(1 <= File(s) <= 6) - OneIf(1 <= Rank(s) <= 6)
  {
    RookMaskElems(s, RookRankPart(Rank(s), File(s), 7));
    RookMaskCount(s, RookRankPart(Rank(s), File(s), 7));
    RookFilePart(RookRankPart(Rank(s), File(s), 7), Rank(s), File(s), 7)
  }

  lemma RookMaskElems(s: Sq, base: Bitboard)
    requires base == RookRankPart(Rank(s), File(s), 7)
    ensures forall t: Sq :: t in Elems(RookFilePart(base, Rank(s), File(s), 7)) <==> InRookMask(s, t)
  {
    RookRankPartElems(Rank(s), File(s), 7);
    RookFilePartElems(base, Rank(s), File(s), 7);
  }

  lemma RookMaskCount(s: Sq, base: Bitboard)
    requires base == RookRankPart(Rank(s), File(s), 7)
    ensures Count(RookFilePart(base, Rank(s), File(s), 7)) ==
      12 - OneIf(1 <= File(s) <= 6) - OneIf(1 <= Rank(s) <= 6)
  {
    forall i | 1 <= i < 7 && i != Rank(s)
      ensures !base[FileSquare(i, File(s))]
    {
      var t := FileSquare(i, File(s));
      SquareCoordinates(File(s), i, t);
      RookRankPartElems(Rank(s), File(s), 7);
      assert t !in Elems(base);
    }
    RookRankPartCount(Rank(s), File(s), 7);
    RookFilePartCount(base, Rank(s), File(s), 7);
  }

  /**
   * rook_mask: the two `for` loops over files 1..6 and ranks 1..6.  The
   * mask holds the inner squares of the rook's rank and file (10 to 12 of
   * them), never the rook's own square.
   */
  method RookMask(square: Sq) returns (mask: Bitboard)
    ensures mask == RookMaskBits(square)
    ensures forall t: Sq :: t in Elems(mask) <==> InRookMask(square, t)
    ensures 10 <= Count(mask) <= 12 && square !in Elems(mask)
  {
    mask := Empty;
    var rank := square / 8;
    var file := square % 8;
    assert rank == Rank(square) && file == File(square);
    for f := 1 to 7
      invariant mask == RookRankPart(rank, file, f)
    {
      if f != file {
        mask := SetSquare(mask, rank * 8 + f);
      }
    }
    for r := 1 to 7
      invariant mask == RookFilePart(RookRankPart(rank, file, 7), rank, file, r)
    {
      if r != rank {
        mask := SetSquare(mask, r * 8 + file);
      }
    }
    assert mask == RookMaskBits(square);
    assert !InRookMask(square, square);
  }

  /**
   * The test `bishop_mask` applies to the pair (g, g) of its zipped loop:
   * the rank and file distances from the square agree and the rank
   * distance is not 0.
   */
  predicate BishopCond(rank: nat, file: nat, g: nat)
  {
    Abs(g - rank) == Abs(g - file) && g != rank
  }

  /** `bishop_mask` after the pairs (1, 1) .. (i-1, i-1). */
  function BishopPart(rank: nat, file: nat, i: nat): Bitboard
    requires 1 <= i <= 7
  {
    if i == 1 then Empty
    else SetIf(BishopPart(rank, file, i - 1), BishopCond(rank, file, i - 1), (i - 1) * 9)
  }

  /**
   * The squares `bishop_mask` collects.  Because the loop zips the rank
   * range with the file range, only the squares (g, g) of the a1-h8
   * diagonal between b2 and g7 are ever looked at.
   */
  predicate InBishopMask(s: Sq, t: Sq)
  {
    Rank(t) == File(t) && 1 <= Rank(t) <= 6 && BishopCond(Rank(s), File(s), Rank(t))
  }

  /** The square (g, g) of the a1-h8 diagonal is the square 9 * g. */
  lemma DiagonalSquare(t: Sq, g: nat)
    requires g < 8
    ensures (Rank(t) == File(t) && Rank(t) == g) <==> t == g * 9
  {
    assert t == 8 * Rank(t) + File(t);
  }

  lemma {:induction false} BishopPartElems(rank: nat, file: nat, i: nat)
    requires 1 <= i <= 7
    ensures forall t: Sq :: t in Elems(BishopPart(rank, file, i)) <==>
      Rank(t) == File(t) && 1 <= Rank(t) < i && BishopCond(rank, file, Rank(t))
  {
    if i == 1 {
      EmptyFull();
    } else {
      BishopPartElems(rank, file, i - 1);
      forall t: Sq
        ensures t in Elems(BishopPart(rank, file, i)) <==>
          Rank(t) == File(t) && 1 <= Rank(t) < i && BishopCond(rank, file, Rank(t))
      {
        DiagonalSquare(t, i - 1);
      }
    }
  }

  lemma {:induction false} BishopPartCount(rank: nat, file: nat, i: nat)
    requires 1 <= i <= 7
    ensures Count(BishopPart(rank, file, i)) < i
  {
    if i == 1 {
      CountFacts(Empty, 0);
    } else {
      BishopPartCount(rank, file, i - 1);
      SetIfCount(BishopPart(rank, file, i - 1), BishopCond(rank, file, i - 1), (i - 1) * 9);
    }
  }

  /** The bishop mask as a value. */
  function BishopMaskBits(s: Sq): (r: Bitboard)
    ensures forall t: Sq :: t in Elems(r) <==> InBishopMask(s, t)
    ensures Count(r) <= 6
  {
    BishopPartElems(Rank(s), File(s), 7);
    BishopPartCount(Rank(s), File(s), 7);
    BishopPart(Rank(s), File(s), 7)
  }

  /** Every square of the bishop mask is one of b2, c3, .., g7, the multiples of 9 from 9 to 54. */
  lemma BishopMaskDiagonal(s: Sq)
    ensures forall t: Sq :: t in Elems(BishopMaskBits(s)) ==> t % 9 == 0 && 9 <= t <= 54
  {
    forall t: Sq | t in Elems(BishopMaskBits(s))
      ensures t % 9 == 0 && 9 <= t <= 54
    {
      assert Rank(t) == File(t) && 1 <= Rank(t) <= 6;
      DiagonalSquare(t, Rank(t));
    }
  }

  /**
   * bishop_mask: one loop over the zipped pairs (1, 1) .. (6, 6).  The mask
   * lies on the b2-g7 stretch of the long diagonal, has at most 6 squares
   * and never holds the bishop's own square.
   */
  method BishopMask(square: Sq) returns (mask: Bitboard)
    ensures mask == BishopMaskBits(square)
    ensures forall t: Sq :: t in Elems(mask) <==> InBishopMask(square, t)
    ensures forall t: Sq :: t in Elems(mask) ==> t % 9 == 0 && 9 <= t <= 54
    ensures Count(mask) <= 6 && square !in Elems(mask)
  {
    mask := Empty;
    var rank := square / 8;
    var file := square % 8;
    for g := 1 to 7
      invariant mask == BishopPart(rank, file, g)
    {
      var rankDiff := g - rank;
      var fileDiff := g - file;
      if Abs(rankDiff) == Abs(fileDiff) && rankDiff != 0 {
        mask := SetSquare(mask, g * 8 + g);
      }
    }
    BishopMaskDiagonal(square);
  }

  // ---------------------------------------------------------------------
  // Shifts and indices
  // ---------------------------------------------------------------------

  /** The shift for a mask of `count` squares: `64 - count`, or 0 for an empty (or full) mask. */
  function ShiftOf(count: nat): nat
  {
    if count == 0 || count >= 64 then 0 else 64 - count
  }

  /** rook_shift: 64 minus the rook mask's popcount, between 52 and 54. */
  method RookShift(square: Sq) returns (shift: nat)
    ensures shift == ShiftOf(Count(RookMaskBits(square)))
    ensures shift + Count(RookMaskBits(square)) == 64 && 52 <= shift <= 54
  {
    var mask := RookMask(square);
    shift := ShiftOf(Count(mask));
  }

  /** bishop_shift: 64 minus the bishop mask's popcount (58 to 63), or 0 for an empty mask. */
  method BishopShift(square: Sq) returns (shift: nat)
    ensures shift == ShiftOf(Count(BishopMaskBits(square)))
    ensures shift == 0 <==> Count(BishopMaskBits(square)) == 0
    ensures shift != 0 ==> shift + Count(BishopMaskBits(square)) == 64 && 58 <= shift
  {
    var mask := BishopMask(square);
    shift := ShiftOf(Count(mask));
  }

  /** `u64::wrapping_mul`. */
  function WrappingMul(a: nat, b: nat): (r: nat)
    ensures r < WordRange
  {
    (a * b) % WordRange
  }

  lemma WrappingMulZero(b: nat)
    ensures WrappingMul(0, b) == 0
  {
    ZeroMod(0 * b, WordRange);
  }

  lemma ZeroMod(z: int, n: int)
    requires z == 0 && n > 0
    ensures z % n == 0
  {
  }

  /** `((occupancy & mask).wrapping_mul(magic) >> shift) as usize`. */
  function MagicIndex(occupancy: Bitboard, mask: Bitboard, magic: nat, shift: nat): nat
  {
    var product := WrappingMul(ToNat(And(occupancy, mask)), magic);
    QuotientNat(product, Pow2(shift));
    product / Pow2(shift)
  }

  lemma QuotientNat(x: nat, d: nat)
    requires d > 0
    ensures x / d >= 0
  {
  }

  lemma {:induction false} Pow2Add(a: nat, b: nat)
    ensures Pow2(a + b) == Pow2(a) * Pow2(b)
  {
    if a > 0 {
      Pow2Add(a - 1, b);
    }
  }

  lemma {:induction false} Pow2Monotone(a: nat, b: nat)
    requires a <= b
    ensures Pow2(a) <= Pow2(b)
  {
    if a < b {
      Pow2Monotone(a, b - 1);
    }
  }

  /** A number below `d * q` divided by `d` is below `q`. */
  lemma DivBelow(x: nat, d: nat, q: nat)
    requires 0 < d && x < d * q
    ensures x / d < q
  {
    var k := x / d;
    assert d * k <= x;
    if k >= q {
      MulLe(d, q, k);
    }
  }

  lemma MulLe(d: nat, a: nat, b: nat)
    requires a <= b
    ensures d * a <= d * b
  {
  }

  /** A word shifted right by `64 - count` is below `2^count`. */
  lemma ShiftedBelow(x: nat, count: nat)
    requires 0 < count < 64 && x < Pow2(64)
    ensures x / Pow2(64 - count) < Pow2(count)
  {
    Pow2Add(64 - count, count);
    DivBelow(x, Pow2(64 - count), Pow2(count));
  }

  /** Only the squares of the mask take part in the index. */
  lemma AndMask(occupancy: Bitboard, mask: Bitboard)
    ensures And(And(occupancy, mask), mask) == And(occupancy, mask)
    ensures IsEmpty(mask) ==> ToNat(And(occupancy, mask)) == 0
  {
    Extensionality(And(And(occupancy, mask), mask), And(occupancy, mask));
    if IsEmpty(mask) {
      assert IsEmpty(And(occupancy, mask));
    }
  }

  /**
   * The index of any occupancy with the shift of its mask is below
   * `2^popcount(mask)`: the multiply keeps 64 bits and the shift leaves
   * the top `popcount(mask)` of them.
   */
  lemma IndexBound(occupancy: Bitboard, mask: Bitboard, magic: nat)
    ensures MagicIndex(occupancy, mask, magic, ShiftOf(Count(mask))) < Pow2(Count(mask))
  {
    var c := Count(mask);
    var x := WrappingMul(ToNat(And(occupancy, mask)), magic);
    if c == 0 {
      AndMask(occupancy, mask);
      assert IsEmpty(mask);
      WrappingMulZero(magic);
    } else if c < 64 {
      ShiftedBelow(x, c);
    } else {
      assert ShiftOf(c) == 0 && Pow2(c) == WordRange;
    }
  }

  /** The index depends on the occupancy only through its squares in the mask. */
  lemma IndexRelevant(occupancy: Bitboard, mask: Bitboard, magic: nat, shift: nat)
    ensures MagicIndex(occupancy, mask, magic, shift) == MagicIndex(And(occupancy, mask), mask, magic, shift)
  {
    AndMask(occupancy, mask);
  }

  // ---------------------------------------------------------------------
  // Relevant squares
  // ---------------------------------------------------------------------

  /** The `k`-th square of a ray is an inner one: the ray goes on past it. */
  predicate Inner(s: Sq, d: Direction, k: int)
  {
    1 <= k && OnBoard(s, d, k) && OnBoard(s, d, k + 1)
  }

  /**
   * A ray depends only on the occupancy of its inner squares: its last
   * square before the edge is attacked whether or not it is occupied.
   */
  lemma RayInner(s: Sq, d: Direction, occ: set<int>, m: set<int>)
    requires Moving(d)
    requires forall k :: Inner(s, d, k) ==> Target(s, d, k) in m
    ensures Ray(s, d, occ) == Ray(s, d, occ * m)
  {
    forall t: Sq
      ensures t in Ray(s, d, occ) <==> t in Ray(s, d, occ * m)
    {
      RayMember(s, d, occ, t);
      RayMember(s, d, occ * m, t);
      var n := Dist(s, t);
      if 1 <= n && OnBoard(s, d, n) {
        forall i | 1 <= i < n && OnBoard(s, d, i)
          ensures Target(s, d, i) in occ <==> Target(s, d, i) in occ * m
        {
          OnBoardBefore(s, d, i + 1, n);
          assert Inner(s, d, i);
        }
        assert Clear(s, d, occ, 1, n) <==> Clear(s, d, occ * m, 1, n);
      }
    }
  }

  /** The inner squares of the rook's four rays are in the rook mask. */
  lemma RookInner(s: Sq, d: Direction)
    requires d == Rays.North || d == Rays.South || d == Rays.East || d == Rays.West
    ensures forall k :: Inner(s, d, k) ==> Target(s, d, k) in Elems(RookMaskBits(s))
  {
    forall k | Inner(s, d, k)
      ensures Target(s, d, k) in Elems(RookMaskBits(s))
    {
      assert InRookMask(s, Target(s, d, k));
    }
  }

  /**
   * Rook attacks depend only on the occupancy of the rook mask, so the
   * rook table needs one entry per subset of the mask.
   */
  lemma RookRelevant(s: Sq, occ: set<int>)
    ensures RookAttacksOf(s, occ) == RookAttacksOf(s, occ * Elems(RookMaskBits(s)))
  {
    var m := Elems(RookMaskBits(s));
    RookInner(s, Rays.North);
    RookInner(s, Rays.South);
    RookInner(s, Rays.East);
    RookInner(s, Rays.West);
    RayInner(s, Rays.North, occ, m);
    RayInner(s, Rays.South, occ, m);
    RayInner(s, Rays.East, occ, m);
    RayInner(s, Rays.West, occ, m);
  }

  /** `acc` with the inner squares of ray `d`, from step `k` out, added. */
  function InnerFrom(s: Sq, d: Direction, k: nat, acc: Bitboard): Bitboard
    requires k >= 1
    decreases 8 - k
  {
    if k >= 7 || !Inner(s, d, k) then acc
    else InnerFrom(s, d, k + 1, SetSquare(acc, Target(s, d, k)))
  }

  /** How many inner squares ray `d` has from step `k` out. */
  function InnerCount(s: Sq, d: Direction, k: nat): nat
    requires k >= 1
    decreases 8 - k
  {
    if k >= 7 || !Inner(s, d, k) then 0 else 1 + InnerCount(s, d, k + 1)
  }

  lemma {:induction false} InnerFromElems(s: Sq, d: Direction, k: nat, acc: Bitboard, t: Sq)
    requires Moving(d) && k >= 1
    ensures t in Elems(InnerFrom(s, d, k, acc)) <==>
      t in Elems(acc) || (k <= Dist(s, t) && Inner(s, d, Dist(s, t)) && Target(s, d, Dist(s, t)) == t)
    decreases 8 - k
  {
    if k < 7 && Inner(s, d, k) {
      InnerFromElems(s, d, k + 1, SetSquare(acc, Target(s, d, k)), t);
      InnerStep(s, d, k, t);
    } else {
      InnerEnd(s, d, k, t);
    }
  }

  /** The inner squares from step `k` out are the `k`-th one and those from `k + 1` out. */
  lemma InnerStep(s: Sq, d: Direction, k: nat, t: Sq)
    requires Moving(d) && Inner(s, d, k)
    ensures (k <= Dist(s, t) && Inner(s, d, Dist(s, t)) && Target(s, d, Dist(s, t)) == t) <==>
      (t == Target(s, d, k) || (k + 1 <= Dist(s, t) && Inner(s, d, Dist(s, t)) && Target(s, d, Dist(s, t)) == t))
  {
    TargetDist(s, d, k);
  }

  /** Once a step is not inner, no later step is. */
  lemma InnerEnd(s: Sq, d: Direction, k: nat, t: Sq)
    requires Moving(d) && k >= 1 && !(k < 7 && Inner(s, d, k))
    ensures !(k <= Dist(s, t) && Inner(s, d, Dist(s, t)))
  {
    if k <= Dist(s, t) && OnBoard(s, d, Dist(s, t) + 1) {
      OnBoardBefore(s, d, k, Dist(s, t) + 1);
      OnBoardBefore(s, d, k + 1, Dist(s, t) + 1);
    }
  }

  /** Setting a square adds at most one to the count. */
  lemma SetSquareCount(b: Bitboard, t: Sq)
    ensures Count(SetSquare(b, t)) <= Count(b) + 1
  {
    CountFacts(b, t);
    if t in Elems(b) {
      Extensionality(SetSquare(b, t), b);
    }
  }

  lemma {:induction false} InnerFromCount(s: Sq, d: Direction, k: nat, acc: Bitboard)
    requires k >= 1
    ensures Count(InnerFrom(s, d, k, acc)) <= Count(acc) + InnerCount(s, d, k)
    decreases 8 - k
  {
    if k < 7 && Inner(s, d, k) {
      InnerFromCount(s, d, k + 1, SetSquare(acc, Target(s, d, k)));
      SetSquareCount(acc, Target(s, d, k));
    }
  }

  /** How far a coordinate can move in one direction before leaving the board. */
  function Span(x: int, d: Delta): int
  {
    match d
    case Plus => 7 - x
    case Minus => x
    case Zero => 7
  }

  function Min(a: int, b: int): int { if a < b then a else b }

  function Pos(x: int): nat { if x > 0 then x else 0 }

  /** A ray from `s` has one inner square fewer than it has squares. */
  lemma {:induction false} InnerCountValue(s: Sq, d: Direction, k: nat)
    requires Moving(d) && k >= 1
    ensures InnerCount(s, d, k) == Pos(Min(Span(Rank(s), d.dr), Span(File(s), d.df)) - k)
    decreases 8 - k
  {
    OnBoardSpan(s, d, k);
    OnBoardSpan(s, d, k + 1);
    if k < 7 && Inner(s, d, k) {
      InnerCountValue(s, d, k + 1);
    }
  }

  /** A ray stays on the board for as many steps as the smaller span allows. */
  lemma OnBoardSpan(s: Sq, d: Direction, j: nat)
    requires Moving(d)
    ensures OnBoard(s, d, j) <==> j <= Min(Span(Rank(s), d.dr), Span(File(s), d.df))
  {
  }

  /** The four diagonal rays from any square have at most 9 inner squares together. */
  lemma DiagonalInnerSum(r: int, f: int)
    requires 0 <= r < 8 && 0 <= f < 8
    ensures Pos(Min(7 - r, 7 - f) - 1) + Pos(Min(7 - r, f) - 1) + Pos(Min(r, 7 - f) - 1) + Pos(Min(r, f) - 1) <= 9
  {
  }

  /**
   * The bishop mask a magic table needs (the evident intent of
   * `bishop_mask`): the inner squares of the four diagonal rays.
   */
  function IntendedBishopMask(s: Sq): Bitboard
  {
    InnerFrom(s, Rays.SouthWest, 1, InnerFrom(s, Rays.SouthEast, 1, InnerFrom(s, Rays.NorthWest, 1, InnerFrom(s, Rays.NorthEast, 1, Empty))))
  }

  /** Every inner square of a diagonal ray is in the intended mask. */
  lemma IntendedBishopMaskHas(s: Sq, d: Direction, k: int)
    requires d == Rays.NorthEast || d == Rays.NorthWest || d == Rays.SouthEast || d == Rays.SouthWest
    requires Inner(s, d, k)
    ensures Target(s, d, k) in Elems(IntendedBishopMask(s))
  {
    var t := Target(s, d, k);
    TargetDist(s, d, k);
    var a := InnerFrom(s, Rays.NorthEast, 1, Empty);
    var b := InnerFrom(s, Rays.NorthWest, 1, a);
    var c := InnerFrom(s, Rays.SouthEast, 1, b);
    InnerFromElems(s, Rays.NorthEast, 1, Empty, t);
    InnerFromElems(s, Rays.NorthWest, 1, a, t);
    InnerFromElems(s, Rays.SouthEast, 1, b, t);
    InnerFromElems(s, Rays.SouthWest, 1, c, t);
  }

  /** The intended mask has at most 9 squares, so it fits the 512-entry bishop rows. */
  lemma IntendedBishopMaskCount(s: Sq)
    ensures Count(IntendedBishopMask(s)) <= 9
  {
    var a := InnerFrom(s, Rays.NorthEast, 1, Empty);
    var b := InnerFrom(s, Rays.NorthWest, 1, a);
    var c := InnerFrom(s, Rays.SouthEast, 1, b);
    CountFacts(Empty, 0);
    InnerFromCount(s, Rays.NorthEast, 1, Empty);
    InnerFromCount(s, Rays.NorthWest, 1, a);
    InnerFromCount(s, Rays.SouthEast, 1, b);
    InnerFromCount(s, Rays.SouthWest, 1, c);
    var r, f := Rank(s), File(s);
    assert InnerCount(s, Rays.NorthEast, 1) == Pos(Min(7 - r, 7 - f) - 1) by {
      InnerCountValue(s, Rays.NorthEast, 1);
    }
    assert InnerCount(s, Rays.NorthWest, 1) == Pos(Min(7 - r, f) - 1) by {
      InnerCountValue(s, Rays.NorthWest, 1);
    }
    assert InnerCount(s, Rays.SouthEast, 1) == Pos(Min(r, 7 - f) - 1) by {
      InnerCountValue(s, Rays.SouthEast, 1);
    }
    assert InnerCount(s, Rays.SouthWest, 1) == Pos(Min(r, f) - 1) by {
      InnerCountValue(s, Rays.SouthWest, 1);
    }
    DiagonalInnerSum(r, f);
  }

  /** Bishop attacks depend only on the occupancy of the intended bishop mask. */
  lemma BishopRelevant(s: Sq, occ: set<int>)
    ensures BishopAttacksOf(s, occ) == BishopAttacksOf(s, occ * Elems(IntendedBishopMask(s)))
  {
    var m := Elems(IntendedBishopMask(s));
    forall d, k | (d == Rays.NorthEast || d == Rays.NorthWest || d == Rays.SouthEast || d == Rays.SouthWest) && Inner(s, d, k)
      ensures Target(s, d, k) in m
    {
      IntendedBishopMaskHas(s, d, k);
    }
    RayInner(s, Rays.NorthEast, occ, m);
    RayInner(s, Rays.NorthWest, occ, m);
    RayInner(s, Rays.SouthEast, occ, m);
    RayInner(s, Rays.SouthWest, occ, m);
  }

  // ---------------------------------------------------------------------
  // The attack tables
  // ---------------------------------------------------------------------

  /** ROOK_MAGICS, one multiplier per square. */
  const RookMagics: seq<nat> := [
    0x0080001020400080, 0x0040001000200040, 0x0080081000200080, 0x0080040800100080,
    0x0080020400080080, 0x0080010200040080, 0x0080008001000200, 0x0080002040800100,
    0x0000800020400080, 0x0000400020005000, 0x0000801000200080, 0x0000800800100080,
    0x0000800400080080, 0x0000800200040080, 0x0000800100020080, 0x0000800040800100,
    0x0000208000400080, 0x0000404000201000, 0x0000808010002000, 0x0000808008001000,
    0x0000808004000800, 0x0000808002000400, 0x0000010100020004, 0x0000020000408104,
    0x0000208080004000, 0x0000200040005000, 0x0000100080200080, 0x0000080080100080,
    0x0000040080080080, 0x0000020080040080, 0x0000010080800200, 0x0000800080004100,
    0x0000204000800080, 0x0000200040401000, 0x0000100080802000, 0x0000080080801000,
    0x0000040080800800, 0x0000020080800400, 0x0000020001010004, 0x0000800040800100,
    0x0000204000808000, 0x0000200040008080, 0x0000100020008080, 0x0000080010008080,
    0x0000040008008080, 0x0000020004008080, 0x0000010002008080, 0x0000004081020004,
    0x0000204000800080, 0x0000200040008080, 0x0000100020008080, 0x0000080010008080,
    0x0000040008008080, 0x0000020004008080, 0x0000800100020080, 0x0000800041000080,
    0x00FFFCDDFCED714A, 0x007FFCDDFCED714A, 0x003FFFCDFFD88096, 0x0000040810002101,
    0x0001000204080011, 0x0001000204000801, 0x0001000082000401, 0x0001FFFAABFAD1A2
  ]

  /** BISHOP_MAGICS, one multiplier per square. */
  const BishopMagics: seq<nat> := [
    0x0002020202020200, 0x0002020202020000, 0x0004010202000000, 0x0004040080000000,
    0x0001104000000000, 0x0000821040000000, 0x0000410410400000, 0x0000104104104000,
    0x0000040404040400, 0x0000020202020200, 0x0000040102020000, 0x0000040400800000,
    0x0000011040000000, 0x0000008210400000, 0x0000004104104000, 0x0000002082082000,
    0x0004000808080800, 0x0002000404040400, 0x0001000202020200, 0x0000800802004000,
    0x0000800400A00000, 0x0000200100884000, 0x0000400082082000, 0x0000200041041000,
    0x0002080010101000, 0x0001040008080800, 0x0000208004010400, 0x0000404004010200,
    0x0000840000802000, 0x0000404002011000, 0x0000808001041000, 0x0000404000820800,
    0x0001041000202000, 0x0000820800101000, 0x0000104400080800, 0x0000020080080080,
    0x0000404040040100, 0x0000808100020100, 0x0001010100020800, 0x0000808080010400,
    0x0000820820004000, 0x0000410410002000, 0x0000082088001000, 0x0000002011000800,
    0x0000080100400400, 0x0001010101000200, 0x0000608090A00C00, 0x0001010101000200,
    0x0000804040800100, 0x0001002020200100, 0x000080809000A100, 0x0000808080050100,
    0x0000808080080100, 0x0000808080100100, 0x0000404040004280, 0x0000404040002140,
    0x0000208104000080, 0x0000404040002120, 0x0000208104000040, 0x0000208104000020,
    0x0000208104000010, 0x0000081040000400, 0x0000041040000200, 0x0000021040000100
  ]

  /**
   * The kinds of table: the rook table, the bishop table as magic.rs
   * builds it (over `bishop_mask`), and a bishop table over the corrected
   * mask, which is what the bishop table is evidently meant to be.
   */
  datatype Slider = Orthogonal | Diagonal | IntendedDiagonal

  /** Entries per square: 4096 in ROOK_ATTACKS, 512 in BISHOP_ATTACKS. */
  function RowSize(k: Slider): nat
  {
    if k == Orthogonal then 4096 else 512
  }

  /** The mask a table is built over and read through. */
  function MaskOf(k: Slider, s: Sq): Bitboard
  {
    match k
    case Orthogonal => RookMaskBits(s)
    case Diagonal => BishopMaskBits(s)
    case IntendedDiagonal => IntendedBishopMask(s)
  }

  function MagicOf(k: Slider, s: Sq): nat
  {
    if k == Orthogonal then RookMagics[s] else BishopMagics[s]
  }

  /** The attacks a table stands for: the ray scans of the slider. */
  function AttacksOf(k: Slider, s: Sq, occ: set<int>): set<int>
  {
    if k == Orthogonal then RookAttacksOf(s, occ) else BishopAttacksOf(s, occ)
  }

  /**
   * Every mask fits its rows: at most 12 rook squares, at most 6 squares of
   * `bishop_mask` and at most 9 of the corrected bishop mask.
   */
  lemma MaskFits(k: Slider, s: Sq)
    ensures Pow2(Count(MaskOf(k, s))) <= RowSize(k)
  {
    if k == Orthogonal {
      Pow2Monotone(Count(MaskOf(k, s)), 12);
      assert Pow2(12) == 4096;
    } else {
      if k == IntendedDiagonal {
        IntendedBishopMaskCount(s);
      }
      Pow2Monotone(Count(MaskOf(k, s)), 9);
      assert Pow2(9) == 512;
    }
  }

  /** The slot an occupancy is hashed to; always inside the row. */
  function Key(k: Slider, s: Sq, magic: nat, occ: Bitboard): (r: nat)
    ensures r < RowSize(k)
  {
    MaskFits(k, s);
    IndexBound(occ, MaskOf(k, s), magic);
    MagicIndex(occ, MaskOf(k, s), magic, ShiftOf(Count(MaskOf(k, s))))
  }

  /**
   * A slot value is right for subset `b` when it is the attack set of
   * some subset of the mask with the same key (a later subset may have
   * overwritten an earlier one).
   */
  ghost predicate Stored(v: Bitboard, k: Slider, s: Sq, magic: nat, b: Bitboard)
  {
    exists c: Bitboard :: SubsetOf(c, MaskOf(k, s)) && Key(k, s, magic, c) == Key(k, s, magic, b)
      && Elems(v) == AttacksOf(k, s, Elems(c))
  }

  /** The row of square `s` has been filled: every subset of the mask has its slot. */
  ghost predicate Built(row: array<Bitboard>, k: Slider, s: Sq, magic: nat)
    requires row.Length == RowSize(k)
    reads row
  {
    forall b: Bitboard :: SubsetOf(b, MaskOf(k, s)) ==> Stored(row[Key(k, s, magic, b)], k, s, magic, b)
  }

  /**
   * The magic number of square `s` sends subsets with different attacks
   * to different slots (only constructive collisions).
   */
  ghost predicate GoodMagic(k: Slider, s: Sq, magic: nat)
  {
    forall b: Bitboard, c: Bitboard ::
      SubsetOf(b, MaskOf(k, s)) && SubsetOf(c, MaskOf(k, s)) && Key(k, s, magic, b) == Key(k, s, magic, c)
      ==> AttacksOf(k, s, Elems(b)) == AttacksOf(k, s, Elems(c))
  }

  /** The subsets below `n` all have their slots in the row. */
  ghost predicate StoredBelow(row: array<Bitboard>, k: Slider, s: Sq, magic: nat, n: int)
    requires row.Length == RowSize(k)
    reads row
  {
    forall b: Bitboard :: SubsetOf(b, MaskOf(k, s)) && ToNat(b) < n ==> Stored(row[Key(k, s, magic, b)], k, s, magic, b)
  }

  /**
   * The store of the loop body: the attacks of `occupancy` go into the
   * slot it hashes to, which keeps every subset below it right and makes
   * `occupancy` right too.
   */
  method Store(row: array<Bitboard>, k: Slider, s: Sq, mask: Bitboard, magic: nat, shift: nat, occupancy: Bitboard, attacks: Bitboard)
    requires row.Length == RowSize(k)
    requires mask == MaskOf(k, s) && shift == ShiftOf(Count(mask))
    requires SubsetOf(occupancy, mask) && StoredBelow(row, k, s, magic, ToNat(occupancy))
    requires Elems(attacks) == AttacksOf(k, s, Elems(occupancy))
    modifies row
    ensures row[..] == old(row[..])[Key(k, s, magic, occupancy) := attacks]
    ensures StoredBelow(row, k, s, magic, ToNat(occupancy) + 1)
  {
    var index := MagicIndex(occupancy, mask, magic, shift);
    assert index == Key(k, s, magic, occupancy);
    row[index] := attacks;
    forall b: Bitboard | SubsetOf(b, MaskOf(k, s)) && ToNat(b) < ToNat(occupancy) + 1
      ensures Stored(row[Key(k, s, magic, b)], k, s, magic, b)
    {
      if Key(k, s, magic, b) == Key(k, s, magic, occupancy) {
        assert Elems(row[Key(k, s, magic, b)]) == AttacksOf(k, s, Elems(occupancy));
      } else if ToNat(b) == ToNat(occupancy) {
        ToNatInjective(b, occupancy);
      }
    }
  }

  /** Once every subset lies below `n`, the row is built. */
  lemma BuiltFromBelow(row: array<Bitboard>, k: Slider, s: Sq, magic: nat, n: int)
    requires row.Length == RowSize(k)
    requires StoredBelow(row, k, s, magic, n)
    requires forall b: Bitboard :: SubsetOf(b, MaskOf(k, s)) ==> ToNat(b) < n
    ensures Built(row, k, s, magic)
  {
  }

  /** When the step after `occupancy` wraps to 0, storing it completed the row. */
  lemma LastSubsetStored(row: array<Bitboard>, k: Slider, s: Sq, magic: nat, mask: Bitboard, occupancy: Bitboard)
    requires row.Length == RowSize(k) && mask == MaskOf(k, s)
    requires SubsetOf(occupancy, mask) && StoredBelow(row, k, s, magic, ToNat(occupancy) + 1)
    requires IsEmpty(NextSubset(occupancy, mask))
    ensures Built(row, k, s, magic)
  {
    NextSubsetStep(occupancy, mask);
    BuiltFromBelow(row, k, s, magic, ToNat(occupancy) + 1);
  }

  /** Otherwise the next subset is higher, and every subset below it is stored. */
  lemma NextSubsetStored(row: array<Bitboard>, k: Slider, s: Sq, magic: nat, occupancy: Bitboard)
    requires row.Length == RowSize(k)
    requires SubsetOf(occupancy, MaskOf(k, s)) && StoredBelow(row, k, s, magic, ToNat(occupancy) + 1)
    requires !IsEmpty(NextSubset(occupancy, MaskOf(k, s)))
    ensures ToNat(occupancy) < ToNat(NextSubset(occupancy, MaskOf(k, s))) < WordRange
    ensures StoredBelow(row, k, s, magic, ToNat(NextSubset(occupancy, MaskOf(k, s))))
  {
    NextSubsetStep(occupancy, MaskOf(k, s));
  }

  /** `rook_mask`, `bishop_mask`, or the corrected bishop mask. */
  method SliderMask(k: Slider, square: Sq) returns (mask: Bitboard)
    ensures mask == MaskOf(k, square)
    ensures k == Diagonal ==> forall t: Sq :: t in Elems(mask) <==> InBishopMask(square, t)
  {
    match k {
      case Orthogonal =>
        mask := RookMask(square);
      case Diagonal =>
        mask := BishopMask(square);
      case IntendedDiagonal =>
        mask := IntendedBishopMask(square);
    }
  }

  /** `rook_shift`, `bishop_shift`, or the shift of the corrected bishop mask. */
  method SliderShift(k: Slider, square: Sq) returns (shift: nat)
    ensures shift == ShiftOf(Count(MaskOf(k, square)))
    ensures shift == 0 <==> IsEmpty(MaskOf(k, square))
  {
    match k {
      case Orthogonal =>
        shift := RookShift(square);
      case Diagonal =>
        shift := BishopShift(square);
      case IntendedDiagonal =>
        IntendedBishopMaskCount(square);
        shift := ShiftOf(Count(IntendedBishopMask(square)));
    }
    CountFacts(MaskOf(k, square), 0);
  }

  /** `rook_attacks` or `bishop_attacks` of magic.rs: the same ray scans as magic_simple.rs. */
  method SliderAttacks(k: Slider, square: Sq, occupancy: Bitboard) returns (attacks: Bitboard)
    ensures Elems(attacks) == AttacksOf(k, square, Elems(occupancy))
  {
    if k == Orthogonal {
      attacks := Rays.GetRookAttacks(square, occupancy);
    } else {
      attacks := Rays.GetBishopAttacks(square, occupancy);
    }
  }

  /** Nothing is below the first subset, 0. */
  lemma NothingBelowEmpty(row: array<Bitboard>, k: Slider, s: Sq, magic: nat)
    requires row.Length == RowSize(k)
    ensures StoredBelow(row, k, s, magic, ToNat(Empty)) && SubsetOf(Empty, MaskOf(k, s))
  {
    EmptyFull();
  }

  /**
   * The loop of init_rook_attacks / init_bishop_attacks: walk every subset
   * of the mask with the carry-rippler step, from 0 back to 0, and store
   * the ray-scan attacks of each in the slot it hashes to.  Whatever the
   * magic number, every subset's slot then holds the attacks of a subset
   * with the same key.
   */
  method FillRow(row: array<Bitboard>, k: Slider, square: Sq, mask: Bitboard, magic: nat, shift: nat)
    requires row.Length == RowSize(k)
    requires mask == MaskOf(k, square) && shift == ShiftOf(Count(mask))
    modifies row
    ensures Built(row, k, square, magic)
  {
    var occupancy := Empty;
    NothingBelowEmpty(row, k, square, magic);
    while true
      invariant SubsetOf(occupancy, mask)
      invariant StoredBelow(row, k, square, magic, ToNat(occupancy))
      decreases WordRange - ToNat(occupancy)
    {
      var attacks := SliderAttacks(k, square, occupancy);
      Store(row, k, square, mask, magic, shift, occupancy, attacks);
      var next := NextSubset(occupancy, mask);
      if IsEmpty(next) {
        LastSubsetStored(row, k, square, magic, mask, occupancy);
        break;
      }
      NextSubsetStored(row, k, square, magic, occupancy);
      occupancy := next;
    }
  }

  /** init_rook_attacks / init_bishop_attacks: the mask, magic and shift of the square, then the loop. */
  method InitAttacks(row: array<Bitboard>, k: Slider, square: Sq)
    requires row.Length == RowSize(k)
    modifies row
    ensures Built(row, k, square, MagicOf(k, square))
  {
    var mask := SliderMask(k, square);
    var magic := MagicOf(k, square);
    var shift := SliderShift(k, square);
    FillRow(row, k, square, mask, magic, shift);
  }

  /** Only the masked part of the occupancy matters to the key. */
  lemma MaskedOccupancy(k: Slider, s: Sq, magic: nat, occ: Bitboard)
    ensures SubsetOf(And(occ, MaskOf(k, s)), MaskOf(k, s))
    ensures Key(k, s, magic, occ) == Key(k, s, magic, And(occ, MaskOf(k, s)))
    ensures Elems(And(occ, MaskOf(k, s))) == Elems(occ) * Elems(MaskOf(k, s))
  {
    IndexRelevant(occ, MaskOf(k, s), magic, ShiftOf(Count(MaskOf(k, s))));
  }

  /**
   * The rook mask and the corrected bishop mask hold every square that can
   * stop a ray, so the attacks over the masked occupancy are the attacks
   * over the whole occupancy.  `bishop_mask` does not (see
   * BishopMaskMissesBlocker).
   */
  lemma MaskRelevant(k: Slider, s: Sq, occ: set<int>)
    requires k != Diagonal
    ensures AttacksOf(k, s, occ * Elems(MaskOf(k, s))) == AttacksOf(k, s, occ)
  {
    if k == Orthogonal {
      RookRelevant(s, occ);
    } else {
      BishopRelevant(s, occ);
    }
  }

  /** In a built row with a good magic, the slot of a subset holds that subset's attacks. */
  lemma BuiltSlot(row: array<Bitboard>, k: Slider, s: Sq, magic: nat, b: Bitboard)
    requires row.Length == RowSize(k) && Built(row, k, s, magic) && GoodMagic(k, s, magic)
    requires SubsetOf(b, MaskOf(k, s))
    ensures Elems(row[Key(k, s, magic, b)]) == AttacksOf(k, s, Elems(b))
  {
    assert Stored(row[Key(k, s, magic, b)], k, s, magic, b);
  }

  /**
   * A built row read at the key of any occupancy gives the ray-scan
   * attacks of the occupancy's squares inside the mask, provided the magic
   * number only collides constructively.  For the rook table and the
   * corrected bishop table these are the attacks of the whole occupancy.
   */
  lemma LookupCorrect(row: array<Bitboard>, k: Slider, s: Sq, magic: nat, occ: Bitboard)
    requires row.Length == RowSize(k) && Built(row, k, s, magic) && GoodMagic(k, s, magic)
    ensures Elems(row[Key(k, s, magic, occ)]) == AttacksOf(k, s, Elems(occ) * Elems(MaskOf(k, s)))
    ensures k != Diagonal ==> Elems(row[Key(k, s, magic, occ)]) == AttacksOf(k, s, Elems(occ))
  {
    MaskedOccupancy(k, s, magic, occ);
    BuiltSlot(row, k, s, magic, And(occ, MaskOf(k, s)));
    if k != Diagonal {
      MaskRelevant(k, s, Elems(occ));
    }
  }

  /** A subset of an empty mask holds no square. */
  lemma SubsetOfEmpty(b: Bitboard, m: Bitboard)
    requires IsEmpty(m) && SubsetOf(b, m)
    ensures Elems(b) == {}
  {
    assert forall i :: 0 <= i < 64 ==> !m[i] by {
      forall i | 0 <= i < 64 ensures !m[i] {
        assert i !in Elems(m);
      }
    }
  }

  /** With an empty mask every magic number is good: there is only one subset. */
  lemma EmptyMaskGood(k: Slider, s: Sq, magic: nat)
    requires IsEmpty(MaskOf(k, s))
    ensures GoodMagic(k, s, magic)
  {
    forall b: Bitboard, c: Bitboard | SubsetOf(b, MaskOf(k, s)) && SubsetOf(c, MaskOf(k, s))
      ensures AttacksOf(k, s, Elems(b)) == AttacksOf(k, s, Elems(c))
    {
      SubsetOfEmpty(b, MaskOf(k, s));
      SubsetOfEmpty(c, MaskOf(k, s));
    }
  }

  /**
   * Where `bishop_mask` is empty, whatever the magic number, the bishop
   * table answers every occupancy with the attacks of the empty board.
   */
  lemma EmptyMaskLookup(row: array<Bitboard>, s: Sq, magic: nat, occ: Bitboard)
    requires row.Length == RowSize(Diagonal) && Built(row, Diagonal, s, magic)
    requires IsEmpty(BishopMaskBits(s))
    ensures Elems(row[Key(Diagonal, s, magic, occ)]) == BishopAttacksOf(s, {})
  {
    EmptyMaskGood(Diagonal, s, magic);
    LookupCorrect(row, Diagonal, s, magic, occ);
    assert Elems(occ) * Elems(BishopMaskBits(s)) == {};
  }

  /**
   * The bishop table as built: on b1 with c2 occupied, the lookup still
   * reports d3, which the ray scan does not.
   */
  lemma BishopTableB1(row: array<Bitboard>, magic: nat, b1: Sq, c2: Sq, d3: Sq)
    requires b1 == 1 && c2 == 10 && d3 == 19
    requires row.Length == RowSize(Diagonal) && Built(row, Diagonal, b1, magic)
    ensures d3 in Elems(row[Key(Diagonal, b1, magic, FromSquare(c2))])
    ensures d3 !in BishopAttacksOf(b1, Elems(FromSquare(c2)))
  {
    BishopMaskB1Empty(b1);
    EmptyMaskLookup(row, b1, magic, FromSquare(c2));
    B1DiagonalBlocked(b1, c2, d3);
    assert Elems(FromSquare(c2)) == {c2};
  }

  /**
   * The corrected bishop table: a built row with a good magic gives the
   * full ray-scan bishop attacks of any occupancy.
   */
  lemma IntendedBishopLookup(row: array<Bitboard>, s: Sq, magic: nat, occ: Bitboard)
    requires row.Length == RowSize(IntendedDiagonal) && Built(row, IntendedDiagonal, s, magic)
    requires GoodMagic(IntendedDiagonal, s, magic)
    ensures Elems(row[Key(IntendedDiagonal, s, magic, occ)]) == BishopAttacksOf(s, Elems(occ))
  {
    LookupCorrect(row, IntendedDiagonal, s, magic, occ);
  }

  /** bishop_mask as written has no square for b1: no (i, i) pair with 1 <= i <= 6 lies on a diagonal of b1. */
  lemma BishopMaskB1Empty(b1: Sq)
    requires b1 == 1
    ensures IsEmpty(BishopMaskBits(b1))
  {
    forall t: Sq ensures t !in Elems(BishopMaskBits(b1)) {
      SquareCoordinates(File(t), Rank(t), t);
    }
  }

  /**
   * bishop_mask as written is empty for b1, so the lookup index cannot
   * see a blocker on c2: the empty board and the board with c2 occupied
   * share a slot, yet d3 is attacked on the first and not on the second.
   */
  lemma BishopMaskMissesBlocker(b1: Sq, c2: Sq, d3: Sq, magic: nat, shift: nat)
    requires b1 == 1 && c2 == 10 && d3 == 19
    ensures IsEmpty(BishopMaskBits(b1))
    ensures MagicIndex(FromSquare(c2), BishopMaskBits(b1), magic, shift) == MagicIndex(Empty, BishopMaskBits(b1), magic, shift)
    ensures d3 in BishopAttacksOf(b1, {}) && d3 !in BishopAttacksOf(b1, {c2})
  {
    var mask := BishopMaskBits(b1);
    BishopMaskB1Empty(b1);
    AndMask(FromSquare(c2), mask);
    AndMask(Empty, mask);
    ToNatZero(And(FromSquare(c2), mask));
    ToNatZero(And(Empty, mask));
    B1DiagonalBlocked(b1, c2, d3);
  }
}
