/**
 * Sliding-piece attacks by ray scanning (chess-core/src/magic_simple.rs).
 *
 * A rook scans north, south, east and west from its square, a bishop the
 * four diagonals.  Each scan marks the squares it passes and stops after
 * the first occupied one, which is included (it may be a capture).
 *
 * The specification is stated per direction: `Ray(s, d, occ)` is the set
 * the scan in direction `d` marks, and `RayMember` characterises it
 * without recursion, by distance from the origin.
 */
module Rays {
  import opened Bitboards
  import opened Boards

  /** How one coordinate changes along a direction. */
  datatype Delta = Plus | Minus | Zero

  datatype Direction = Direction(dr: Delta, df: Delta)

  const North := Direction(Plus, Zero)
  const South := Direction(Minus, Zero)
  const East := Direction(Zero, Plus)
  const West := Direction(Zero, Minus)
  const NorthEast := Direction(Plus, Plus)
  const NorthWest := Direction(Plus, Minus)
  const SouthEast := Direction(Minus, Plus)
  const SouthWest := Direction(Minus, Minus)

  /** A line direction: at least one coordinate moves. */
  predicate Moving(d: Direction)
  {
    d.dr != Zero || d.df != Zero
  }

  function Offset(x: int, d: Delta, k: int): int
  {
    match d
    case Plus => x + k
    case Minus => x - k
    case Zero => x
  }

  /** The square `k` steps from `s` in direction `d` is on the board. */
  predicate OnBoard(s: Sq, d: Direction, k: int)
  {
    0 <= Offset(Rank(s), d.dr, k) < 8 && 0 <= Offset(File(s), d.df, k) < 8
  }

  /** The square `k` steps from `s` in direction `d`: `r * 8 + f`. */
  function Target(s: Sq, d: Direction, k: int): (t: Sq)
    requires OnBoard(s, d, k)
    ensures Rank(t) == Offset(Rank(s), d.dr, k) && File(t) == Offset(File(s), d.df, k)
  {
    var t := NewSquare(Offset(File(s), d.df, k), Offset(Rank(s), d.dr, k));
    SquareCoordinates(Offset(File(s), d.df, k), Offset(Rank(s), d.dr, k), t);
    t
  }

  function Abs(x: int): nat { if x < 0 then -x else x }

  /** King-move (Chebyshev) distance between two squares. */
  function Dist(s: Sq, t: Sq): nat
  {
    var dr := Abs(Rank(t) - Rank(s));
    var df := Abs(File(t) - File(s));
    if dr < df then df else dr
  }

  /** No square at a distance in [lo, hi) along the ray is occupied. */
  ghost predicate Clear(s: Sq, d: Direction, occ: set<int>, lo: int, hi: int)
  {
    forall i :: lo <= i < hi && OnBoard(s, d, i) ==> Target(s, d, i) !in occ
  }

  /**
   * What one scan marks, starting `k` steps out: each square until the
   * first occupied one, inclusive, or until the edge.
   */
  function RayFrom(s: Sq, d: Direction, occ: set<int>, k: nat): (r: set<int>)
    ensures forall t :: t in r ==> 0 <= t < 64
    decreases 8 - k
  {
    if k >= 8 || !OnBoard(s, d, k) then {}
    else if Target(s, d, k) in occ then {Target(s, d, k)}
    else {Target(s, d, k)} + RayFrom(s, d, occ, k + 1)
  }

  function Ray(s: Sq, d: Direction, occ: set<int>): set<int>
  {
    RayFrom(s, d, occ, 1)
  }

  /** Moving `k` steps along a direction puts a square at distance `k`. */
  lemma TargetDist(s: Sq, d: Direction, k: nat)
    requires Moving(d) && OnBoard(s, d, k)
    ensures Dist(s, Target(s, d, k)) == k
  {
  }

  /** Once a ray leaves the board it stays off it. */
  lemma OffBoardStays(s: Sq, d: Direction, k: int, j: int)
    requires 0 <= k <= j && !OnBoard(s, d, k)
    ensures !OnBoard(s, d, j)
  {
  }

  /** Squares short of an on-board square of a ray are on the board. */
  lemma OnBoardBefore(s: Sq, d: Direction, k: int, j: int)
    requires 0 <= k <= j && OnBoard(s, d, j)
    ensures OnBoard(s, d, k)
  {
  }

  /**
   * The scan marks a square exactly when the square lies on the ray at
   * some distance `n >= k` and no square of the ray nearer than `n` (and
   * `k` or more out) is occupied: the first blocker is included, nothing
   * beyond it is.
   */
  lemma {:induction false} RayFromMember(s: Sq, d: Direction, occ: set<int>, k: nat, t: Sq)
    requires Moving(d) && k >= 1
    ensures t in RayFrom(s, d, occ, k) <==>
      k <= Dist(s, t) && OnBoard(s, d, Dist(s, t)) && Target(s, d, Dist(s, t)) == t
      && Clear(s, d, occ, k, Dist(s, t))
    decreases 8 - k
  {
    var n := Dist(s, t);
    if k >= 8 {
      assert n < 8;
    } else if !OnBoard(s, d, k) {
      if k <= n {
        OffBoardStays(s, d, k, n);
      }
    } else {
      TargetDist(s, d, k);
      if Target(s, d, k) in occ {
        if t != Target(s, d, k) && k < n && OnBoard(s, d, n) && Target(s, d, n) == t {
          assert !Clear(s, d, occ, k, n);
        }
      } else {
        RayFromMember(s, d, occ, k + 1, t);
        if k < n && OnBoard(s, d, n) && Target(s, d, n) == t {
          assert Clear(s, d, occ, k, n) <==> Clear(s, d, occ, k + 1, n);
        }
      }
    }
  }

  /** `RayFromMember` from distance 1: what a whole scan marks. */
  lemma RayMember(s: Sq, d: Direction, occ: set<int>, t: Sq)
    requires Moving(d)
    ensures t in Ray(s, d, occ) <==>
      1 <= Dist(s, t) && OnBoard(s, d, Dist(s, t)) && Target(s, d, Dist(s, t)) == t
      && Clear(s, d, occ, 1, Dist(s, t))
  {
    RayFromMember(s, d, occ, 1, t);
  }

  /**
   * A ray depends only on the occupancy of its own squares: the origin and
   * every square off the ray may hold anything.
   */
  lemma {:induction false} RayFromLocal(s: Sq, d: Direction, occ1: set<int>, occ2: set<int>, k: nat)
    requires forall i :: k <= i < 8 && OnBoard(s, d, i) ==> (Target(s, d, i) in occ1 <==> Target(s, d, i) in occ2)
    ensures RayFrom(s, d, occ1, k) == RayFrom(s, d, occ2, k)
    decreases 8 - k
  {
    if k < 8 && OnBoard(s, d, k) {
      RayFromLocal(s, d, occ1, occ2, k + 1);
    }
  }

  // ---------------------------------------------------------------------
  // The scanning loop
  // ---------------------------------------------------------------------

  /** One step of a scan that did not stop: the marked set grows by the new square. */
  lemma ScanStep(s: Sq, d: Direction, occ: set<int>, k: nat)
    requires k < 8 && OnBoard(s, d, k)
    ensures Target(s, d, k) in occ ==> RayFrom(s, d, occ, k) == {Target(s, d, k)}
    ensures Target(s, d, k) !in occ ==>
      RayFrom(s, d, occ, k) == {Target(s, d, k)} + RayFrom(s, d, occ, k + 1)
  {
  }

  /** Marking a square moves it from the rest of the ray to the marked set. */
  lemma UnionStep(marked: set<int>, sq: int, rest: set<int>)
    ensures (marked + {sq}) + rest == marked + ({sq} + rest)
  {
  }

  /**
   * One `for` loop of the source: walk from the origin in direction `d`,
   * mark each square, and `break` after the first occupied one.
   */
  method ScanRay(s: Sq, d: Direction, occupancy: Bitboard, attacks: Bitboard) returns (result: Bitboard)
    ensures Elems(result) == Elems(attacks) + Ray(s, d, Elems(occupancy))
  {
    ghost var occ := Elems(occupancy);
    ghost var target := Elems(attacks) + Ray(s, d, occ);
    result := attacks;
    var k := 1;
    while k < 8 && OnBoard(s, d, k)
      invariant 1 <= k <= 8
      invariant Elems(result) + RayFrom(s, d, occ, k) == target
      decreases 8 - k
    {
      var sq := Target(s, d, k);
      ScanStep(s, d, occ, k);
      UnionStep(Elems(result), sq, RayFrom(s, d, occ, k + 1));
      result := SetSquare(result, sq);
      if HasSquare(occupancy, sq) {
        break;
      }
      k := k + 1;
    }
  }

  // ---------------------------------------------------------------------
  // Rook, bishop and queen
  // ---------------------------------------------------------------------

  function RookAttacksOf(s: Sq, occ: set<int>): set<int>
  {
    Ray(s, North, occ) + Ray(s, South, occ) + Ray(s, East, occ) + Ray(s, West, occ)
  }

  function BishopAttacksOf(s: Sq, occ: set<int>): set<int>
  {
    Ray(s, NorthEast, occ) + Ray(s, NorthWest, occ) + Ray(s, SouthEast, occ) + Ray(s, SouthWest, occ)
  }

  /** get_rook_attacks: the north, south, east and west scans in turn. */
  method GetRookAttacks(square: Sq, occupancy: Bitboard) returns (attacks: Bitboard)
    ensures Elems(attacks) == RookAttacksOf(square, Elems(occupancy))
  {
    attacks := Empty;
    EmptyFull();
    attacks := ScanRay(square, North, occupancy, attacks);
    attacks := ScanRay(square, South, occupancy, attacks);
    attacks := ScanRay(square, East, occupancy, attacks);
    attacks := ScanRay(square, West, occupancy, attacks);
  }

  /** get_bishop_attacks: the four diagonal scans in turn. */
  method GetBishopAttacks(square: Sq, occupancy: Bitboard) returns (attacks: Bitboard)
    ensures Elems(attacks) == BishopAttacksOf(square, Elems(occupancy))
  {
    attacks := Empty;
    EmptyFull();
    attacks := ScanRay(square, NorthEast, occupancy, attacks);
    attacks := ScanRay(square, NorthWest, occupancy, attacks);
    attacks := ScanRay(square, SouthEast, occupancy, attacks);
    attacks := ScanRay(square, SouthWest, occupancy, attacks);
  }

  /** get_queen_attacks: the union of the rook and the bishop attacks. */
  method GetQueenAttacks(square: Sq, occupancy: Bitboard) returns (attacks: Bitboard)
    ensures Elems(attacks) == RookAttacksOf(square, Elems(occupancy)) + BishopAttacksOf(square, Elems(occupancy))
  {
    var rook := GetRookAttacks(square, occupancy);
    var bishop := GetBishopAttacks(square, occupancy);
    attacks := Or(rook, bishop);
  }

  // ---------------------------------------------------------------------
  // Properties of the attack sets
  // ---------------------------------------------------------------------

  /** Every square of a ray is off the origin and `Dist` steps along the direction. */
  lemma RayShape(s: Sq, d: Direction, occ: set<int>, t: Sq)
    requires Moving(d) && t in Ray(s, d, occ)
    ensures t != s
    ensures Rank(t) == Offset(Rank(s), d.dr, Dist(s, t)) && File(t) == Offset(File(s), d.df, Dist(s, t))
  {
    RayMember(s, d, occ, t);
  }

  /** Rook attacks never include the origin and share its rank or its file. */
  lemma RookAttacksShape(s: Sq, occ: set<int>, t: Sq)
    requires t in RookAttacksOf(s, occ)
    ensures t != s && (Rank(t) == Rank(s) || File(t) == File(s))
  {
    if t in Ray(s, North, occ) { RayShape(s, North, occ, t); }
    else if t in Ray(s, South, occ) { RayShape(s, South, occ, t); }
    else if t in Ray(s, East, occ) { RayShape(s, East, occ, t); }
    else { RayShape(s, West, occ, t); }
  }

  /** Bishop attacks lie on a diagonal through the origin, off the origin. */
  lemma BishopAttacksShape(s: Sq, occ: set<int>, t: Sq)
    requires t in BishopAttacksOf(s, occ)
    ensures Abs(Rank(t) - Rank(s)) == Abs(File(t) - File(s)) > 0
  {
    if t in Ray(s, NorthEast, occ) { RayShape(s, NorthEast, occ, t); }
    else if t in Ray(s, NorthWest, occ) { RayShape(s, NorthWest, occ, t); }
    else if t in Ray(s, SouthEast, occ) { RayShape(s, SouthEast, occ, t); }
    else { RayShape(s, SouthWest, occ, t); }
  }

  /** `t` is off `s` and lies along direction `d` from it. */
  predicate Toward(s: Sq, d: Direction, t: Sq)
  {
    t != s && Rank(t) == Offset(Rank(s), d.dr, Dist(s, t)) && File(t) == Offset(File(s), d.df, Dist(s, t))
  }

  /** On an empty board a ray holds every square along its direction. */
  lemma EmptyRay(s: Sq, d: Direction, t: Sq)
    requires Moving(d)
    ensures t in Ray(s, d, {}) <==> Toward(s, d, t)
  {
    RayMember(s, d, {}, t);
    if Toward(s, d, t) {
      SquareCoordinates(File(t), Rank(t), t);
      assert OnBoard(s, d, Dist(s, t));
    }
  }

  lemma RookToward(s: Sq, t: Sq)
    ensures Toward(s, North, t) || Toward(s, South, t) || Toward(s, East, t) || Toward(s, West, t)
        <==> t != s && (Rank(t) == Rank(s) || File(t) == File(s))
  {
    if t != s && (Rank(t) == Rank(s) || File(t) == File(s)) {
      SquareCoordinates(File(t), Rank(t), t);
      SquareCoordinates(File(s), Rank(s), s);
    }
  }

  lemma BishopToward(s: Sq, t: Sq)
    ensures Toward(s, NorthEast, t) || Toward(s, NorthWest, t) || Toward(s, SouthEast, t) || Toward(s, SouthWest, t)
        <==> Abs(Rank(t) - Rank(s)) == Abs(File(t) - File(s)) > 0
  {
  }

  /** On an empty board a rook attacks exactly the other squares of its rank and file. */
  lemma RookEmptyBoard(s: Sq, t: Sq)
    ensures t in RookAttacksOf(s, {}) <==> t != s && (Rank(t) == Rank(s) || File(t) == File(s))
  {
    EmptyRay(s, North, t);
    EmptyRay(s, South, t);
    EmptyRay(s, East, t);
    EmptyRay(s, West, t);
    RookToward(s, t);
  }

  /** On an empty board a bishop attacks exactly the other squares of its two diagonals. */
  lemma BishopEmptyBoard(s: Sq, t: Sq)
    ensures t in BishopAttacksOf(s, {}) <==> Abs(Rank(t) - Rank(s)) == Abs(File(t) - File(s)) > 0
  {
    EmptyRay(s, NorthEast, t);
    EmptyRay(s, NorthWest, t);
    EmptyRay(s, SouthEast, t);
    EmptyRay(s, SouthWest, t);
    BishopToward(s, t);
  }

  /**
   * A blocker `n` steps out ends the ray: it is attacked when the squares
   * before it are empty, and nothing beyond it is attacked.
   */
  lemma RayStopsAtBlocker(s: Sq, d: Direction, occ: set<int>, n: nat, j: nat)
    requires Moving(d) && 1 <= n < j && OnBoard(s, d, j)
    requires Target(s, d, n) in occ
    ensures Clear(s, d, occ, 1, n) ==> Target(s, d, n) in Ray(s, d, occ)
    ensures Target(s, d, j) !in Ray(s, d, occ)
  {
    OnBoardBefore(s, d, n, j);
    TargetDist(s, d, n);
    TargetDist(s, d, j);
    RayMember(s, d, occ, Target(s, d, n));
    RayMember(s, d, occ, Target(s, d, j));
  }

  /** The source's rook examples on an empty board: from a1, b1 and a2 are attacked, b2 is not. */
  lemma RookEmptyExample(a1: Sq, b1: Sq, a2: Sq, b2: Sq)
    requires a1 == 0 && b1 == 1 && a2 == 8 && b2 == 9
    ensures b1 in RookAttacksOf(a1, {}) && a2 in RookAttacksOf(a1, {}) && b2 !in RookAttacksOf(a1, {})
  {
    assert Rank(a1) == 0 && File(a1) == 0 && Rank(b1) == 0 && File(b1) == 1;
    assert Rank(a2) == 1 && File(a2) == 0 && Rank(b2) == 1 && File(b2) == 1;
    RookEmptyBoard(a1, b1);
    RookEmptyBoard(a1, a2);
    RookEmptyBoard(a1, b2);
  }

  /** With b1 occupied, a rook on a1 attacks b1 but not c1. */
  lemma RookBlockedExample(a1: Sq, occ: set<int>)
    requires a1 == 0 && occ == {1}
    ensures 1 in RookAttacksOf(a1, occ) && 2 !in RookAttacksOf(a1, occ)
  {
    RayStopsAtBlocker(a1, East, occ, 1, 2);
    RayMember(a1, North, occ, 2);
    RayMember(a1, South, occ, 2);
    RayMember(a1, West, occ, 2);
  }

  /** The source's bishop examples on an empty board: from a1, b2 is attacked, b1 is not. */
  lemma BishopEmptyExample(a1: Sq)
    requires a1 == 0
    ensures 9 in BishopAttacksOf(a1, {}) && 1 !in BishopAttacksOf(a1, {})
  {
    BishopEmptyBoard(a1, 9);
    BishopEmptyBoard(a1, 1);
  }

  /** With b2 occupied, a bishop on a1 attacks b2 but not c3. */
  lemma BishopBlockedExample(a1: Sq, occ: set<int>)
    requires a1 == 0 && occ == {9}
    ensures 9 in BishopAttacksOf(a1, occ) && 18 !in BishopAttacksOf(a1, occ)
  {
    assert Target(a1, NorthEast, 1) == 9 && Target(a1, NorthEast, 2) == 18;
    RayStopsAtBlocker(a1, NorthEast, occ, 1, 2);
    assert Dist(a1, 18) == 2 && !OnBoard(a1, NorthWest, 2) && !OnBoard(a1, SouthEast, 2);
    RayMember(a1, NorthWest, occ, 18);
    RayMember(a1, SouthEast, occ, 18);
    RayMember(a1, SouthWest, occ, 18);
  }

  /** Rook attacks depend only on the occupancy of the other squares of its rank and file. */
  lemma RookAttacksLocal(s: Sq, occ1: set<int>, occ2: set<int>)
    requires forall u :: 0 <= u < 64 && u != s && (Rank(u) == Rank(s) || File(u) == File(s)) ==>
      (u in occ1 <==> u in occ2)
    ensures RookAttacksOf(s, occ1) == RookAttacksOf(s, occ2)
  {
    forall d | d in {North, South, East, West}
      ensures Ray(s, d, occ1) == Ray(s, d, occ2)
    {
      forall i | 1 <= i < 8 && OnBoard(s, d, i)
        ensures Target(s, d, i) in occ1 <==> Target(s, d, i) in occ2
      {
        TargetDist(s, d, i);
      }
      RayFromLocal(s, d, occ1, occ2, 1);
    }
  }

  /** Bishop attacks depend only on the occupancy of the other squares of its diagonals. */
  lemma BishopAttacksLocal(s: Sq, occ1: set<int>, occ2: set<int>)
    requires forall u :: 0 <= u < 64 && Abs(Rank(u) - Rank(s)) == Abs(File(u) - File(s)) > 0 ==>
      (u in occ1 <==> u in occ2)
    ensures BishopAttacksOf(s, occ1) == BishopAttacksOf(s, occ2)
  {
    forall d | d in {NorthEast, NorthWest, SouthEast, SouthWest}
      ensures Ray(s, d, occ1) == Ray(s, d, occ2)
    {
      forall i | 1 <= i < 8 && OnBoard(s, d, i)
        ensures Target(s, d, i) in occ1 <==> Target(s, d, i) in occ2
      {
        TargetDist(s, d, i);
      }
      RayFromLocal(s, d, occ1, occ2, 1);
    }
  }

  /** A blocker on c2 cuts d3 off from b1; on the empty board d3 is attacked. */
  lemma B1DiagonalBlocked(b1: Sq, c2: Sq, d3: Sq)
    requires b1 == 1 && c2 == 10 && d3 == 19
    ensures d3 in BishopAttacksOf(b1, {}) && d3 !in BishopAttacksOf(b1, {c2})
  {
    BishopEmptyBoard(b1, d3);
    assert Rank(b1) == 0 && File(b1) == 1;
    var t1 := Target(b1, NorthEast, 1);
    var t2 := Target(b1, NorthEast, 2);
    SquareCoordinates(File(t1), Rank(t1), t1);
    SquareCoordinates(File(t2), Rank(t2), t2);
    assert t1 == c2 && t2 == d3;
    RayStopsAtBlocker(b1, NorthEast, {c2}, 1, 2);
    assert Dist(b1, d3) == 2 && !OnBoard(b1, NorthWest, 2) && !OnBoard(b1, SouthEast, 2) && !OnBoard(b1, SouthWest, 2);
    RayMember(b1, NorthWest, {c2}, d3);
    RayMember(b1, SouthEast, {c2}, d3);
    RayMember(b1, SouthWest, {c2}, d3);
  }
}
