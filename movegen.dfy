/**
 * Pseudo-legal move generation (chess-core/src/movegen.rs).
 *
 * For each piece of the side to move the generator computes a target
 * bitboard (the piece's attacks, pawn pushes and pawn captures) with the
 * mover's own pieces masked out, and turns every target into a move; a
 * pawn reaching the last rank gives four promotions.  Castling, en passant
 * and king safety are not considered.
 *
 * The generator only reads the board, so it takes the board's value.
 */
module MoveGen {
  import opened Wrappers
  import opened Bitboards
  import opened Boards
  import opened Moves
  import opened Rays

  // ---------------------------------------------------------------------
  // Knight and king tables
  // ---------------------------------------------------------------------

  /** A knight jump: two squares one way and one square the other. */
  predicate KnightJump(s: Sq, t: Sq)
  {
    var dr := Abs(Rank(t) - Rank(s));
    var df := Abs(File(t) - File(s));
    (dr == 2 && df == 1) || (dr == 1 && df == 2)
  }

  /** A king step: a neighbouring square, never the square itself. */
  predicate KingStep(s: Sq, t: Sq)
  {
    t != s && Abs(Rank(t) - Rank(s)) <= 1 && Abs(File(t) - File(s)) <= 1
  }

  /** The `i`-th `(rank, file)` offset `compute_knight_attacks` tries. */
  function KnightOffset(i: nat): (int, int)
    requires i < 8
  {
    match i
    case 0 => (2, 1)
    case 1 => (2, -1)
    case 2 => (-2, 1)
    case 3 => (-2, -1)
    case 4 => (1, 2)
    case 5 => (1, -2)
    case 6 => (-1, 2)
    case _ => (-1, -2)
  }

  /** The position of an offset in the knight's offset list, or 8 when it is not there. */
  function KnightIndex(dr: int, df: int): (r: nat)
    ensures r <= 8 && (r < 8 ==> KnightOffset(r) == (dr, df))
    ensures r < 8 <==> (Abs(dr) == 2 && Abs(df) == 1) || (Abs(dr) == 1 && Abs(df) == 2)
  {
    if (dr, df) == (2, 1) then 0
    else if (dr, df) == (2, -1) then 1
    else if (dr, df) == (-2, 1) then 2
    else if (dr, df) == (-2, -1) then 3
    else if (dr, df) == (1, 2) then 4
    else if (dr, df) == (1, -2) then 5
    else if (dr, df) == (-1, 2) then 6
    else if (dr, df) == (-1, -2) then 7
    else 8
  }

  /** Each offset of the table is found at its own position. */
  lemma KnightIndexOf(i: nat)
    requires i < 8
    ensures KnightIndex(KnightOffset(i).0, KnightOffset(i).1) == i
  {
  }

  /** The square at the `i`-th offset from `s`, when it is on the board. */
  predicate KnightOnBoard(s: Sq, i: nat)
    requires i < 8
  {
    var (dr, df) := KnightOffset(i);
    0 <= Rank(s) + dr < 8 && 0 <= File(s) + df < 8
  }

  function KnightTarget(s: Sq, i: nat): int
    requires i < 8
  {
    var (dr, df) := KnightOffset(i);
    (Rank(s) + dr) * 8 + File(s) + df
  }

  /** The attacks after the first `i` offsets of the loop. */
  function KnightBits(s: Sq, i: nat): Bitboard
    requires i <= 8
  {
    if i == 0 then Empty
    else
      SetIf(KnightBits(s, i - 1), KnightOnBoard(s, i - 1), KnightTarget(s, i - 1))
  }

  /** After `i` offsets the set holds exactly the squares whose offset comes before `i`. */
  lemma {:induction false} KnightBitsElems(s: Sq, i: nat)
    requires i <= 8
    ensures forall t: Sq :: t in Elems(KnightBits(s, i)) <==> KnightIndex(Rank(t) - Rank(s), File(t) - File(s)) < i
  {
    if i == 0 {
      EmptyFull();
    } else {
      KnightBitsElems(s, i - 1);
      KnightIndexOf(i - 1);
      var (dr, df) := KnightOffset(i - 1);
      forall t: Sq
        ensures t in Elems(KnightBits(s, i)) <==> KnightIndex(Rank(t) - Rank(s), File(t) - File(s)) < i
      {
        if Rank(t) - Rank(s) == dr && File(t) - File(s) == df {
          SquareCoordinates(File(t), Rank(t), t);
        } else if KnightOnBoard(s, i - 1) {
          var u := KnightTarget(s, i - 1);
          SquareCoordinates(File(s) + df, Rank(s) + dr, u);
          assert t != u;
        }
      }
    }
  }

  /** compute_knight_attacks: the on-board squares a knight jump away. */
  method ComputeKnightAttacks(square: Sq) returns (attacks: Bitboard)
    ensures attacks == KnightBits(square, 8)
  {
    attacks := Empty;
    var rank: int := Rank(square);
    var file: int := File(square);
    for i := 0 to 8
      invariant attacks == KnightBits(square, i)
    {
      var (dr, df) := KnightOffset(i);
      var newRank: int := rank + dr;
      var newFile: int := file + df;
      assert KnightOnBoard(square, i) == (newRank >= 0 && newRank < 8 && newFile >= 0 && newFile < 8);
      assert KnightTarget(square, i) == newRank * 8 + newFile;
      if newRank >= 0 && newRank < 8 && newFile >= 0 && newFile < 8 {
        attacks := SetSquare(attacks, newRank * 8 + newFile);
      }
    }
  }

  /** The table entry compute_knight_attacks builds holds exactly the knight jumps. */
  lemma KnightBitsJumps(s: Sq)
    ensures forall t: Sq :: t in Elems(KnightBits(s, 8)) <==> KnightJump(s, t)
    ensures KnightBits(s, 8) == KnightAttacks(s)
  {
    KnightBitsElems(s, 8);
    Extensionality(KnightBits(s, 8), KnightAttacks(s));
  }

  /** The king loop's order: offsets `(dr, df)` visited row by row, from (-1, -1). */
  predicate KingVisited(s: Sq, t: Sq, dr: int, df: int)
  {
    Rank(t) - Rank(s) < dr || (Rank(t) - Rank(s) == dr && File(t) - File(s) < df)
  }

  /** The inner loop's step: the square at offset `(dr, df)`, when it is a neighbour on the board, joins the set. */
  lemma KingStepLemma(s: Sq, dr: int, df: int, before: Bitboard, after: Bitboard)
    requires -1 <= dr <= 1 && -1 <= df <= 1
    requires forall t: Sq :: t in Elems(before) <==> KingStep(s, t) && KingVisited(s, t, dr, df)
    requires if (dr != 0 || df != 0) && 0 <= Rank(s) + dr < 8 && 0 <= File(s) + df < 8
      then Elems(after) == Elems(before) + {(Rank(s) + dr) * 8 + File(s) + df}
      else after == before
    ensures forall t: Sq :: t in Elems(after) <==> KingStep(s, t) && KingVisited(s, t, dr, df + 1)
  {
    var added := (dr != 0 || df != 0) && 0 <= Rank(s) + dr < 8 && 0 <= File(s) + df < 8;
    forall t: Sq
      ensures t in Elems(after) <==> KingStep(s, t) && KingVisited(s, t, dr, df + 1)
    {
      if Rank(t) - Rank(s) == dr && File(t) - File(s) == df {
        SquareCoordinates(File(t), Rank(t), t);
        assert KingStep(s, t) <==> added;
      } else if added {
        var u := (Rank(s) + dr) * 8 + File(s) + df;
        SquareCoordinates(File(s) + df, Rank(s) + dr, u);
        assert t != u;
      }
    }
  }

  /** compute_king_attacks: the on-board neighbours, skipping the offset (0, 0). */
  method ComputeKingAttacks(square: Sq) returns (attacks: Bitboard)
    ensures forall t: Sq :: t in Elems(attacks) <==> KingStep(square, t)
  {
    attacks := Empty;
    EmptyFull();
    var rank: int := Rank(square);
    var file: int := File(square);
    for dr: int := -1 to 2
      invariant forall t: Sq :: t in Elems(attacks) <==> KingStep(square, t) && KingVisited(square, t, dr, -1)
    {
      for df: int := -1 to 2
        invariant forall t: Sq :: t in Elems(attacks) <==> KingStep(square, t) && KingVisited(square, t, dr, df)
      {
        ghost var before := attacks;
        if dr == 0 && df == 0 {
          KingStepLemma(square, dr, df, before, attacks);
          continue;
        }
        var newRank: int := rank + dr;
        var newFile: int := file + df;
        if newRank >= 0 && newRank < 8 && newFile >= 0 && newFile < 8 {
          attacks := SetSquare(attacks, newRank * 8 + newFile);
        }
        KingStepLemma(square, dr, df, before, attacks);
      }
    }
  }

  /** KNIGHT_ATTACKS[s]. */
  function KnightAttacks(s: Sq): (r: Bitboard)
    ensures forall t: Sq :: t in Elems(r) <==> KnightJump(s, t)
  {
    seq(64, t requires 0 <= t < 64 => KnightJump(s, t))
  }

  /** KING_ATTACKS[s]. */
  function KingAttacks(s: Sq): (r: Bitboard)
    ensures forall t: Sq :: t in Elems(r) <==> KingStep(s, t)
  {
    seq(64, t requires 0 <= t < 64 => KingStep(s, t))
  }

  /** The KNIGHT_ATTACKS table: `compute_knight_attacks` for each square in turn. */
  method InitKnightAttacks() returns (table: seq<Bitboard>)
    ensures |table| == 64 && forall s: Sq :: table[s] == KnightAttacks(s)
  {
    table := [];
    for s := 0 to 64
      invariant |table| == s && forall u: Sq :: u < s ==> table[u] == KnightAttacks(u)
    {
      var attacks := ComputeKnightAttacks(s);
      KnightBitsJumps(s);
      table := table + [attacks];
    }
  }

  /** The KING_ATTACKS table: `compute_king_attacks` for each square in turn. */
  method InitKingAttacks() returns (table: seq<Bitboard>)
    ensures |table| == 64 && forall s: Sq :: table[s] == KingAttacks(s)
  {
    table := [];
    for s := 0 to 64
      invariant |table| == s && forall u: Sq :: u < s ==> table[u] == KingAttacks(u)
    {
      var attacks := ComputeKingAttacks(s);
      Extensionality(attacks, KingAttacks(s));
      table := table + [attacks];
    }
  }

  /** A knight on b1 reaches d2, a3 and c3 but not a1. */
  lemma KnightTableExample(b1: Sq, d2: Sq, a3: Sq, c3: Sq, a1: Sq)
    requires b1 == 1 && d2 == 11 && a3 == 16 && c3 == 18 && a1 == 0
    ensures d2 in Elems(KnightAttacks(b1)) && a3 in Elems(KnightAttacks(b1)) && c3 in Elems(KnightAttacks(b1))
    ensures a1 !in Elems(KnightAttacks(b1))
  {
    assert Rank(b1) == 0 && File(b1) == 1;
    assert Rank(d2) == 1 && File(d2) == 3;
    assert Rank(a3) == 2 && File(a3) == 0;
    assert Rank(c3) == 2 && File(c3) == 2;
    assert Rank(a1) == 0 && File(a1) == 0;
  }

  /** A king on e1 reaches d1, f1, d2, e2 and f2 but not a1. */
  lemma KingTableExample(e1: Sq, d1: Sq, f1: Sq, d2: Sq, e2: Sq, f2: Sq, a1: Sq)
    requires e1 == 4 && d1 == 3 && f1 == 5 && d2 == 11 && e2 == 12 && f2 == 13 && a1 == 0
    ensures d1 in Elems(KingAttacks(e1)) && f1 in Elems(KingAttacks(e1)) && d2 in Elems(KingAttacks(e1))
    ensures e2 in Elems(KingAttacks(e1)) && f2 in Elems(KingAttacks(e1)) && a1 !in Elems(KingAttacks(e1))
  {
    assert Rank(e1) == 0 && File(e1) == 4;
    assert Rank(d1) == 0 && File(d1) == 3 && Rank(f1) == 0 && File(f1) == 5;
    assert Rank(d2) == 1 && File(d2) == 3 && Rank(e2) == 1 && File(e2) == 4 && Rank(f2) == 1 && File(f2) == 5;
    assert Rank(a1) == 0 && File(a1) == 0;
  }

  // ---------------------------------------------------------------------
  // Pawn targets
  // ---------------------------------------------------------------------

  /** The rank a pawn advances by: +1 for White, -1 for Black. */
  function Forward(c: Color): int
  {
    match c
    case White => 1
    case Black => -1
  }

  /** The rank index pawns start on: 1 for White, 6 for Black. */
  function StartRank(c: Color): nat
  {
    match c
    case White => 1
    case Black => 6
  }

  /** color_bitboard on a board value. */
  function ColorBits(b: BoardState, c: Color): Bitboard
  {
    match c
    case White => b.white
    case Black => b.black
  }

  /**
   * Where a pawn of colour `c` on `from` may go: one rank forward onto an
   * empty square; two ranks forward from its start rank when both squares
   * are empty; one rank forward and one file aside onto an enemy piece.
   */
  predicate PawnTarget(b: BoardState, c: Color, from: Sq, t: Sq)
  {
    var fwd := Forward(c);
    (File(t) == File(from) && Rank(t) == Rank(from) + fwd && t in Elems(b.empty))
    || (File(t) == File(from) && Rank(from) == StartRank(c) && Rank(t) == Rank(from) + 2 * fwd
        && t in Elems(b.empty) && NewSquare(File(from), Rank(from) + fwd) in Elems(b.empty))
    || (Abs(File(t) - File(from)) == 1 && Rank(t) == Rank(from) + fwd
        && t in Elems(ColorBits(b, Opposite(c))))
  }

  /** The index arithmetic of the pawn code is the rank and file arithmetic of `PawnTarget`. */
  lemma PawnSquares(from: Sq, t: Sq)
    ensures t == from + 8 <==> File(t) == File(from) && Rank(t) == Rank(from) + 1
    ensures t == from - 8 <==> File(t) == File(from) && Rank(t) == Rank(from) - 1
    ensures t == from + 16 <==> File(t) == File(from) && Rank(t) == Rank(from) + 2
    ensures t == from - 16 <==> File(t) == File(from) && Rank(t) == Rank(from) - 2
    ensures File(from) < 7 ==> (t == from + 9 <==> File(t) == File(from) + 1 && Rank(t) == Rank(from) + 1)
    ensures File(from) > 0 ==> (t == from + 7 <==> File(t) == File(from) - 1 && Rank(t) == Rank(from) + 1)
    ensures File(from) < 7 ==> (t == from - 7 <==> File(t) == File(from) + 1 && Rank(t) == Rank(from) - 1)
    ensures File(from) > 0 ==> (t == from - 9 <==> File(t) == File(from) - 1 && Rank(t) == Rank(from) - 1)
  {
    SquareCoordinates(File(t), Rank(t), t);
    SquareCoordinates(File(from), Rank(from), from);
  }

  /** The pawn targets of the White arm of the code, step by step. */
  function WhitePawnBits(b: BoardState, from: Sq, start: Bitboard): Bitboard
  {
    var single := from + 8 < 64 && HasSquare(b.empty, from + 8);
    var double := single && Rank(from) == 1 && from + 16 < 64 && HasSquare(b.empty, from + 16);
    var east := from + 9 < 64 && File(from) < 7 && HasSquare(b.black, from + 9);
    var west := from + 7 < 64 && File(from) > 0 && HasSquare(b.black, from + 7);
    SetIf(SetIf(SetIf(SetIf(start, single, from + 8), double, from + 16), east, from + 9), west, from + 7)
  }

  /** The pawn targets of the Black arm of the code, step by step. */
  function BlackPawnBits(b: BoardState, from: Sq, start: Bitboard): Bitboard
  {
    var single := from - 8 >= 0 && HasSquare(b.empty, from - 8);
    var double := single && Rank(from) == 6 && from - 16 >= 0 && HasSquare(b.empty, from - 16);
    var east := from - 7 >= 0 && File(from) < 7 && HasSquare(b.white, from - 7);
    var west := from - 9 >= 0 && File(from) > 0 && HasSquare(b.white, from - 9);
    SetIf(SetIf(SetIf(SetIf(start, single, from - 8), double, from - 16), east, from - 7), west, from - 9)
  }

  /** The squares the White arm sets, by index. */
  lemma WhitePawnIndex(b: BoardState, from: Sq, start: Bitboard, t: Sq)
    requires Elems(start) == {}
    ensures t in Elems(WhitePawnBits(b, from, start)) <==>
      (t == from + 8 && t in Elems(b.empty))
      || (t == from + 16 && Rank(from) == 1 && t in Elems(b.empty) && from + 8 in Elems(b.empty))
      || (t == from + 9 && File(from) < 7 && t in Elems(b.black))
      || (t == from + 7 && File(from) > 0 && t in Elems(b.black))
  {
  }

  /** The squares the Black arm sets, by index. */
  lemma BlackPawnIndex(b: BoardState, from: Sq, start: Bitboard, t: Sq)
    requires Elems(start) == {}
    ensures t in Elems(BlackPawnBits(b, from, start)) <==>
      (t == from - 8 && t in Elems(b.empty))
      || (t == from - 16 && Rank(from) == 6 && t in Elems(b.empty) && from - 8 in Elems(b.empty))
      || (t == from - 7 && File(from) < 7 && t in Elems(b.white))
      || (t == from - 9 && File(from) > 0 && t in Elems(b.white))
  {
  }

  /** The White arm sets exactly the White pawn targets. */
  lemma WhitePawnBitsTargets(b: BoardState, from: Sq, start: Bitboard)
    requires Elems(start) == {}
    ensures forall t: Sq :: t in Elems(WhitePawnBits(b, from, start)) <==> PawnTarget(b, White, from, t)
  {
    forall t: Sq ensures t in Elems(WhitePawnBits(b, from, start)) <==> PawnTarget(b, White, from, t) {
      WhitePawnIndex(b, from, start, t);
      PawnSquares(from, t);
      SquareCoordinates(File(from), Rank(from), from);
    }
  }

  /** The Black arm sets exactly the Black pawn targets. */
  lemma BlackPawnBitsTargets(b: BoardState, from: Sq, start: Bitboard)
    requires Elems(start) == {}
    ensures forall t: Sq :: t in Elems(BlackPawnBits(b, from, start)) <==> PawnTarget(b, Black, from, t)
  {
    forall t: Sq ensures t in Elems(BlackPawnBits(b, from, start)) <==> PawnTarget(b, Black, from, t) {
      BlackPawnIndex(b, from, start, t);
      PawnSquares(from, t);
      SquareCoordinates(File(from), Rank(from), from);
    }
  }

  /** The White arm of generate_pawn_moves. */
  method WhitePawnMoves(b: BoardState, from: Sq) returns (moves: Bitboard)
    ensures forall t: Sq :: t in Elems(moves) <==> PawnTarget(b, White, from, t)
  {
    moves := Empty;
    var singlePush := from + 8;
    if singlePush < 64 && HasSquare(b.empty, singlePush) {
      moves := SetSquare(moves, singlePush);
      if Rank(from) == 1 {
        var doublePush := from + 16;
        if doublePush < 64 && HasSquare(b.empty, doublePush) {
          moves := SetSquare(moves, doublePush);
        }
      }
    }
    var captureEast := from + 9;
    if captureEast < 64 && File(from) < 7 && HasSquare(b.black, captureEast) {
      moves := SetSquare(moves, captureEast);
    }
    var captureWest := from + 7;
    if captureWest < 64 && File(from) > 0 && HasSquare(b.black, captureWest) {
      moves := SetSquare(moves, captureWest);
    }
    assert moves == WhitePawnBits(b, from, Empty);
    EmptyFull();
    WhitePawnBitsTargets(b, from, Empty);
  }

  /** The Black arm of generate_pawn_moves. */
  method BlackPawnMoves(b: BoardState, from: Sq) returns (moves: Bitboard)
    ensures forall t: Sq :: t in Elems(moves) <==> PawnTarget(b, Black, from, t)
  {
    moves := Empty;
    var singlePush := from - 8;
    if singlePush >= 0 && HasSquare(b.empty, singlePush) {
      moves := SetSquare(moves, singlePush);
      if Rank(from) == 6 {
        var doublePush := from - 16;
        if doublePush >= 0 && HasSquare(b.empty, doublePush) {
          moves := SetSquare(moves, doublePush);
        }
      }
    }
    var captureEast := from - 7;
    if captureEast >= 0 && File(from) < 7 && HasSquare(b.white, captureEast) {
      moves := SetSquare(moves, captureEast);
    }
    var captureWest := from - 9;
    if captureWest >= 0 && File(from) > 0 && HasSquare(b.white, captureWest) {
      moves := SetSquare(moves, captureWest);
    }
    assert moves == BlackPawnBits(b, from, Empty);
    EmptyFull();
    BlackPawnBitsTargets(b, from, Empty);
  }

  /**
   * generate_pawn_moves: single and double pushes onto empty squares and
   * diagonal captures of enemy pieces, in the mover's direction.
   */
  method GeneratePawnMoves(b: BoardState, color: Color, from: Sq) returns (moves: Bitboard)
    ensures forall t: Sq :: t in Elems(moves) <==> PawnTarget(b, color, from, t)
  {
    match color {
    case White => moves := WhitePawnMoves(b, from);
    case Black => moves := BlackPawnMoves(b, from);
    }
  }

  // ---------------------------------------------------------------------
  // Targets of each piece type, with own pieces masked out
  // ---------------------------------------------------------------------

  /** generate_knight_moves: the knight table entry minus the mover's pieces. */
  function GenerateKnightMoves(b: BoardState, color: Color, from: Sq): (r: Bitboard)
    ensures forall t: Sq :: t in Elems(r) <==> KnightJump(from, t) && t !in Elems(ColorBits(b, color))
  {
    And(KnightAttacks(from), Not(ColorBits(b, color)))
  }

  /** generate_king_moves: the king table entry minus the mover's pieces. */
  function GenerateKingMoves(b: BoardState, color: Color, from: Sq): (r: Bitboard)
    ensures forall t: Sq :: t in Elems(r) <==> KingStep(from, t) && t !in Elems(ColorBits(b, color))
  {
    And(KingAttacks(from), Not(ColorBits(b, color)))
  }

  /** generate_bishop_attacks: the diagonal rays over the whole occupancy. */
  method GenerateBishopAttacks(b: BoardState, from: Sq) returns (r: Bitboard)
    ensures Elems(r) == BishopAttacksOf(from, Elems(b.occupied))
  {
    r := GetBishopAttacks(from, b.occupied);
  }

  /** generate_rook_attacks: the orthogonal rays over the whole occupancy. */
  method GenerateRookAttacks(b: BoardState, from: Sq) returns (r: Bitboard)
    ensures Elems(r) == RookAttacksOf(from, Elems(b.occupied))
  {
    r := GetRookAttacks(from, b.occupied);
  }

  /** generate_bishop_moves: bishop attacks minus the mover's pieces. */
  method GenerateBishopMoves(b: BoardState, color: Color, from: Sq) returns (r: Bitboard)
    ensures Elems(r) == BishopAttacksOf(from, Elems(b.occupied)) - Elems(ColorBits(b, color))
  {
    var attacks := GetBishopAttacks(from, b.occupied);
    r := And(attacks, Not(ColorBits(b, color)));
  }

  /** generate_rook_moves: rook attacks minus the mover's pieces. */
  method GenerateRookMoves(b: BoardState, color: Color, from: Sq) returns (r: Bitboard)
    ensures Elems(r) == RookAttacksOf(from, Elems(b.occupied)) - Elems(ColorBits(b, color))
  {
    var attacks := GetRookAttacks(from, b.occupied);
    r := And(attacks, Not(ColorBits(b, color)));
  }

  /** generate_queen_moves: queen attacks minus the mover's pieces. */
  method GenerateQueenMoves(b: BoardState, color: Color, from: Sq) returns (r: Bitboard)
    ensures Elems(r) == (RookAttacksOf(from, Elems(b.occupied)) + BishopAttacksOf(from, Elems(b.occupied)))
                        - Elems(ColorBits(b, color))
  {
    var attacks := GetQueenAttacks(from, b.occupied);
    r := And(attacks, Not(ColorBits(b, color)));
  }

  /**
   * The squares a piece of type `t` on `from` may move to before the final
   * mask: its attacks, or for a pawn its pushes and captures.
   */
  function Reach(b: BoardState, color: Color, t: PieceType, from: Sq): set<int>
  {
    match t
    case Pawn => set u: int | 0 <= u < 64 && PawnTarget(b, color, from, u)
    case Knight => set u: int | 0 <= u < 64 && KnightJump(from, u)
    case Bishop => BishopAttacksOf(from, Elems(b.occupied))
    case Rook => RookAttacksOf(from, Elems(b.occupied))
    case Queen => RookAttacksOf(from, Elems(b.occupied)) + BishopAttacksOf(from, Elems(b.occupied))
    case King => set u: int | 0 <= u < 64 && KingStep(from, u)
  }

  /** The target squares of generate_piece_moves: the reach minus the mover's own pieces. */
  function Targets(b: BoardState, color: Color, t: PieceType, from: Sq): set<int>
  {
    Reach(b, color, t, from) - Elems(ColorBits(b, color))
  }

  /**
   * generate_piece_moves: dispatch on the piece type, then mask out the
   * mover's own pieces once more.  No target holds a piece of the mover.
   */
  method GeneratePieceMoves(b: BoardState, color: Color, t: PieceType, from: Sq) returns (targets: Bitboard)
    ensures Elems(targets) == Targets(b, color, t, from)
    ensures Elems(targets) !! Elems(ColorBits(b, color))
  {
    match t {
    case Pawn => targets := GeneratePawnMoves(b, color, from);
    case Knight => targets := GenerateKnightMoves(b, color, from);
    case Bishop => targets := GenerateBishopMoves(b, color, from);
    case Rook => targets := GenerateRookMoves(b, color, from);
    case Queen => targets := GenerateQueenMoves(b, color, from);
    case King => targets := GenerateKingMoves(b, color, from);
    }
    targets := And(targets, Not(ColorBits(b, color)));
  }

  // ---------------------------------------------------------------------
  // The move list
  // ---------------------------------------------------------------------

  /** is_promotion_rank: the rank a pawn of `color` promotes on, the opponent's back rank. */
  function IsPromotionRank(square: Sq, color: Color): (r: bool)
    ensures r <==> square in Elems(BackRank(Opposite(color)))
  {
    var rank := square / 8;
    match color
    case White => rank == 7
    case Black => rank == 0
  }

  // generate_moves visits the piece types in declaration order, Pawn to
  // King, which is `TypeOf(0)` to `TypeOf(5)`; the promotion pieces Knight,
  // Bishop, Rook and Queen are `TypeOf(1)` to `TypeOf(4)`.

  /** The promotion moves for the first `k` promotion pieces. */
  function Promotions(from: Sq, to: Sq, k: nat): seq<Move>
    requires k <= 4
  {
    if k == 0 then [] else Promotions(from, to, k - 1) + [NewPromotion(from, to, Pawn, TypeOf(k))]
  }

  /** The moves one target turns into: four promotions for a pawn reaching the last rank, else one move. */
  function Expand(t: PieceType, color: Color, from: Sq, to: Sq): seq<Move>
  {
    if t == Pawn && IsPromotionRank(to, color) then Promotions(from, to, 4) else [NewMove(from, to, t)]
  }

  /** The lists `f(x)` for the elements `x` of `xs`, concatenated in order. */
  function FlatMap<T>(xs: seq<T>, f: T -> seq<Move>): seq<Move>
  {
    if |xs| == 0 then [] else FlatMap(xs[..|xs| - 1], f) + f(xs[|xs| - 1])
  }

  /** The moves of one piece, for its targets in the order listed. */
  function MovesTo(t: PieceType, color: Color, from: Sq, tos: seq<Sq>): seq<Move>
  {
    FlatMap(tos, to => Expand(t, color, from, to))
  }

  /** The bitboard holding exactly the squares of `s`. */
  function BitsOf(s: set<int>): (r: Bitboard)
    ensures forall u: Sq :: u in Elems(r) <==> u in s
  {
    seq(64, i requires 0 <= i < 64 => i in s)
  }

  /** The target bitboard of generate_piece_moves. */
  function TargetBits(b: BoardState, color: Color, t: PieceType, from: Sq): Bitboard
  {
    BitsOf(Targets(b, color, t, from))
  }

  /** The moves of the piece on `from`, its targets in ascending order. */
  function PieceMoves(b: BoardState, color: Color, t: PieceType, from: Sq): seq<Move>
  {
    MovesTo(t, color, from, SquareList(TargetBits(b, color, t, from)))
  }

  /** The moves of the pieces on `froms`, in that order. */
  function MovesFrom(b: BoardState, color: Color, t: PieceType, froms: seq<Sq>): seq<Move>
  {
    FlatMap(froms, from => PieceMoves(b, color, t, from))
  }

  /** The moves of the pieces of type `t`, in ascending square order. */
  function TypeMoves(b: BoardState, color: Color, t: PieceType): seq<Move>
  {
    MovesFrom(b, color, t, SquareList(Bits(b.pieces, Piece(color, t))))
  }

  /** The piece types in declaration order, the order generate_moves visits them. */
  function PieceTypes(): (r: seq<PieceType>)
    ensures |r| == 6 && forall i :: 0 <= i < 6 ==> r[i] == TypeOf(i)
  {
    seq(6, i requires 0 <= i < 6 => TypeOf(i))
  }

  /** The moves of the first `k` piece types. */
  function MovesUpTo(b: BoardState, color: Color, k: nat): seq<Move>
    requires k <= 6
  {
    FlatMap(PieceTypes()[..k], t => TypeMoves(b, color, t))
  }

  /** The list generate_moves returns. */
  function GeneratedMoves(b: BoardState, color: Color): seq<Move>
  {
    MovesUpTo(b, color, 6)
  }

  /** Pushing one target's moves, four promotions or one plain move. */
  method PushTarget(moves: seq<Move>, t: PieceType, color: Color, from: Sq, to: Sq) returns (r: seq<Move>)
    ensures r == moves + Expand(t, color, from, to)
  {
    r := moves;
    if t == Pawn && IsPromotionRank(to, color) {
      for k := 0 to 4
        invariant r == moves + Promotions(from, to, k)
      {
        r := r + [NewPromotion(from, to, t, TypeOf(k + 1))];
      }
    } else {
      r := r + [NewMove(from, to, t)];
    }
  }

  /** Extending the list by one element appends that element's list. */
  lemma FlatMapStep<T>(xs: seq<T>, f: T -> seq<Move>, i: nat)
    requires i < |xs|
    ensures FlatMap(xs[..i + 1], f) == FlatMap(xs[..i], f) + f(xs[i])
  {
    assert xs[..i + 1][..i] == xs[..i];
  }

  lemma AppendAssoc<T>(a: seq<T>, b: seq<T>, c: seq<T>)
    ensures (a + b) + c == a + (b + c)
  {
  }

  /** Pushing the moves to every square of `tos`, in order. */
  method PushTargets(moves: seq<Move>, t: PieceType, color: Color, from: Sq, tos: seq<Sq>) returns (r: seq<Move>)
    ensures r == moves + MovesTo(t, color, from, tos)
  {
    r := moves;
    for j := 0 to |tos|
      invariant r == moves + MovesTo(t, color, from, tos[..j])
    {
      FlatMapStep(tos, to => Expand(t, color, from, to), j);
      AppendAssoc(moves, MovesTo(t, color, from, tos[..j]), Expand(t, color, from, tos[j]));
      r := PushTarget(r, t, color, from, tos[j]);
    }
    assert tos[..|tos|] == tos;
  }

  /** The targets of the piece on `from`, in ascending order. */
  method PieceTargets(b: BoardState, color: Color, t: PieceType, from: Sq) returns (tos: seq<Sq>)
    ensures tos == SquareList(TargetBits(b, color, t, from))
  {
    var targets := GeneratePieceMoves(b, color, t, from);
    Extensionality(targets, TargetBits(b, color, t, from));
    tos := Squares(targets);
  }

  /** Pushing the moves of the pieces of type `t` on `froms`, in order. */
  method PushPieces(moves: seq<Move>, b: BoardState, color: Color, t: PieceType, froms: seq<Sq>) returns (r: seq<Move>)
    ensures r == moves + MovesFrom(b, color, t, froms)
  {
    r := moves;
    for i := 0 to |froms|
      invariant r == moves + MovesFrom(b, color, t, froms[..i])
    {
      var from := froms[i];
      var tos := PieceTargets(b, color, t, from);
      FlatMapStep(froms, from => PieceMoves(b, color, t, from), i);
      AppendAssoc(moves, MovesFrom(b, color, t, froms[..i]), MovesTo(t, color, from, tos));
      r := PushTargets(r, t, color, from, tos);
    }
    assert froms[..|froms|] == froms;
  }

  /**
   * generate_moves: for each piece type in turn, for each of the mover's
   * pieces of that type in ascending order, the targets of
   * generate_piece_moves in ascending order, each expanded into its moves.
   */
  method GenerateMoves(b: BoardState, color: Color) returns (moves: seq<Move>)
    ensures moves == GeneratedMoves(b, color)
  {
    moves := [];
    for k := 0 to 6
      invariant moves == MovesUpTo(b, color, k)
    {
      var t := TypeOf(k);
      var froms := Squares(Bits(b.pieces, Piece(color, t)));
      FlatMapStep(PieceTypes(), u => TypeMoves(b, color, u), k);
      moves := PushPieces(moves, b, color, t, froms);
    }
  }

  // ---------------------------------------------------------------------
  // What the move list holds
  // ---------------------------------------------------------------------

  /** The promotions come Knight, Bishop, Rook, Queen, in that order. */
  lemma {:induction false} PromotionsOrder(from: Sq, to: Sq, k: nat)
    requires k <= 4
    ensures |Promotions(from, to, k)| == k
    ensures forall j :: 0 <= j < k ==> Promotions(from, to, k)[j] == NewPromotion(from, to, Pawn, TypeOf(j + 1))
  {
    if k > 0 {
      PromotionsOrder(from, to, k - 1);
    }
  }

  /**
   * One target gives one plain move, or the four promotions Knight,
   * Bishop, Rook, Queen when a pawn reaches the last rank; every move
   * carries the piece's squares and type and neither the en-passant nor
   * the castling flag.
   */
  lemma ExpandFacts(t: PieceType, color: Color, from: Sq, to: Sq)
    ensures var promotes := t == Pawn && to in Elems(BackRank(Opposite(color)));
      Expand(t, color, from, to) ==
        if promotes then
          [NewPromotion(from, to, Pawn, Knight), NewPromotion(from, to, Pawn, Bishop),
           NewPromotion(from, to, Pawn, Rook), NewPromotion(from, to, Pawn, Queen)]
        else [NewMove(from, to, t)]
    ensures forall m :: m in Expand(t, color, from, to) ==>
      From(m) == from && To(m) == to && MovedType(m) == t && !IsEnPassant(m) && !IsCastling(m)
      && (IsPromotion(m) <==> t == Pawn && to in Elems(BackRank(Opposite(color))))
  {
    PromotionsOrder(from, to, 4);
  }

  /** A move is in the concatenation exactly when it is in the list of one of the elements. */
  lemma {:induction false} FlatMapMember<T>(xs: seq<T>, f: T -> seq<Move>, m: Move)
    ensures m in FlatMap(xs, f) <==> exists x :: x in xs && m in f(x)
  {
    if |xs| > 0 {
      var init := xs[..|xs| - 1];
      var last := xs[|xs| - 1];
      FlatMapMember(init, f, m);
      assert xs == init + [last];
      if m in FlatMap(xs, f) {
        if m in FlatMap(init, f) {
          var x :| x in init && m in f(x);
          assert x in xs;
        } else {
          assert last in xs && m in f(last);
        }
      } else {
        forall x | x in xs
          ensures m !in f(x)
        {
          if x != last {
            assert x in init;
          }
        }
      }
    }
  }

  /** Every piece type is visited. */
  lemma PieceTypesComplete(t: PieceType)
    ensures t in PieceTypes()
  {
    assert PieceTypes()[TypeIndex(t)] == t;
  }

  /** The moves of one piece, as a set: its targets, each expanded. */
  lemma PieceMovesMember(b: BoardState, color: Color, t: PieceType, from: Sq, m: Move)
    ensures m in PieceMoves(b, color, t, from) <==>
      To(m) in Targets(b, color, t, from) && m in Expand(t, color, from, To(m))
  {
    var bits := TargetBits(b, color, t, from);
    SquareListProps(bits);
    FlatMapMember(SquareList(bits), to => Expand(t, color, from, to), m);
    if m in PieceMoves(b, color, t, from) {
      var to :| to in SquareList(bits) && m in Expand(t, color, from, to);
      ExpandFacts(t, color, from, to);
    } else if To(m) in Targets(b, color, t, from) {
      assert To(m) in SquareList(bits);
    }
  }

  /** The moves of the pieces of type `t`, as a set. */
  lemma TypeMovesMember(b: BoardState, color: Color, t: PieceType, m: Move)
    ensures m in TypeMoves(b, color, t) <==>
      From(m) in Elems(Bits(b.pieces, Piece(color, t))) && m in PieceMoves(b, color, t, From(m))
  {
    var pieces := Bits(b.pieces, Piece(color, t));
    SquareListProps(pieces);
    FlatMapMember(SquareList(pieces), from => PieceMoves(b, color, t, from), m);
    if m in TypeMoves(b, color, t) {
      var from :| from in SquareList(pieces) && m in PieceMoves(b, color, t, from);
      PieceMovesMember(b, color, t, from, m);
      ExpandFacts(t, color, from, To(m));
    } else if From(m) in Elems(pieces) {
      assert From(m) in SquareList(pieces);
    }
  }

  /**
   * Soundness and completeness of generate_moves: a move is generated
   * exactly when a piece of the mover stands on its from-square, its
   * to-square is one of that piece's targets, and it is one of the moves
   * that target expands into.
   */
  lemma GeneratedMovesMember(b: BoardState, color: Color, m: Move)
    ensures m in GeneratedMoves(b, color) <==>
      From(m) in Elems(Bits(b.pieces, Piece(color, MovedType(m))))
      && To(m) in Targets(b, color, MovedType(m), From(m))
      && m in Expand(MovedType(m), color, From(m), To(m))
  {
    assert PieceTypes()[..6] == PieceTypes();
    FlatMapMember(PieceTypes(), t => TypeMoves(b, color, t), m);
    if m in GeneratedMoves(b, color) {
      var t :| t in PieceTypes() && m in TypeMoves(b, color, t);
      TypeMovesMember(b, color, t, m);
      PieceMovesMember(b, color, t, From(m), m);
      ExpandFacts(t, color, From(m), To(m));
    } else {
      var t := MovedType(m);
      PieceTypesComplete(t);
      TypeMovesMember(b, color, t, m);
      PieceMovesMember(b, color, t, From(m), m);
    }
  }

  /**
   * Every generated move starts on a piece of the mover, does not land on
   * one, carries neither the en-passant nor the castling flag, and is a
   * promotion exactly when a pawn reaches the last rank.
   */
  lemma GeneratedMoveFacts(b: BoardState, color: Color, m: Move)
    requires m in GeneratedMoves(b, color)
    ensures From(m) in Elems(Bits(b.pieces, Piece(color, MovedType(m))))
    ensures To(m) in Reach(b, color, MovedType(m), From(m)) && To(m) !in Elems(ColorBits(b, color))
    ensures !IsEnPassant(m) && !IsCastling(m)
    ensures IsPromotion(m) <==> MovedType(m) == Pawn && To(m) in Elems(BackRank(Opposite(color)))
  {
    GeneratedMovesMember(b, color, m);
    ExpandFacts(MovedType(m), color, From(m), To(m));
  }

  /** A generated promotion is to a Knight, Bishop, Rook or Queen. */
  lemma GeneratedPromotionPiece(b: BoardState, color: Color, m: Move)
    requires m in GeneratedMoves(b, color) && IsPromotion(m)
    ensures PromotionPiece(m).Some? && PromotionPiece(m).value != Pawn && PromotionPiece(m).value != King
  {
    GeneratedMovesMember(b, color, m);
    ExpandFacts(MovedType(m), color, From(m), To(m));
    var ps := Promotions(From(m), To(m), 4);
    PromotionsOrder(From(m), To(m), 4);
    var j :| 0 <= j < 4 && ps[j] == m;
    assert TypeIndex(PromotionPiece(m).value) == j + 1;
  }

  /** On a board whose colour sets are derived from its pieces, no generated move stays where it is. */
  lemma GeneratedMoveDistinct(b: BoardState, color: Color, m: Move)
    requires Consistent(b) && m in GeneratedMoves(b, color)
    ensures From(m) != To(m)
  {
    GeneratedMoveFacts(b, color, m);
    assert From(m) in Elems(ColorBits(b, color));
  }

  /** A target that is not a promotion gives the plain move. */
  lemma PlainMoveGenerated(b: BoardState, color: Color, t: PieceType, from: Sq, to: Sq)
    requires from in Elems(Bits(b.pieces, Piece(color, t)))
    requires to in Targets(b, color, t, from)
    requires !(t == Pawn && to in Elems(BackRank(Opposite(color))))
    ensures NewMove(from, to, t) in GeneratedMoves(b, color)
  {
    ExpandFacts(t, color, from, to);
    GeneratedMovesMember(b, color, NewMove(from, to, t));
  }

  /** A pawn target on the last rank gives all four promotions and no plain move. */
  lemma PromotionsGenerated(b: BoardState, color: Color, from: Sq, to: Sq)
    requires from in Elems(Bits(b.pieces, Piece(color, Pawn)))
    requires to in Targets(b, color, Pawn, from)
    requires to in Elems(BackRank(Opposite(color)))
    ensures forall p :: p in {Knight, Bishop, Rook, Queen} ==> NewPromotion(from, to, Pawn, p) in GeneratedMoves(b, color)
    ensures NewMove(from, to, Pawn) !in GeneratedMoves(b, color)
  {
    ExpandFacts(Pawn, color, from, to);
    forall p | p in {Knight, Bishop, Rook, Queen}
      ensures NewPromotion(from, to, Pawn, p) in GeneratedMoves(b, color)
    {
      GeneratedMovesMember(b, color, NewPromotion(from, to, Pawn, p));
    }
    PawnPushNotGenerated(b, color, NewMove(from, to, Pawn));
  }

  /** A plain pawn move to the last rank is never generated. */
  lemma PawnPushNotGenerated(b: BoardState, color: Color, m: Move)
    requires !IsPromotion(m) && MovedType(m) == Pawn && To(m) in Elems(BackRank(Opposite(color)))
    ensures m !in GeneratedMoves(b, color)
  {
    if m in GeneratedMoves(b, color) {
      GeneratedMoveFacts(b, color, m);
    }
  }

  // ---------------------------------------------------------------------
  // The order of the move list
  // ---------------------------------------------------------------------

  /** The order generate_moves lists moves in: by piece type, then from-square, then to-square. */
  function MoveKey(m: Move): nat
  {
    TypeIndex(MovedType(m)) * 4096 + From(m) * 64 + To(m)
  }

  predicate Ordered(ms: seq<Move>)
  {
    forall i, j :: 0 <= i < j < |ms| ==> MoveKey(ms[i]) <= MoveKey(ms[j])
  }

  lemma OrderedAppend(a: seq<Move>, c: seq<Move>)
    requires Ordered(a) && Ordered(c)
    requires forall m, n :: m in a && n in c ==> MoveKey(m) <= MoveKey(n)
    ensures Ordered(a + c)
  {
    var ac := a + c;
    forall i, j | 0 <= i < j < |ac|
      ensures MoveKey(ac[i]) <= MoveKey(ac[j])
    {
      if j < |a| {
        assert ac[i] == a[i] && ac[j] == a[j];
      } else if i >= |a| {
        assert ac[i] == c[i - |a|] && ac[j] == c[j - |a|];
      } else {
        assert ac[i] == a[i] && ac[j] == c[j - |a|];
      }
    }
  }

  /**
   * Concatenating ordered lists whose keys lie in ranges `[lo(x), hi(x))`
   * that follow one another gives an ordered list.
   */
  lemma {:induction false} FlatMapOrdered<T>(xs: seq<T>, f: T -> seq<Move>, lo: T -> int, hi: T -> int)
    requires forall i :: 0 <= i < |xs| ==> Ordered(f(xs[i]))
    requires forall i, m :: 0 <= i < |xs| && m in f(xs[i]) ==> lo(xs[i]) <= MoveKey(m) < hi(xs[i])
    requires forall i, j :: 0 <= i < j < |xs| ==> hi(xs[i]) <= lo(xs[j])
    ensures Ordered(FlatMap(xs, f))
  {
    if |xs| > 0 {
      var init := xs[..|xs| - 1];
      var last := xs[|xs| - 1];
      FlatMapOrdered(init, f, lo, hi);
      forall m, n | m in FlatMap(init, f) && n in f(last)
        ensures MoveKey(m) <= MoveKey(n)
      {
        FlatMapMember(init, f, m);
        var x :| x in init && m in f(x);
        var i :| 0 <= i < |init| && init[i] == x;
        assert xs[i] == x;
      }
      OrderedAppend(FlatMap(init, f), f(last));
    }
  }

  /** The moves of one target all share one key. */
  lemma ExpandKeys(t: PieceType, color: Color, from: Sq, to: Sq)
    ensures forall m :: m in Expand(t, color, from, to) ==> MoveKey(m) == TypeIndex(t) * 4096 + from * 64 + to
    ensures Ordered(Expand(t, color, from, to))
  {
    ExpandFacts(t, color, from, to);
    var e := Expand(t, color, from, to);
    forall i, j | 0 <= i < j < |e|
      ensures MoveKey(e[i]) <= MoveKey(e[j])
    {
      assert e[i] in e && e[j] in e;
    }
  }

  /** The moves of one piece carry its type and from-square. */
  lemma PieceMovesKeys(b: BoardState, color: Color, t: PieceType, from: Sq)
    ensures forall m :: m in PieceMoves(b, color, t, from) ==>
      TypeIndex(t) * 4096 + from * 64 <= MoveKey(m) < TypeIndex(t) * 4096 + from * 64 + 64
  {
    forall m | m in PieceMoves(b, color, t, from)
      ensures TypeIndex(t) * 4096 + from * 64 <= MoveKey(m) < TypeIndex(t) * 4096 + from * 64 + 64
    {
      PieceMovesMember(b, color, t, from, m);
      ExpandKeys(t, color, from, To(m));
    }
  }

  /** The moves of one piece are ordered by to-square. */
  lemma PieceMovesOrdered(b: BoardState, color: Color, t: PieceType, from: Sq)
    ensures Ordered(PieceMoves(b, color, t, from))
  {
    var tos := SquareList(TargetBits(b, color, t, from));
    var base := TypeIndex(t) * 4096 + from * 64;
    SquareListProps(TargetBits(b, color, t, from));
    forall i | 0 <= i < |tos|
      ensures Ordered(Expand(t, color, from, tos[i]))
      ensures forall m :: m in Expand(t, color, from, tos[i]) ==> base + tos[i] <= MoveKey(m) < base + tos[i] + 1
    {
      ExpandKeys(t, color, from, tos[i]);
    }
    FlatMapOrdered(tos, to => Expand(t, color, from, to), to => base + to, to => base + to + 1);
  }

  /** The moves of one piece type carry that type. */
  lemma TypeMovesKeys(b: BoardState, color: Color, t: PieceType)
    ensures forall m :: m in TypeMoves(b, color, t) ==> TypeIndex(t) * 4096 <= MoveKey(m) < TypeIndex(t) * 4096 + 4096
  {
    forall m | m in TypeMoves(b, color, t)
      ensures TypeIndex(t) * 4096 <= MoveKey(m) < TypeIndex(t) * 4096 + 4096
    {
      TypeMovesMember(b, color, t, m);
      PieceMovesKeys(b, color, t, From(m));
    }
  }

  /** The moves of one piece type are ordered by from-square, then to-square. */
  lemma TypeMovesOrdered(b: BoardState, color: Color, t: PieceType)
    ensures Ordered(TypeMoves(b, color, t))
  {
    var froms := SquareList(Bits(b.pieces, Piece(color, t)));
    var base := TypeIndex(t) * 4096;
    SquareListProps(Bits(b.pieces, Piece(color, t)));
    forall i | 0 <= i < |froms|
      ensures Ordered(PieceMoves(b, color, t, froms[i]))
      ensures forall m :: m in PieceMoves(b, color, t, froms[i]) ==> base + froms[i] as int * 64 <= MoveKey(m) < base + froms[i] as int * 64 + 64
    {
      PieceMovesOrdered(b, color, t, froms[i]);
      PieceMovesKeys(b, color, t, froms[i]);
    }
    FlatMapOrdered(froms, from => PieceMoves(b, color, t, from), from => base + from as int * 64, from => base + from as int * 64 + 64);
  }

  /** generate_moves lists moves by piece type Pawn to King, then by from-square, then by to-square. */
  lemma GeneratedMovesOrdered(b: BoardState, color: Color)
    ensures Ordered(GeneratedMoves(b, color))
  {
    var ts := PieceTypes();
    assert ts[..6] == ts;
    forall i | 0 <= i < 6
      ensures Ordered(TypeMoves(b, color, ts[i]))
      ensures forall m :: m in TypeMoves(b, color, ts[i]) ==> TypeIndex(ts[i]) * 4096 <= MoveKey(m) < TypeIndex(ts[i]) * 4096 + 4096
    {
      TypeMovesOrdered(b, color, ts[i]);
      TypeMovesKeys(b, color, ts[i]);
    }
    FlatMapOrdered(ts, t => TypeMoves(b, color, t), t => TypeIndex(t) * 4096, t => TypeIndex(t) * 4096 + 4096);
  }
}
