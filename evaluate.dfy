/*
 * Static evaluation (chess-core/src/evaluate.rs): material and
 * piece-square sums from White's point of view, negated when Black is to
 * move; the insufficient-material classifier; the repetition counter.
 *
 * Scores are `i32` in the source.  The sums here never leave that range:
 * twelve bitboards hold at most 12 * 64 = 768 set bits, each worth at
 * most 20000 plus 50, about 15.4 million in all, so they are written over
 * `int`.
 */
module Evaluation {
  import opened Wrappers
  import opened Bitboards
  import opened Boards
  import opened MoveGen
  import opened Positions
  import opened Game

  // ---------------------------------------------------------------------
  // Piece values and piece-square tables
  // ---------------------------------------------------------------------

  /** PIECE_VALUES, indexed by piece type. */
  function MaterialValue(t: PieceType): (v: nat)
    ensures 100 <= v <= 20000
  {
    match t
    case Pawn => 100
    case Knight => 300
    case Bishop => 300
    case Rook => 500
    case Queen => 900
    case King => 20000
  }

  /*
   * The six tables, entry `i` for square `i` (a1 = 0, h8 = 63), each row of
   * eight below being one rank.
   */

  const PawnTable: seq<int> := [
      0,   0,   0,   0,   0,   0,   0,   0,
     50,  50,  50,  50,  50,  50,  50,  50,
     10,  10,  20,  30,  30,  20,  10,  10,
      5,   5,  10,  25,  25,  10,   5,   5,
      0,   0,   0,  20,  20,   0,   0,   0,
      5,  -5, -10,   0,   0, -10,  -5,   5,
      5,  10,  10, -20, -20,  10,  10,   5,
      0,   0,   0,   0,   0,   0,   0,   0]

  const KnightTable: seq<int> := [
    -50, -40, -30, -30, -30, -30, -40, -50,
    -40, -20,   0,   0,   0,   0, -20, -40,
    -30,   0,  10,  15,  15,  10,   0, -30,
    -30,   5,  15,  20,  20,  15,   5, -30,
    -30,   0,  15,  20,  20,  15,   0, -30,
    -30,   5,  10,  15,  15,  10,   5, -30,
    -40, -20,   0,   5,   5,   0, -20, -40,
    -50, -40, -30, -30, -30, -30, -40, -50]

  const BishopTable: seq<int> := [
    -20, -10, -10, -10, -10, -10, -10, -20,
    -10,   0,   0,   0,   0,   0,   0, -10,
    -10,   0,   5,  10,  10,   5,   0, -10,
    -10,   5,   5,  10,  10,   5,   5, -10,
    -10,   0,  10,  10,  10,  10,   0, -10,
    -10,  10,  10,  10,  10,  10,  10, -10,
    -10,   5,   0,   0,   0,   0,   5, -10,
    -20, -10, -10, -10, -10, -10, -10, -20]

  const RookTable: seq<int> := [
      0,   0,   0,   0,   0,   0,   0,   0,
      5,  10,  10,  10,  10,  10,  10,   5,
     -5,   0,   0,   0,   0,   0,   0,  -5,
     -5,   0,   0,   0,   0,   0,   0,  -5,
     -5,   0,   0,   0,   0,   0,   0,  -5,
     -5,   0,   0,   0,   0,   0,   0,  -5,
     -5,   0,   0,   0,   0,   0,   0,  -5,
      0,   0,   0,   5,   5,   0,   0,   0]

  const QueenTable: seq<int> := [
    -20, -10, -10,  -5,  -5, -10, -10, -20,
    -10,   0,   0,   0,   0,   0,   0, -10,
    -10,   0,   5,   5,   5,   5,   0, -10,
     -5,   0,   5,   5,   5,   5,   0,  -5,
      0,   0,   5,   5,   5,   5,   0,  -5,
    -10,   5,   5,   5,   5,   5,   0, -10,
    -10,   0,   5,   0,   0,   0,   0, -10,
    -20, -10, -10,  -5,  -5, -10, -10, -20]

  const KingTable: seq<int> := [
    -30, -40, -40, -50, -50, -40, -40, -30,
    -30, -40, -40, -50, -50, -40, -40, -30,
    -30, -40, -40, -50, -50, -40, -40, -30,
    -30, -40, -40, -50, -50, -40, -40, -30,
    -20, -30, -30, -40, -40, -30, -30, -20,
    -10, -20, -20, -20, -20, -20, -20, -10,
     20,  20,   0,   0,   0,   0,  20,  20,
     20,  30,  10,   0,   0,  10,  30,  20]

  /** The table of a piece type. */
  function Table(t: PieceType): (r: seq<int>)
    ensures |r| == 64
  {
    match t
    case Pawn => PawnTable
    case Knight => KnightTable
    case Bishop => BishopTable
    case Rook => RookTable
    case Queen => QueenTable
    case King => KingTable
  }

  /** get_piece_square_value: White reads its own square, Black the square `63 - s`. */
  function PieceSquareValue(t: PieceType, square: Sq, c: Color): int
  {
    var index := match c
      case White => square
      case Black => 63 - square;
    Table(t)[index]
  }

  /** Black's value on a square is White's on the square turned half way round the board. */
  lemma BlackMirrorsWhite(t: PieceType, s: Sq)
    ensures PieceSquareValue(t, s, Black) == PieceSquareValue(t, 63 - s, White)
    ensures PieceSquareValue(t, s, White) == PieceSquareValue(t, 63 - s, Black)
  {
  }

  // ---------------------------------------------------------------------
  // material_score
  // ---------------------------------------------------------------------

  /** What one piece type adds: (white count - black count) times its value. */
  function MaterialTerm(ps: PieceBoards, t: PieceType): int
  {
    (Count(Bits(ps, Piece(White, t))) - Count(Bits(ps, Piece(Black, t)))) * MaterialValue(t)
  }

  /** The material of the first `k` piece types, in declaration order. */
  function MaterialUpTo(ps: PieceBoards, k: nat): int
    requires k <= 6
  {
    if k == 0 then 0 else MaterialUpTo(ps, k - 1) + MaterialTerm(ps, TypeOf(k - 1))
  }

  /** material_score on piece bitboards. */
  function MaterialOf(ps: PieceBoards): int
  {
    MaterialUpTo(ps, 6)
  }

  /** material_score: the loop over the six piece types. */
  method MaterialScore(board: Board) returns (score: int)
    requires board.Valid()
    ensures score == MaterialOf(board.Pieces())
  {
    score := 0;
    for k := 0 to 6
      invariant score == MaterialUpTo(board.Pieces(), k)
    {
      var pieceType := PieceTypes()[k];
      var whiteCount: int := Count(board.PieceBitboard(White, pieceType));
      var blackCount: int := Count(board.PieceBitboard(Black, pieceType));
      var pieceValue := MaterialValue(pieceType);
      score := score + (whiteCount - blackCount) * pieceValue;
    }
  }

  /** The piece boards with the colours exchanged. */
  function SwapColors(ps: PieceBoards): (r: PieceBoards)
    ensures forall p: Piece :: Bits(r, p) == Bits(ps, Piece(Opposite(p.color), p.pieceType))
  {
    [ps[1], ps[0]]
  }

  /** The six terms of the material sum, written out. */
  lemma MaterialTerms(ps: PieceBoards)
    ensures MaterialOf(ps) == MaterialTerm(ps, Pawn) + MaterialTerm(ps, Knight) + MaterialTerm(ps, Bishop)
                              + MaterialTerm(ps, Rook) + MaterialTerm(ps, Queen) + MaterialTerm(ps, King)
  {
    assert MaterialUpTo(ps, 1) == MaterialTerm(ps, Pawn);
    assert MaterialUpTo(ps, 2) == MaterialUpTo(ps, 1) + MaterialTerm(ps, Knight);
    assert MaterialUpTo(ps, 3) == MaterialUpTo(ps, 2) + MaterialTerm(ps, Bishop);
    assert MaterialUpTo(ps, 4) == MaterialUpTo(ps, 3) + MaterialTerm(ps, Rook);
    assert MaterialUpTo(ps, 5) == MaterialUpTo(ps, 4) + MaterialTerm(ps, Queen);
  }

  /** Exchanging the colours negates one type's term. */
  lemma MaterialTermSwap(ps: PieceBoards, t: PieceType)
    ensures MaterialTerm(SwapColors(ps), t) == -MaterialTerm(ps, t)
  {
    assert Bits(SwapColors(ps), Piece(White, t)) == Bits(ps, Piece(Black, t));
    assert Bits(SwapColors(ps), Piece(Black, t)) == Bits(ps, Piece(White, t));
    match t
    case Pawn =>
    case Knight =>
    case Bishop =>
    case Rook =>
    case Queen =>
    case King =>
  }

  /** Material is antisymmetric in the colours. */
  lemma MaterialSwap(ps: PieceBoards)
    ensures MaterialOf(SwapColors(ps)) == -MaterialOf(ps)
  {
    MaterialTerms(ps);
    MaterialTerms(SwapColors(ps));
    MaterialTermSwap(ps, Pawn);
    MaterialTermSwap(ps, Knight);
    MaterialTermSwap(ps, Bishop);
    MaterialTermSwap(ps, Rook);
    MaterialTermSwap(ps, Queen);
    MaterialTermSwap(ps, King);
  }

  /** A board holding one white queen and nothing else has material 900. */
  lemma LoneQueenMaterial(ps: PieceBoards)
    requires forall p: Piece :: Count(Bits(ps, p)) == if p == Piece(White, Queen) then 1 else 0
    ensures MaterialOf(ps) == 900
  {
    MaterialTerms(ps);
    assert Count(Bits(ps, Piece(White, Queen))) == 1 && Count(Bits(ps, Piece(Black, Queen))) == 0;
    assert MaterialTerm(ps, Pawn) == 0 && MaterialTerm(ps, Knight) == 0 && MaterialTerm(ps, Bishop) == 0;
    assert MaterialTerm(ps, Rook) == 0 && MaterialTerm(ps, Queen) == 900 && MaterialTerm(ps, King) == 0;
  }

  // ---------------------------------------------------------------------
  // piece_square_score
  // ---------------------------------------------------------------------

  /** The table values of `c`'s pieces of type `t` on the squares `sqs`, summed from the front. */
  function SquareSum(t: PieceType, c: Color, sqs: seq<Sq>): int
  {
    if |sqs| == 0 then 0 else SquareSum(t, c, sqs[..|sqs| - 1]) + PieceSquareValue(t, sqs[|sqs| - 1], c)
  }

  lemma SquareSumStep(t: PieceType, c: Color, sqs: seq<Sq>, j: nat)
    requires j < |sqs|
    ensures SquareSum(t, c, sqs[..j + 1]) == SquareSum(t, c, sqs[..j]) + PieceSquareValue(t, sqs[j], c)
  {
    assert sqs[..j + 1][..j] == sqs[..j];
  }

  /** The piece-square sum of `c`'s pieces of the first `k` types, visiting each type's squares upward. */
  function SideSumUpTo(ps: PieceBoards, c: Color, k: nat): int
    requires k <= 6
  {
    if k == 0 then 0
    else SideSumUpTo(ps, c, k - 1) + SquareSum(TypeOf(k - 1), c, SquareList(Bits(ps, Piece(c, TypeOf(k - 1)))))
  }

  /** piece_square_score on piece bitboards: White's sum minus Black's. */
  function PieceSquareOf(ps: PieceBoards): int
  {
    SideSumUpTo(ps, White, 6) - SideSumUpTo(ps, Black, 6)
  }

  /**
   * piece_square_score: for each type, White's squares added, then for
   * each type, Black's squares subtracted.
   */
  method PieceSquareScore(board: Board) returns (score: int)
    requires board.Valid()
    ensures score == PieceSquareOf(board.Pieces())
  {
    ghost var ps := board.Pieces();
    score := 0;
    for k := 0 to 6
      invariant score == SideSumUpTo(ps, White, k)
    {
      var bits := board.PieceBitboard(White, PieceTypes()[k]);
      score := AddSquares(score, bits, PieceTypes()[k]);
    }
    for k := 0 to 6
      invariant score == SideSumUpTo(ps, White, 6) - SideSumUpTo(ps, Black, k)
    {
      var bits := board.PieceBitboard(Black, PieceTypes()[k]);
      score := SubtractSquares(score, bits, PieceTypes()[k]);
    }
  }

  /** piece_square_score's inner loop for White: each square's table value is added. */
  method AddSquares(score0: int, bits: Bitboard, t: PieceType) returns (score: int)
    ensures score == score0 + SquareSum(t, White, SquareList(bits))
  {
    var squares := Squares(bits);
    score := score0;
    for j := 0 to |squares|
      invariant score == score0 + SquareSum(t, White, squares[..j])
    {
      SquareSumStep(t, White, squares, j);
      score := score + PieceSquareValue(t, squares[j], White);
    }
    assert squares[..|squares|] == squares;
  }

  /** piece_square_score's inner loop for Black: each square's mirrored table value is subtracted. */
  method SubtractSquares(score0: int, bits: Bitboard, t: PieceType) returns (score: int)
    ensures score == score0 - SquareSum(t, Black, SquareList(bits))
  {
    var squares := Squares(bits);
    score := score0;
    for j := 0 to |squares|
      invariant score == score0 - SquareSum(t, Black, squares[..j])
    {
      SquareSumStep(t, Black, squares, j);
      score := score - PieceSquareValue(t, squares[j], Black);
    }
    assert squares[..|squares|] == squares;
  }

  // ---------------------------------------------------------------------
  // evaluate
  // ---------------------------------------------------------------------

  /** evaluate on a position value: material plus piece-square, from the side to move's point of view. */
  function EvaluationOf(v: PositionValue): int
  {
    var score := MaterialOf(v.board.pieces) + PieceSquareOf(v.board.pieces);
    if v.sideToMove == Black then -score else score
  }

  /** evaluate: the two sums, negated when Black is to move. */
  method Evaluate(position: Position) returns (score: int)
    requires position.Valid()
    ensures score == EvaluationOf(position.Value())
  {
    score := 0;
    var material := MaterialScore(position.board);
    score := score + material;
    var placement := PieceSquareScore(position.board);
    score := score + placement;
    if position.sideToMove == Black {
      score := -score;
    }
  }

  /** The same board scores opposite values for the two sides to move. */
  lemma SidesDisagree(v: PositionValue)
    ensures EvaluationOf(v.(sideToMove := Black)) == -EvaluationOf(v.(sideToMove := White))
    ensures EvaluationOf(v) == if v.sideToMove == White then MaterialOf(v.board.pieces) + PieceSquareOf(v.board.pieces)
                               else -(MaterialOf(v.board.pieces) + PieceSquareOf(v.board.pieces))
  {
  }

  // ---------------------------------------------------------------------
  // is_insufficient_material
  // ---------------------------------------------------------------------

  /**
   * The minor piece of a side with two pieces: a bishop when it has
   * exactly one, else a knight when it has exactly one, else none.
   */
  function LoneMinor(b: BoardState, c: Color): Option<PieceType>
  {
    if Count(Bits(b.pieces, Piece(c, Bishop))) == 1 then Some(Bishop)
    else if Count(Bits(b.pieces, Piece(c, Knight))) == 1 then Some(Knight)
    else None
  }

  /**
   * A side with two pieces and exactly one bishop or exactly one knight
   * against a side with one piece.
   */
  predicate MinorAgainstBare(b: BoardState, c: Color)
  {
    Count(ColorBits(b, c)) == 2 && Count(ColorBits(b, Opposite(c))) == 1
    && (Count(Bits(b.pieces, Piece(c, Bishop))) == 1 || Count(Bits(b.pieces, Piece(c, Knight))) == 1)
  }

  /**
   * is_insufficient_material: true for two occupied squares, whatever
   * stands on them; with three, true exactly when a side with two pieces
   * has exactly one bishop or exactly one knight and the other side has
   * one piece; false otherwise.
   */
  function IsInsufficientMaterial(b: BoardState): (r: bool)
    ensures Count(b.occupied) == 2 ==> r
    ensures Count(b.occupied) == 3 ==> (r <==> MinorAgainstBare(b, White) || MinorAgainstBare(b, Black))
    ensures Count(b.occupied) != 2 && Count(b.occupied) != 3 ==> !r
  {
    var total := Count(b.occupied);
    if total == 2 then true
    else if total == 3 then
      var whitePieces := Count(b.white);
      var blackPieces := Count(b.black);
      if whitePieces == 2 && blackPieces == 1 then
        match LoneMinor(b, White)
        case Some(minor) => minor == Bishop || minor == Knight
        case None => false
      else if blackPieces == 2 && whitePieces == 1 then
        match LoneMinor(b, Black)
        case Some(minor) => minor == Bishop || minor == Knight
        case None => false
      else false
    else false
  }

  // ---------------------------------------------------------------------
  // is_threefold_repetition
  // ---------------------------------------------------------------------

  /** Some entry of `positions` occurs at least three times. */
  predicate SomeThreefold(positions: seq<string>)
  {
    exists fen :: fen in positions && multiset(positions)[fen] >= 3
  }

  /**
   * is_threefold_repetition: fewer than six entries never repeat three
   * times; otherwise count each entry in a map and stop at the first
   * count of three.
   */
  method IsThreefoldRepetition(positions: seq<string>) returns (r: bool)
    ensures r <==> |positions| >= 6 && SomeThreefold(positions)
  {
    if |positions| < 6 {
      return false;
    }
    var counts: map<string, nat> := map[];
    for k := 0 to |positions|
      invariant forall fen :: fen in counts <==> fen in positions[..k]
      invariant forall fen :: fen in counts ==> counts[fen] == multiset(positions[..k])[fen]
      invariant forall fen :: multiset(positions[..k])[fen] < 3
    {
      var fen := positions[k];
      assert positions[..k + 1] == positions[..k] + [fen];
      var count := if fen in counts then counts[fen] else 0;
      counts := counts[fen := count + 1];
      if counts[fen] >= 3 {
        assert positions == positions[..k + 1] + positions[k + 1..];
        assert multiset(positions[..k + 1])[fen] == counts[fen];
        assert multiset(positions[..k + 1]) <= multiset(positions);
        assert fen in positions && multiset(positions)[fen] >= 3;
        return true;
      }
    }
    assert positions[..|positions|] == positions;
    r := false;
  }
}
