/*
 * The search of chess-core/src/search.rs on chess positions: the piece
 * values and the two move-ordering scores (MVV-LVA for captures, a bonus
 * for promotions), the game-over score, and the game tree the search
 * module runs on, with the proof that captures shrink the board so the
 * quiescence search ends.
 */
module ChessSearch {
  import opened Wrappers
  import opened Text
  import opened Bitboards
  import opened Boards
  import opened Moves
  import opened MoveGen
  import opened Positions
  import opened Evaluation
  import opened Search
  import opened Deepening
  import opened ChessMoves

  // ---------------------------------------------------------------------
  // Move ordering
  // ---------------------------------------------------------------------

  /** piece_value: the search's own table. */
  function PieceValue(t: PieceType): (r: nat)
    ensures r == MaterialValue(t)
    ensures 100 <= r && (r > 900 <==> t == King)
  {
    match t
    case Pawn => 100
    case Knight => 300
    case Bishop => 300
    case Rook => 500
    case Queen => 900
    case King => 20000
  }

  /** The search's piece values are the evaluation's material values. */
  lemma PieceValueIsMaterial(t: PieceType)
    ensures PieceValue(t) == MaterialValue(t)
  {
  }

  /** MVV-LVA: ten times the victim's value less the attacker's. */
  function MvvLva(victim: PieceType, attacker: PieceType): int
  {
    PieceValue(victim) * 10 - PieceValue(attacker)
  }

  /**
   * Most valuable victim first: unless a king makes the capture, taking a
   * more valuable piece scores higher whatever the attackers are.
   */
  lemma MostValuableVictimFirst(victim: PieceType, attacker: PieceType, victim2: PieceType, attacker2: PieceType)
    requires attacker != King && attacker2 != King
    requires PieceValue(victim) > PieceValue(victim2)
    ensures MvvLva(victim, attacker) > MvvLva(victim2, attacker2)
  {
    assert PieceValue(victim) >= PieceValue(victim2) + 200;
    assert PieceValue(attacker) <= PieceValue(attacker2) + 800;
  }

  /** Least valuable attacker first: for victims of equal value, the cheaper attacker scores higher. */
  lemma LeastValuableAttackerFirst(victim: PieceType, attacker: PieceType, victim2: PieceType, attacker2: PieceType)
    requires PieceValue(victim) == PieceValue(victim2)
    ensures MvvLva(victim, attacker) > MvvLva(victim2, attacker2) <==> PieceValue(attacker) < PieceValue(attacker2)
  {
  }

  /**
   * The king's value puts a king's capture of any other piece below
   * zero, so below every capture by another piece, which scores at least
   * 100.
   */
  lemma KingCapturesLast(victim: PieceType, attacker: PieceType)
    requires victim != King
    ensures attacker == King <==> MvvLva(victim, attacker) < 0
    ensures attacker != King ==> MvvLva(victim, attacker) >= 100
  {
  }

  /** A capture with a piece on both squares. */
  predicate PieceCapture(v: PositionValue, m: Move)
  {
    StatePieceAt(v.board, From(m)).Some? && StatePieceAt(v.board, To(m)).Some?
  }

  /**
   * capture_score: with a piece on both squares, MVV-LVA of the two;
   * otherwise 100 for en passant and 0 for anything else.
   */
  function CaptureScore(v: PositionValue, m: Move): (r: int)
    ensures PieceCapture(v, m) ==>
      r == MvvLva(StatePieceAt(v.board, To(m)).value.pieceType, StatePieceAt(v.board, From(m)).value.pieceType)
    ensures !PieceCapture(v, m) ==> r == if IsEnPassant(m) then 100 else 0
  {
    var attacker := StatePieceAt(v.board, From(m));
    var victim := StatePieceAt(v.board, To(m));
    if attacker.Some? && victim.Some? then MvvLva(victim.value.pieceType, attacker.value.pieceType)
    else if IsEnPassant(m) then 100
    else 0
  }

  /** The promotion part of move_score: 900, 500, 300, 300 for a queen, rook, bishop, knight. */
  function PromotionBonus(m: Move): int
  {
    if IsPromotion(m) then
      match PromotionPiece(m)
      case Some(Queen) => 900
      case Some(Rook) => 500
      case Some(Bishop) => 300
      case Some(Knight) => 300
      case _ => 0
    else 0
  }

  /** move_score: the capture score of a capture plus the promotion bonus. */
  function MoveScore(v: PositionValue, m: Move): (r: int)
    ensures !IsCapture(m, v.board.pieces) && !IsPromotion(m) ==> r == 0
    ensures (!IsCapture(m, v.board.pieces) && IsPromotion(m) && PromotionPiece(m).Some? &&
             PromotionPiece(m).value != Pawn && PromotionPiece(m).value != King) ==>
      r == PieceValue(PromotionPiece(m).value)
  {
    (if IsCapture(m, v.board.pieces) then CaptureScore(v, m) else 0) + PromotionBonus(m)
  }

  /**
   * What move_score gives: zero for a quiet move, the capture score for a
   * capture that is not a promotion, and the promotion piece's value added
   * for a promotion.
   */
  lemma MoveScoreParts(v: PositionValue, m: Move)
    ensures !IsCapture(m, v.board.pieces) && !IsPromotion(m) ==> MoveScore(v, m) == 0
    ensures IsCapture(m, v.board.pieces) && !IsPromotion(m) ==> MoveScore(v, m) == CaptureScore(v, m)
    ensures IsPromotion(m) && PromotionPiece(m).Some? && PromotionPiece(m).value != Pawn && PromotionPiece(m).value != King ==>
      MoveScore(v, m) == (if IsCapture(m, v.board.pieces) then CaptureScore(v, m) else 0) + PieceValue(PromotionPiece(m).value)
  {
  }

  /**
   * A king capturing a piece other than a king, without promotion, is
   * ordered after every quiet move, whose score is 0.
   */
  lemma KingCaptureAfterQuiet(v: PositionValue, m: Move, q: Move)
    requires PieceCapture(v, m) && !IsPromotion(m)
    requires StatePieceAt(v.board, From(m)).value.pieceType == King
    requires StatePieceAt(v.board, To(m)).value.pieceType != King
    requires !IsCapture(q, v.board.pieces) && !IsPromotion(q)
    ensures MoveScore(v, m) < MoveScore(v, q)
  {
    KingCapturesLast(StatePieceAt(v.board, To(m)).value.pieceType, King);
    assert IsCapture(m, v.board.pieces);
  }

  // ---------------------------------------------------------------------
  // evaluate_game_over
  // ---------------------------------------------------------------------

  const MateScore := -20000

  /** `n as i32` for a `u32`: values from 2^31 up wrap to negative ones. */
  function I32Of(n: U32): (r: int)
    ensures -0x8000_0000 <= r < 0x8000_0000
    ensures r % Word32 == n
  {
    if n < 0x8000_0000 then n else n - Word32
  }

  /**
   * evaluate_game_over: checkmate scores -20000 plus the fullmove number,
   * anything else 0.  is_checkmate looks for the side to move's king,
   * which the source cannot do without one; such a position scores 0 here.
   */
  function EvaluateGameOver(v: PositionValue): (r: int)
    ensures r != 0 ==> KingSquare(v.board, v.sideToMove).Some? && IsCheckmateOf(v)
    ensures KingSquare(v.board, v.sideToMove).Some? && IsStalemateOf(v) ==> r == 0
    ensures KingSquare(v.board, v.sideToMove).Some? && IsCheckmateOf(v) && v.fullmoveNumber < 20000 ==>
      -20000 <= r < 0
  {
    if KingSquare(v.board, v.sideToMove).Some? && IsCheckmateOf(v) then MateScore + I32Of(v.fullmoveNumber)
    else 0
  }

  /**
   * The game-over score: a mate in the first 9999 moves scores between
   * -19999 and -10001, beyond the bound iterative deepening stops at, and
   * a later mate scores higher; a stalemate is a draw.
   */
  lemma GameOverScores(v: PositionValue, w: PositionValue)
    requires KingSquare(v.board, v.sideToMove).Some? && KingSquare(w.board, w.sideToMove).Some?
    ensures IsStalemateOf(v) ==> EvaluateGameOver(v) == 0
    ensures IsCheckmateOf(v) && 1 <= v.fullmoveNumber < MateBound ==>
      -20000 < EvaluateGameOver(v) < -MateBound && Magnitude(EvaluateGameOver(v)) > MateBound
    ensures IsCheckmateOf(v) && IsCheckmateOf(w) && v.fullmoveNumber < w.fullmoveNumber < 0x8000_0000 ==>
      EvaluateGameOver(v) < EvaluateGameOver(w)
  {
    if IsCheckmateOf(v) {
      assert EvaluateGameOver(v) == MateScore + I32Of(v.fullmoveNumber);
      if IsCheckmateOf(w) {
        assert EvaluateGameOver(w) == MateScore + I32Of(w.fullmoveNumber);
      }
    }
  }

  // ---------------------------------------------------------------------
  // The game tree
  // ---------------------------------------------------------------------

  /** The chess game tree: generate_moves, make_move, evaluate and the three scores. */
  function ChessTree(): GameTree<PositionValue, Move>
  {
    GameTree(
      (v: PositionValue) => GeneratedMoves(v.board, v.sideToMove),
      Apply,
      EvaluationOf,
      EvaluateGameOver,
      MoveScore,
      (v: PositionValue, m: Move) => IsCapture(m, v.board.pieces),
      CaptureScore,
      PieceCount)
  }

  /** Every generated capture shrinks the board, so the quiescence search on chess ends. */
  lemma ChessCapturesShrink()
    ensures CapturesShrink(ChessTree())
  {
    var g := ChessTree();
    forall v: PositionValue, m: Move | m in g.moves(v) && g.isCapture(v, m) && g.apply(v, m).Ok?
      ensures g.size(g.apply(v, m).value) < g.size(v)
    {
      CaptureRemovesOne(v, m);
    }
  }

  /** The chess tree's game over is is_game_over. */
  lemma ChessGameOver(v: PositionValue)
    ensures GameOver(ChessTree(), v) <==> IsGameOverOf(v)
  {
  }

  // ---------------------------------------------------------------------
  // search and iterative_deepening on positions
  // ---------------------------------------------------------------------

  /** search on a position, `params.depth` being `depth`. */
  method SearchPosition(v: PositionValue, depth: nat) returns (result: Result<SearchResult<Move>>)
    requires depth > 0 || IsGameOverOf(v)
    ensures CapturesShrink(ChessTree()) && result == SearchOf(ChessTree(), v, depth)
  {
    ChessCapturesShrink();
    result := Search.Search(ChessTree(), v, depth);
  }

  /** iterative_deepening on a position. */
  method IterativeDeepeningPosition(v: PositionValue, maxDepth: nat) returns (result: Result<SearchResult<Move>>)
    ensures CapturesShrink(ChessTree()) && result == IterativeOf(ChessTree(), v, maxDepth)
  {
    ChessCapturesShrink();
    result := IterativeDeepening(ChessTree(), v, maxDepth);
  }
}
