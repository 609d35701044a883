/*
 * The position state machine of position.rs, on values: castling rights,
 * the snapshot pushed by make_move and popped by undo_move, the four kinds
 * of move execution, the clocks, and the attack and game-over queries.
 * The class in position.dfy updates a real Board in place and is proved to
 * follow these functions.
 */
module Positions {
  import opened Wrappers
  import opened Text
  import opened Bitboards
  import opened Boards
  import opened Moves
  import opened Rays
  import opened MoveGen

  // ---------------------------------------------------------------------
  // Castling rights
  // ---------------------------------------------------------------------

  /** The four castling flags. */
  datatype CastlingRights = CastlingRights(whiteKingside: bool, whiteQueenside: bool,
                                           blackKingside: bool, blackQueenside: bool)

  /** CastlingRights::all. */
  const AllRights := CastlingRights(true, true, true, true)

  /** CastlingRights::none. */
  const NoRights := CastlingRights(false, false, false, false)

  /** The corner and castling squares the source names by `from_algebraic`. */
  const A1: Sq := 0
  const C1: Sq := 2
  const D1: Sq := 3
  const F1: Sq := 5
  const G1: Sq := 6
  const H1: Sq := 7
  const A8: Sq := 56
  const C8: Sq := 58
  const D8: Sq := 59
  const F8: Sq := 61
  const G8: Sq := 62
  const H8: Sq := 63

  /** The white-side constants are the squares the algebraic codec gives for their names. */
  lemma WhiteSquareNames(a1: Sq, c1: Sq, d1: Sq, f1: Sq, g1: Sq, h1: Sq)
    requires a1 == A1 && c1 == C1 && d1 == D1 && f1 == F1 && g1 == G1 && h1 == H1
    ensures SquareFromAlgebraic("a1") == Some(a1) && SquareFromAlgebraic("c1") == Some(c1)
    ensures SquareFromAlgebraic("d1") == Some(d1) && SquareFromAlgebraic("f1") == Some(f1)
    ensures SquareFromAlgebraic("g1") == Some(g1) && SquareFromAlgebraic("h1") == Some(h1)
  {
    assert SquareToAlgebraic(a1) == "a1" && SquareToAlgebraic(c1) == "c1" && SquareToAlgebraic(d1) == "d1";
    assert SquareToAlgebraic(f1) == "f1" && SquareToAlgebraic(g1) == "g1" && SquareToAlgebraic(h1) == "h1";
    SquareAlgebraicRoundTrip(a1);
    SquareAlgebraicRoundTrip(c1);
    SquareAlgebraicRoundTrip(d1);
    SquareAlgebraicRoundTrip(f1);
    SquareAlgebraicRoundTrip(g1);
    SquareAlgebraicRoundTrip(h1);
  }

  /** The black-side constants are the squares the algebraic codec gives for their names. */
  lemma BlackSquareNames(a8: Sq, c8: Sq, d8: Sq, f8: Sq, g8: Sq, h8: Sq)
    requires a8 == A8 && c8 == C8 && d8 == D8 && f8 == F8 && g8 == G8 && h8 == H8
    ensures SquareFromAlgebraic("a8") == Some(a8) && SquareFromAlgebraic("c8") == Some(c8)
    ensures SquareFromAlgebraic("d8") == Some(d8) && SquareFromAlgebraic("f8") == Some(f8)
    ensures SquareFromAlgebraic("g8") == Some(g8) && SquareFromAlgebraic("h8") == Some(h8)
  {
    assert SquareToAlgebraic(a8) == "a8" && SquareToAlgebraic(c8) == "c8" && SquareToAlgebraic(d8) == "d8";
    assert SquareToAlgebraic(f8) == "f8" && SquareToAlgebraic(g8) == "g8" && SquareToAlgebraic(h8) == "h8";
    SquareAlgebraicRoundTrip(a8);
    SquareAlgebraicRoundTrip(c8);
    SquareAlgebraicRoundTrip(d8);
    SquareAlgebraicRoundTrip(f8);
    SquareAlgebraicRoundTrip(g8);
    SquareAlgebraicRoundTrip(h8);
  }

  /**
   * The flags after a move of `mover` (if any) from `from`: a king move
   * clears both flags of its colour; a rook leaving a1, h1, a8 or h8
   * clears the flag of that corner; anything else keeps the flags.
   */
  function RightsAfter(cr: CastlingRights, mover: Option<Piece>, from: Sq): (r: CastlingRights)
    ensures r.whiteKingside ==> cr.whiteKingside
    ensures r.whiteQueenside ==> cr.whiteQueenside
    ensures r.blackKingside ==> cr.blackKingside
    ensures r.blackQueenside ==> cr.blackQueenside
  {
    match mover
    case None => cr
    case Some(p) =>
      match p.pieceType
      case King =>
        if p.color == White then cr.(whiteKingside := false, whiteQueenside := false)
        else cr.(blackKingside := false, blackQueenside := false)
      case Rook =>
        if p.color == White then
          if from == A1 then cr.(whiteQueenside := false)
          else if from == H1 then cr.(whiteKingside := false)
          else cr
        else
          if from == A8 then cr.(blackQueenside := false)
          else if from == H8 then cr.(blackKingside := false)
          else cr
      case _ => cr
  }

  /**
   * CastlingRights::update: the flags after the move of whatever stands on
   * the from-square.  Only the moving piece matters, so a rook captured
   * on its corner keeps its flag.
   */
  function UpdateRights(cr: CastlingRights, m: Move, ps: PieceBoards): (r: CastlingRights)
  {
    RightsAfter(cr, PieceAtOf(ps, From(m)), From(m))
  }

  /**
   * Each flag survives unless the mover is the king of its colour or the
   * rook leaving its corner; a White move never touches a Black flag and
   * the other way round.
   */
  lemma RightsAfterFlags(cr: CastlingRights, mover: Option<Piece>, from: Sq)
    ensures var r := RightsAfter(cr, mover, from);
      && (r.whiteKingside <==> cr.whiteKingside && mover != Some(Piece(White, King))
                               && !(mover == Some(Piece(White, Rook)) && from == H1))
      && (r.whiteQueenside <==> cr.whiteQueenside && mover != Some(Piece(White, King))
                                && !(mover == Some(Piece(White, Rook)) && from == A1))
      && (r.blackKingside <==> cr.blackKingside && mover != Some(Piece(Black, King))
                               && !(mover == Some(Piece(Black, Rook)) && from == H8))
      && (r.blackQueenside <==> cr.blackQueenside && mover != Some(Piece(Black, King))
                                && !(mover == Some(Piece(Black, Rook)) && from == A8))
  {
  }

  /** Applying the same update twice changes nothing more. */
  lemma RightsAfterIdempotent(cr: CastlingRights, mover: Option<Piece>, from: Sq)
    ensures RightsAfter(RightsAfter(cr, mover, from), mover, from) == RightsAfter(cr, mover, from)
  {
  }

  // ---------------------------------------------------------------------
  // Positions as values
  // ---------------------------------------------------------------------

  /** PositionState: what make_move saves so undo_move can restore it. */
  datatype PositionState = PositionState(board: BoardState, castlingRights: CastlingRights,
                                         enPassant: Option<SquareIndex>, halfmoveClock: U32)

  /** Position as a value: the board, the game-state fields and the snapshot stack. */
  datatype PositionValue = PositionValue(board: BoardState, sideToMove: Color,
                                         castlingRights: CastlingRights, enPassant: Option<SquareIndex>,
                                         halfmoveClock: U32, fullmoveNumber: U32,
                                         history: seq<PositionState>)

  /** The snapshot make_move pushes. */
  function Snapshot(v: PositionValue): (s: PositionState)
  {
    PositionState(v.board, v.castlingRights, v.enPassant, v.halfmoveClock)
  }

  /** set_piece on a board value, derived bitboards included. */
  function Place(b: BoardState, s: Sq, p: Option<Piece>): (r: BoardState)
    ensures Consistent(r)
    ensures StatePieceAt(r, s) == p
  {
    SetPieceHere(b.pieces, s, p);
    Derive(SetPieceOf(b.pieces, s, p))
  }

  /** `set_piece(from, None)` then `set_piece(to, Some(p))`. */
  function Relocate(b: BoardState, from: Sq, to: Sq, p: Piece): (r: BoardState)
    ensures Consistent(r) && StatePieceAt(r, to) == Some(p)
  {
    Place(Place(b, from, None), to, Some(p))
  }

  /** `Place` leaves every other square alone. */
  lemma PlaceElsewhere(b: BoardState, s: Sq, p: Option<Piece>, t: Sq)
    requires t != s
    ensures StatePieceAt(Place(b, s, p), t) == StatePieceAt(b, t)
  {
    SetPieceElsewhere(b.pieces, s, p, t);
  }

  /** `Place` keeps one piece per square. */
  lemma PlaceKeepsOne(b: BoardState, s: Sq, p: Option<Piece>)
    requires OnePerSquare(b.pieces)
    ensures OnePerSquare(Place(b, s, p).pieces)
  {
    SetPiecePreserves(b.pieces, s, p);
  }

  /** What `Relocate` leaves on each square. */
  lemma RelocateAt(b: BoardState, from: Sq, to: Sq, p: Piece, t: Sq)
    ensures StatePieceAt(Relocate(b, from, to, p), t) ==
            if t == to then Some(p) else if t == from then None else StatePieceAt(b, t)
  {
    if t != to {
      PlaceElsewhere(Place(b, from, None), to, Some(p), t);
      if t != from {
        PlaceElsewhere(b, from, None, t);
      }
    }
  }

  /** `Relocate` keeps one piece per square. */
  lemma RelocateKeepsOne(b: BoardState, from: Sq, to: Sq, p: Piece)
    requires OnePerSquare(b.pieces)
    ensures OnePerSquare(Relocate(b, from, to, p).pieces)
  {
    PlaceKeepsOne(b, from, None);
    PlaceKeepsOne(Place(b, from, None), to, Some(p));
  }

  // ---------------------------------------------------------------------
  // make_move
  // ---------------------------------------------------------------------

  /** The rook's from- and to-square for a castling king landing on `to`, if `to` is a castling square. */
  function CastlingRook(to: Sq): (r: Option<(Sq, Sq)>)
    ensures r.Some? <==> to in {G1, C1, G8, C8}
    ensures r.Some? ==> Rank(r.value.0) == Rank(to) == Rank(r.value.1)
    ensures r.Some? ==> r.value.0 != to && r.value.1 != to && r.value.0 != r.value.1
  {
    if to == G1 then Some((H1, F1))
    else if to == C1 then Some((A1, D1))
    else if to == G8 then Some((H8, F8))
    else if to == C8 then Some((A8, D8))
    else None
  }

  /** Whether a move of piece `p` is a pawn moving two ranks. */
  predicate DoublePush(p: Piece, from: Sq, to: Sq)
  {
    p.pieceType == Pawn && Abs(Rank(to) - Rank(from)) == 2
  }

  /**
   * `Square::new(file, rank)` with `u8` arithmetic that wraps, as a release
   * build computes it.
   */
  function WrappingSquare(file: nat, rank: int): (r: SquareIndex)
    requires file < 8
    ensures r % 8 == file && r / 8 == rank % 32
  {
    ((rank % 256) * 8 + file) % 256
  }

  /**
   * The en-passant square a normal move leaves: the square one rank
   * forward of the from-square (for the mover's colour) after a two-rank
   * pawn move, and none otherwise.  The rank is `u8` arithmetic: a White
   * pawn moving two ranks from rank 8 leaves the index 64 + file, off the
   * board, and a Black one from rank 1 wraps below 0.
   */
  function DoublePushTarget(p: Piece, from: Sq, to: Sq): (r: Option<SquareIndex>)
    ensures r.Some? <==> DoublePush(p, from, to)
    ensures r.Some? ==> r.value % 8 == File(from) && r.value / 8 == (Rank(from) + Forward(p.color)) % 32
    ensures r.Some? && 0 < Rank(from) < 7 ==>
      r.value < 64 && File(r.value) == File(from) && Rank(r.value) == Rank(from) + Forward(p.color)
  {
    if DoublePush(p, from, to) then
      var rank := if p.color == White then Rank(from) + 1 else Rank(from) - 1;
      Some(WrappingSquare(File(from), rank))
    else None
  }

  /**
   * A White pawn moving two ranks down from e8 to e6 leaves the index 68,
   * `Square::new(4, 8)`, as its en-passant square: a square off the board.
   */
  lemma DoublePushOffBoard(e8: Sq, e6: Sq)
    requires e8 == 60 && e6 == 44
    ensures DoublePushTarget(Piece(White, Pawn), e8, e6) == Some(68)
  {
  }

  /**
   * The square whose bit an en-passant capture clears: the one behind `to`
   * for the mover's colour.  A White capture onto rank 1 or a Black one
   * onto rank 8 has no such square; there a release build wraps the rank
   * in `u8` arithmetic and `clear_square` shifts `1u64` by the index modulo
   * 64 (`EnPassantVictimWrapped`), so the capture clears the square at the
   * other end of the file.
   */
  function EnPassantVictim(c: Color, to: Sq): (r: Sq)
    ensures File(r) == File(to) && Rank(r) == (Rank(to) - Forward(c)) % 8
    ensures (if c == White then Rank(to) > 0 else Rank(to) < 7) ==> Rank(r) + Forward(c) == Rank(to)
    ensures r != to
  {
    if c == White then (if to >= 8 then to - 8 else to + 56)
    else (if to < 56 then to + 8 else to - 56)
  }

  /**
   * The square `EnPassantVictim` gives is the one the source clears:
   * `Square::new(to.file(), to.rank() -/+ 1)` in `u8` arithmetic, taken
   * modulo 64 by the shift in `clear_square`.
   */
  lemma EnPassantVictimWrapped(c: Color, to: Sq)
    ensures EnPassantVictim(c, to) == WrappingSquare(File(to), Rank(to) - Forward(c)) % 64
  {
    var rank := Rank(to) - Forward(c);
    var index := WrappingSquare(File(to), rank);
    assert index / 8 % 8 == rank % 32 % 8 == rank % 8;
    assert index % 64 == index / 8 % 8 * 8 + index % 8;
    assert to == Rank(to) * 8 + File(to);
    if rank == -1 {
      assert rank % 8 == 7;
    } else if rank == 8 {
      assert rank % 8 == 0;
    } else {
      assert rank % 8 == rank;
    }
  }

  /**
   * A White pawn capturing en passant onto e1 clears e8, and a Black one
   * capturing onto e8 clears e1.
   */
  lemma EnPassantVictimWraps(e1: Sq, e8: Sq)
    requires e1 == 4 && e8 == 60
    ensures EnPassantVictim(White, e1) == e8 && EnPassantVictim(Black, e8) == e1
  {
  }

  /**
   * The moves make_move can execute without panicking: a piece on the
   * from-square (each make_*_move expects one); for a castling move to g1/c1/g8/c8, a piece
   * on the rook's square once the king has moved; a promotion piece
   * when the promotion flag is set.
   */
  predicate Playable(b: BoardState, m: Move)
  {
    StatePieceAt(b, From(m)).Some? &&
    var p := StatePieceAt(b, From(m)).value;
    if IsEnPassant(m) then true
    else if IsCastling(m) then
      CastlingRook(To(m)).None?
      || StatePieceAt(Relocate(b, From(m), To(m), p), CastlingRook(To(m)).value.0).Some?
    else IsPromotion(m) ==> PromotionPiece(m).Some?
  }

  /**
   * The make_*_move step: the board it leaves, the en-passant square it
   * sets, and the error of a castling move to a square that is not a
   * castling square (after the king has already moved).
   */
  function ExecuteMove(b: BoardState, m: Move): (r: (Result<()>, BoardState, Option<SquareIndex>))
    requires Playable(b, m)
    ensures Consistent(r.1)
    ensures r.0.Err? <==> !IsEnPassant(m) && IsCastling(m) && CastlingRook(To(m)).None?
    ensures r.2.Some? ==> !IsEnPassant(m) && !IsCastling(m) && !IsPromotion(m)
  {
    var from, to := From(m), To(m);
    var p := StatePieceAt(b, from).value;
    var moved := Relocate(b, from, to, p);
    if IsEnPassant(m) then
      (Ok(()), Place(moved, EnPassantVictim(p.color, to), None), None)
    else if IsCastling(m) then
      match CastlingRook(to)
      case None => (Err(InvalidMove("Invalid castling move")), moved, None)
      case Some((rookFrom, rookTo)) =>
        (Ok(()), Relocate(moved, rookFrom, rookTo, StatePieceAt(moved, rookFrom).value), None)
    else if IsPromotion(m) then
      (Ok(()), Relocate(b, from, to, Piece(p.color, PromotionPiece(m).value)), None)
    else
      (Ok(()), moved, DoublePushTarget(p, from, to))
  }

  /**
   * The tail of make_move: the halfmove clock is reset when the moved
   * piece is a pawn or `to` holds a piece (tested after the move), else
   * incremented; the fullmove number goes up after Black's move; the side
   * to move flips.
   */
  function FinishMove(v: PositionValue, m: Move): (r: PositionValue)
    ensures r.sideToMove == Opposite(v.sideToMove)
    ensures r.fullmoveNumber == if v.sideToMove == Black then IncU32(v.fullmoveNumber) else v.fullmoveNumber
    ensures r.board == v.board && r.history == v.history
    ensures r.castlingRights == v.castlingRights && r.enPassant == v.enPassant
  {
    var clock := if MovedType(m) == Pawn || StatePieceAt(v.board, To(m)).Some? then 0 else IncU32(v.halfmoveClock);
    var fullmove := if v.sideToMove == Black then IncU32(v.fullmoveNumber) else v.fullmoveNumber;
    v.(halfmoveClock := clock, fullmoveNumber := fullmove, sideToMove := Opposite(v.sideToMove))
  }

  /**
   * make_move on a value: push the snapshot, update the castling rights
   * against the board before the move, clear the en-passant square,
   * execute the move, and finish unless the execution failed.  A failed
   * castling move returns its error with the snapshot, the rights and
   * the king's move already applied.
   */
  function MakeMoveOf(v: PositionValue, m: Move): (r: (Result<()>, PositionValue))
    requires Playable(v.board, m)
    ensures r.1.history == v.history + [Snapshot(v)]
    ensures r.1.castlingRights == UpdateRights(v.castlingRights, m, v.board.pieces)
    ensures r.1.board == ExecuteMove(v.board, m).1
    ensures r.0.Err? <==> !IsEnPassant(m) && IsCastling(m) && CastlingRook(To(m)).None?
    ensures r.0.Ok? ==> r.1.sideToMove == Opposite(v.sideToMove)
    ensures r.0.Err? ==> r.1.sideToMove == v.sideToMove && r.1.halfmoveClock == v.halfmoveClock
                         && r.1.fullmoveNumber == v.fullmoveNumber && r.1.enPassant.None?
  {
    var rights := UpdateRights(v.castlingRights, m, v.board.pieces);
    var pushed := v.(history := v.history + [Snapshot(v)], castlingRights := rights, enPassant := None);
    var (result, board, ep) := ExecuteMove(v.board, m);
    var moved := pushed.(board := board, enPassant := ep);
    if result.Err? then (result, moved) else (Ok(()), FinishMove(moved, m))
  }

  /**
   * undo_move on a value: with an empty history, the error and no change;
   * otherwise the last snapshot's board, rights, en-passant square and
   * halfmove clock come back, the side flips, and the fullmove number
   * goes down when the side to move becomes Black.
   */
  function UndoOf(v: PositionValue): (r: (Result<()>, PositionValue))
    ensures |v.history| == 0 ==> r == (Err(InvalidMove("No moves to undo")), v)
    ensures |v.history| > 0 ==> r.0.Ok? && r.1.history == v.history[..|v.history| - 1]
    ensures |v.history| > 0 ==> Snapshot(r.1) == v.history[|v.history| - 1]
    ensures |v.history| > 0 ==> r.1.sideToMove == Opposite(v.sideToMove)
  {
    if |v.history| == 0 then (Err(InvalidMove("No moves to undo")), v)
    else
      var s := v.history[|v.history| - 1];
      var side := Opposite(v.sideToMove);
      var fullmove := if side == Black then DecU32(v.fullmoveNumber) else v.fullmoveNumber;
      (Ok(()), PositionValue(s.board, side, s.castlingRights, s.enPassant, s.halfmoveClock,
                             fullmove, v.history[..|v.history| - 1]))
  }

  /** undo_move after a successful make_move gives back the position before it, exactly. */
  lemma MakeUndoRoundTrip(v: PositionValue, m: Move)
    requires Playable(v.board, m)
    requires MakeMoveOf(v, m).0.Ok?
    ensures UndoOf(MakeMoveOf(v, m).1) == (Ok(()), v)
  {
    var after := MakeMoveOf(v, m).1;
    assert after.history[..|after.history| - 1] == v.history;
    ColorFacts(v.sideToMove);
    IncDecU32(v.fullmoveNumber);
  }

  /**
   * undo_move after a castling move that failed restores the snapshot but
   * still flips the side, because make_move returned before flipping it.
   */
  lemma FailedCastlingUndo(v: PositionValue, m: Move)
    requires Playable(v.board, m)
    requires MakeMoveOf(v, m).0.Err?
    ensures var u := UndoOf(MakeMoveOf(v, m).1).1;
      u == v.(sideToMove := Opposite(v.sideToMove),
              fullmoveNumber := if Opposite(v.sideToMove) == Black then DecU32(v.fullmoveNumber) else v.fullmoveNumber)
  {
    var after := MakeMoveOf(v, m).1;
    assert after.history[..|after.history| - 1] == v.history;
  }

  /** Every move step that succeeds leaves a piece on `to`. */
  lemma ExecuteOccupiesTo(b: BoardState, m: Move)
    requires Playable(b, m)
    requires ExecuteMove(b, m).0.Ok?
    ensures StatePieceAt(ExecuteMove(b, m).1, To(m)).Some?
  {
    var to := To(m);
    var p := StatePieceAt(b, From(m)).value;
    var moved := Relocate(b, From(m), to, p);
    if IsEnPassant(m) {
      PlaceElsewhere(moved, EnPassantVictim(p.color, to), None, to);
    } else if IsCastling(m) {
      var (rookFrom, rookTo) := CastlingRook(to).value;
      RelocateAt(moved, rookFrom, rookTo, StatePieceAt(moved, rookFrom).value, to);
    }
  }

  /** The halfmove clock is 0 after every successful make_move: `to` is always occupied by then. */
  lemma HalfmoveAlwaysZero(v: PositionValue, m: Move)
    requires Playable(v.board, m)
    requires MakeMoveOf(v, m).0.Ok?
    ensures MakeMoveOf(v, m).1.halfmoveClock == 0
  {
    ExecuteOccupiesTo(v.board, m);
  }

  /**
   * The halfmove clock as the fifty-move rule counts it: a pawn move or a
   * capture, judged on the board before the move, resets it; any other
   * move counts it up.
   */
  function IntendedHalfmove(b: BoardState, m: Move, clock: U32): U32
  {
    if MovedType(m) == Pawn || IsCapture(m, b.pieces) then 0 else IncU32(clock)
  }

  /**
   * With the capture judged before the move, the clock is reset exactly by
   * a pawn move or a capture, and a quiet piece move counts it up by one.
   */
  lemma IntendedHalfmoveCounts(v: PositionValue, m: Move)
    requires v.halfmoveClock + 1 < Word32
    ensures IntendedHalfmove(v.board, m, v.halfmoveClock) == 0 <==> MovedType(m) == Pawn || IsCapture(m, v.board.pieces)
    ensures !(MovedType(m) == Pawn || IsCapture(m, v.board.pieces)) ==>
      IntendedHalfmove(v.board, m, v.halfmoveClock) == v.halfmoveClock + 1
  {
  }

  /**
   * After a successful make_move the en-passant square is set exactly
   * when a pawn made a normal two-rank move, and it is the square one rank
   * forward of the from-square for the mover's colour.
   */
  lemma EnPassantAfterMove(v: PositionValue, m: Move)
    requires Playable(v.board, m)
    requires MakeMoveOf(v, m).0.Ok?
    ensures var ep := MakeMoveOf(v, m).1.enPassant;
      var p := StatePieceAt(v.board, From(m)).value;
      && (ep.Some? <==> !IsEnPassant(m) && !IsCastling(m) && !IsPromotion(m) && DoublePush(p, From(m), To(m)))
      && (ep.Some? ==> ep.value % 8 == File(From(m)) && ep.value / 8 == (Rank(From(m)) + Forward(p.color)) % 32)
      && (ep.Some? && 0 < Rank(From(m)) < 7 ==> ep.value < 64 && Rank(ep.value) == Rank(From(m)) + Forward(p.color))
  {
  }

  /** A normal move: the mover lands on `to`, `from` empties, every other square is unchanged. */
  lemma NormalMoveBoard(b: BoardState, m: Move, t: Sq)
    requires Playable(b, m)
    requires !IsEnPassant(m) && !IsCastling(m) && !IsPromotion(m)
    ensures StatePieceAt(ExecuteMove(b, m).1, t) ==
      if t == To(m) then StatePieceAt(b, From(m))
      else if t == From(m) then None
      else StatePieceAt(b, t)
  {
    RelocateAt(b, From(m), To(m), StatePieceAt(b, From(m)).value, t);
  }

  /** A promotion: the promoted piece, in the mover's colour, lands on `to`; `from` empties. */
  lemma PromotionBoard(b: BoardState, m: Move, t: Sq)
    requires Playable(b, m)
    requires !IsEnPassant(m) && !IsCastling(m) && IsPromotion(m)
    ensures StatePieceAt(ExecuteMove(b, m).1, t) ==
      if t == To(m) then Some(Piece(StatePieceAt(b, From(m)).value.color, PromotionPiece(m).value))
      else if t == From(m) then None
      else StatePieceAt(b, t)
  {
    var p := StatePieceAt(b, From(m)).value;
    RelocateAt(b, From(m), To(m), Piece(p.color, PromotionPiece(m).value), t);
  }

  /** An en-passant capture: the pawn moves and the square behind `to` empties. */
  lemma EnPassantBoard(b: BoardState, m: Move, t: Sq)
    requires Playable(b, m)
    requires IsEnPassant(m)
    ensures var p := StatePieceAt(b, From(m)).value;
      StatePieceAt(ExecuteMove(b, m).1, t) ==
        if t == EnPassantVictim(p.color, To(m)) then None
        else if t == To(m) then Some(p)
        else if t == From(m) then None
        else StatePieceAt(b, t)
  {
    var p := StatePieceAt(b, From(m)).value;
    var moved := Relocate(b, From(m), To(m), p);
    RelocateAt(b, From(m), To(m), p, t);
    if t != EnPassantVictim(p.color, To(m)) {
      PlaceElsewhere(moved, EnPassantVictim(p.color, To(m)), None, t);
    }
  }

  /** A castling move to g1/c1/g8/c8: the king lands on `to` and the rook jumps to its square beside it. */
  lemma CastlingBoard(b: BoardState, m: Move, t: Sq)
    requires Playable(b, m)
    requires !IsEnPassant(m) && IsCastling(m) && CastlingRook(To(m)).Some?
    ensures var (rookFrom, rookTo) := CastlingRook(To(m)).value;
      var p := StatePieceAt(b, From(m)).value;
      var moved := Relocate(b, From(m), To(m), p);
      StatePieceAt(ExecuteMove(b, m).1, t) ==
        if t == rookTo then StatePieceAt(moved, rookFrom)
        else if t == rookFrom then None
        else if t == To(m) then Some(p)
        else if t == From(m) then None
        else StatePieceAt(b, t)
  {
    var (rookFrom, rookTo) := CastlingRook(To(m)).value;
    var p := StatePieceAt(b, From(m)).value;
    var moved := Relocate(b, From(m), To(m), p);
    RelocateAt(b, From(m), To(m), p, t);
    RelocateAt(moved, rookFrom, rookTo, StatePieceAt(moved, rookFrom).value, t);
  }

  /** A castling move to any other square fails after moving the king, and changes nothing else on the board. */
  lemma FailedCastlingBoard(b: BoardState, m: Move)
    requires Playable(b, m)
    requires !IsEnPassant(m) && IsCastling(m) && CastlingRook(To(m)).None?
    ensures ExecuteMove(b, m).0 == Err(InvalidMove("Invalid castling move"))
    ensures ExecuteMove(b, m).1 == Relocate(b, From(m), To(m), StatePieceAt(b, From(m)).value)
  {
  }

  /** The move step keeps one piece per square. */
  lemma ExecuteKeepsOne(b: BoardState, m: Move)
    requires Playable(b, m)
    requires OnePerSquare(b.pieces)
    ensures OnePerSquare(ExecuteMove(b, m).1.pieces)
  {
    var to := To(m);
    var p := StatePieceAt(b, From(m)).value;
    var moved := Relocate(b, From(m), to, p);
    RelocateKeepsOne(b, From(m), to, p);
    if IsEnPassant(m) {
      PlaceKeepsOne(moved, EnPassantVictim(p.color, to), None);
    } else if IsCastling(m) {
      if CastlingRook(to).Some? {
        var (rookFrom, rookTo) := CastlingRook(to).value;
        RelocateKeepsOne(moved, rookFrom, rookTo, StatePieceAt(moved, rookFrom).value);
      }
    } else if IsPromotion(m) {
      RelocateKeepsOne(b, From(m), to, Piece(p.color, PromotionPiece(m).value));
    }
  }

  // ---------------------------------------------------------------------
  // Attacks and game status
  // ---------------------------------------------------------------------

  /** A pawn of colour `byColor` on `t` attacks `square`: one rank forward for its colour and one file aside. */
  predicate PawnAttacks(byColor: Color, t: Sq, square: Sq)
  {
    Rank(square) == Rank(t) + Forward(byColor) && Abs(File(square) - File(t)) == 1
  }

  /** Two squares whose indices differ by 7 or 9 and that sit on neighbouring files and ranks. */
  lemma DiagonalOffset(s: Sq, t: Sq)
    ensures (s == t + 9 && t % 8 != 7) <==> (Rank(s) == Rank(t) + 1 && File(s) == File(t) + 1)
    ensures (s == t + 7 && t % 8 != 0) <==> (Rank(s) == Rank(t) + 1 && File(s) == File(t) - 1)
  {
  }

  /**
   * The pawn mask of is_square_attacked: `southwest | southeast` of the
   * square for White attackers, `northwest | northeast` for Black ones --
   * exactly the squares from which a pawn of that colour attacks it.
   */
  function PawnAttackers(square: Sq, byColor: Color): (r: Bitboard)
    ensures forall t: Sq :: t in Elems(r) <==> PawnAttacks(byColor, t, square)
  {
    var sq := FromSquare(square);
    var r := match byColor
      case White => Or(Bitboards.SouthWest(sq), Bitboards.SouthEast(sq))
      case Black => Or(Bitboards.NorthWest(sq), Bitboards.NorthEast(sq));
    assert forall t: Sq :: t in Elems(r) <==> PawnAttacks(byColor, t, square) by {
      forall t: Sq ensures t in Elems(r) <==> PawnAttacks(byColor, t, square) {
        DiagonalOffset(square, t);
        DiagonalOffset(t, square);
      }
    }
    r
  }

  /** The pieces of colour `byColor` and type `t` as a square set. */
  function Holding(b: BoardState, byColor: Color, t: PieceType): set<int>
  {
    Elems(Bits(b.pieces, Piece(byColor, t)))
  }

  /**
   * is_square_attacked as written: the pawn mask, then the knight and king
   * targets of `byColor` from the square (which exclude `byColor`'s own pieces),
   * then the diagonal rays against bishops and queens and the orthogonal
   * rays against rooks and queens, each intersected with `byColor`'s pieces.
   */
  function SquareAttackedOf(b: BoardState, square: Sq, byColor: Color): bool
  {
    || Elems(PawnAttackers(square, byColor)) * Holding(b, byColor, Pawn) != {}
    || Elems(GenerateKnightMoves(b, byColor, square)) * Holding(b, byColor, Knight) != {}
    || Elems(GenerateKingMoves(b, byColor, square)) * Holding(b, byColor, King) != {}
    || BishopAttacksOf(square, Elems(b.occupied)) * (Holding(b, byColor, Bishop) + Holding(b, byColor, Queen)) != {}
    || RookAttacksOf(square, Elems(b.occupied)) * (Holding(b, byColor, Rook) + Holding(b, byColor, Queen)) != {}
  }

  /**
   * On a consistent board the knight and king tests can never fire: their
   * targets leave out every square of `byColor`'s colour, and `byColor`'s knights
   * and king stand on such squares.
   */
  lemma KnightKingTestsDead(b: BoardState, square: Sq, byColor: Color)
    requires Consistent(b)
    ensures Elems(GenerateKnightMoves(b, byColor, square)) * Holding(b, byColor, Knight) == {}
    ensures Elems(GenerateKingMoves(b, byColor, square)) * Holding(b, byColor, King) == {}
  {
    forall t: Sq | t in Holding(b, byColor, Knight) ensures t in Elems(ColorBits(b, byColor)) {
      assert t in Elems(Bits(b.pieces, Piece(byColor, Knight)));
    }
    forall t: Sq | t in Holding(b, byColor, King) ensures t in Elems(ColorBits(b, byColor)) {
      assert t in Elems(Bits(b.pieces, Piece(byColor, King)));
    }
  }

  /** A bishop or queen of `byColor` on a square the diagonal rays from `square` reach. */
  predicate DiagonalAttacker(b: BoardState, square: Sq, byColor: Color, t: Sq)
  {
    t in BishopAttacksOf(square, Elems(b.occupied)) && (t in Holding(b, byColor, Bishop) || t in Holding(b, byColor, Queen))
  }

  /** A rook or queen of `byColor` on a square the orthogonal rays from `square` reach. */
  predicate OrthogonalAttacker(b: BoardState, square: Sq, byColor: Color, t: Sq)
  {
    t in RookAttacksOf(square, Elems(b.occupied)) && (t in Holding(b, byColor, Rook) || t in Holding(b, byColor, Queen))
  }

  /**
   * What is_square_attacked reports on a consistent board: a pawn of `byColor`
   * attacking the square, or a slider of `byColor` on one of its rays.
   * Knights and kings never count.
   */
  lemma SquareAttackedMeaning(b: BoardState, square: Sq, byColor: Color)
    requires Consistent(b)
    ensures SquareAttackedOf(b, square, byColor) <==>
      || (exists t: Sq :: t in Holding(b, byColor, Pawn) && PawnAttacks(byColor, t, square))
      || (exists t: Sq :: DiagonalAttacker(b, square, byColor, t))
      || (exists t: Sq :: OrthogonalAttacker(b, square, byColor, t))
  {
    KnightKingTestsDead(b, square, byColor);
    PawnTermMeaning(b, square, byColor);
    DiagonalTermMeaning(b, square, byColor);
    OrthogonalTermMeaning(b, square, byColor);
  }

  /** The pawn term fires exactly when a pawn of `byColor` attacks the square. */
  lemma PawnTermMeaning(b: BoardState, square: Sq, byColor: Color)
    ensures Elems(PawnAttackers(square, byColor)) * Holding(b, byColor, Pawn) != {} <==>
            exists t: Sq :: t in Holding(b, byColor, Pawn) && PawnAttacks(byColor, t, square)
  {
    var meet := Elems(PawnAttackers(square, byColor)) * Holding(b, byColor, Pawn);
    if meet != {} {
      var t :| t in meet;
      assert t in Holding(b, byColor, Pawn) && PawnAttacks(byColor, t, square);
    }
    if exists t: Sq :: t in Holding(b, byColor, Pawn) && PawnAttacks(byColor, t, square) {
      var t: Sq :| t in Holding(b, byColor, Pawn) && PawnAttacks(byColor, t, square);
      assert t in meet;
    }
  }

  /** The bishop-and-queen term fires exactly when one stands on a diagonal ray from the square. */
  lemma DiagonalTermMeaning(b: BoardState, square: Sq, byColor: Color)
    ensures BishopAttacksOf(square, Elems(b.occupied)) * (Holding(b, byColor, Bishop) + Holding(b, byColor, Queen)) != {} <==>
            exists t: Sq :: DiagonalAttacker(b, square, byColor, t)
  {
    var meet := BishopAttacksOf(square, Elems(b.occupied)) * (Holding(b, byColor, Bishop) + Holding(b, byColor, Queen));
    if meet != {} {
      var t :| t in meet;
      assert DiagonalAttacker(b, square, byColor, t);
    }
    if exists t: Sq :: DiagonalAttacker(b, square, byColor, t) {
      var t: Sq :| DiagonalAttacker(b, square, byColor, t);
      assert t in meet;
    }
  }

  /** The rook-and-queen term fires exactly when one stands on an orthogonal ray from the square. */
  lemma OrthogonalTermMeaning(b: BoardState, square: Sq, byColor: Color)
    ensures RookAttacksOf(square, Elems(b.occupied)) * (Holding(b, byColor, Rook) + Holding(b, byColor, Queen)) != {} <==>
            exists t: Sq :: OrthogonalAttacker(b, square, byColor, t)
  {
    var meet := RookAttacksOf(square, Elems(b.occupied)) * (Holding(b, byColor, Rook) + Holding(b, byColor, Queen));
    if meet != {} {
      var t :| t in meet;
      assert OrthogonalAttacker(b, square, byColor, t);
    }
    if exists t: Sq :: OrthogonalAttacker(b, square, byColor, t) {
      var t: Sq :| OrthogonalAttacker(b, square, byColor, t);
      assert t in meet;
    }
  }

  /**
   * The attack test with its knight and king terms as evidently intended:
   * the knight and king tables from the square, not masked by `byColor`'s own
   * pieces, against `byColor`'s knights and king.
   */
  function IntendedSquareAttacked(b: BoardState, square: Sq, byColor: Color): bool
  {
    || Elems(PawnAttackers(square, byColor)) * Holding(b, byColor, Pawn) != {}
    || Elems(KnightAttacks(square)) * Holding(b, byColor, Knight) != {}
    || Elems(KingAttacks(square)) * Holding(b, byColor, King) != {}
    || BishopAttacksOf(square, Elems(b.occupied)) * (Holding(b, byColor, Bishop) + Holding(b, byColor, Queen)) != {}
    || RookAttacksOf(square, Elems(b.occupied)) * (Holding(b, byColor, Rook) + Holding(b, byColor, Queen)) != {}
  }

  /** The intended test also reports a knight a jump away and a king a step away. */
  lemma IntendedSquareAttackedMeaning(b: BoardState, square: Sq, byColor: Color)
    requires Consistent(b)
    ensures IntendedSquareAttacked(b, square, byColor) <==>
      || SquareAttackedOf(b, square, byColor)
      || (exists t: Sq :: t in Holding(b, byColor, Knight) && KnightJump(square, t))
      || (exists t: Sq :: t in Holding(b, byColor, King) && KingStep(square, t))
  {
    KnightKingTestsDead(b, square, byColor);
    var knights := Elems(KnightAttacks(square)) * Holding(b, byColor, Knight);
    var kings := Elems(KingAttacks(square)) * Holding(b, byColor, King);
    if knights != {} {
      var t :| t in knights;
      assert t in Holding(b, byColor, Knight) && KnightJump(square, t);
    }
    if exists t: Sq :: t in Holding(b, byColor, Knight) && KnightJump(square, t) {
      var t: Sq :| t in Holding(b, byColor, Knight) && KnightJump(square, t);
      assert t in knights;
    }
    if kings != {} {
      var t :| t in kings;
      assert t in Holding(b, byColor, King) && KingStep(square, t);
    }
    if exists t: Sq :: t in Holding(b, byColor, King) && KingStep(square, t) {
      var t: Sq :| t in Holding(b, byColor, King) && KingStep(square, t);
      assert t in kings;
    }
  }

  /**
   * A knight of `byColor` a jump away from `square`, with no pawn, bishop,
   * rook or queen of `byColor` on the board: is_square_attacked says the
   * square is safe.  A black knight on d3 checking a white king on e1 is
   * one such case.
   */
  lemma KnightCheckMissed(b: BoardState, square: Sq, byColor: Color, knight: Sq)
    requires Consistent(b)
    requires knight in Holding(b, byColor, Knight) && KnightJump(square, knight)
    requires Holding(b, byColor, Pawn) == {} && Holding(b, byColor, Bishop) == {}
    requires Holding(b, byColor, Rook) == {} && Holding(b, byColor, Queen) == {}
    ensures !SquareAttackedOf(b, square, byColor)
  {
    KnightKingTestsDead(b, square, byColor);
    assert Holding(b, byColor, Bishop) + Holding(b, byColor, Queen) == {};
    assert Holding(b, byColor, Rook) + Holding(b, byColor, Queen) == {};
  }

  /** The intended test reports every square a knight of `byColor` can jump to. */
  lemma KnightCheckIntended(b: BoardState, square: Sq, byColor: Color, knight: Sq)
    requires knight in Holding(b, byColor, Knight) && KnightJump(square, knight)
    ensures IntendedSquareAttacked(b, square, byColor)
  {
    assert knight in Elems(KnightAttacks(square)) * Holding(b, byColor, Knight);
  }

  /** e1 and d3 are a knight's jump apart. */
  lemma E1D3KnightJump(e1: Sq, d3: Sq)
    requires e1 == 4 && d3 == 19
    ensures KnightJump(e1, d3)
  {
    assert Rank(e1) == 0 && File(e1) == 4 && Rank(d3) == 2 && File(d3) == 3;
  }

  /** The square of the king of colour `c` (the lowest one, as `lsb` finds it), if there is one. */
  function KingSquare(b: BoardState, c: Color): (r: Option<Sq>)
    ensures r.Some? <==> Holding(b, c, King) != {}
    ensures r.Some? ==> r.value in Holding(b, c, King)
  {
    Lsb(Bits(b.pieces, Piece(c, King)))
  }

  /** in_check: the side to move's king is attacked by the other side; find_king panics without a king. */
  function InCheckOf(v: PositionValue): bool
    requires KingSquare(v.board, v.sideToMove).Some?
  {
    SquareAttackedOf(v.board, KingSquare(v.board, v.sideToMove).value, Opposite(v.sideToMove))
  }

  /** is_game_over: the side to move has no generated move. */
  predicate IsGameOverOf(v: PositionValue)
  {
    |GeneratedMoves(v.board, v.sideToMove)| == 0
  }

  /** is_checkmate: in check with no generated move. */
  predicate IsCheckmateOf(v: PositionValue)
    requires KingSquare(v.board, v.sideToMove).Some?
  {
    InCheckOf(v) && IsGameOverOf(v)
  }

  /** is_stalemate: not in check, with no generated move. */
  predicate IsStalemateOf(v: PositionValue)
    requires KingSquare(v.board, v.sideToMove).Some?
  {
    !InCheckOf(v) && IsGameOverOf(v)
  }

  /** A finished game is exactly one of checkmate and stalemate. */
  lemma GameOverCases(v: PositionValue)
    requires KingSquare(v.board, v.sideToMove).Some?
    ensures IsGameOverOf(v) <==> IsCheckmateOf(v) || IsStalemateOf(v)
    ensures !(IsCheckmateOf(v) && IsStalemateOf(v))
  {
  }
}
