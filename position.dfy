/*
 * Position of position.rs as an object: a Board updated in place, the
 * game-state fields and the snapshot stack `history`.  Every method is
 * proved to follow the value functions of the Positions and Fen modules.
 */
module Game {
  import opened Wrappers
  import opened Text
  import opened Bitboards
  import opened Boards
  import opened Moves
  import opened Rays
  import opened MoveGen
  import opened Positions
  import opened Fen

  /** A normal move is the relocation of its piece, leaving the double-push target as en-passant square. */
  lemma NormalMoveParts(b: BoardState, m: Move)
    requires Playable(b, m) && !IsEnPassant(m) && !IsCastling(m) && !IsPromotion(m)
    ensures var p := StatePieceAt(b, From(m)).value;
      ExecuteMove(b, m) == (Ok(()), Relocate(b, From(m), To(m), p), DoublePushTarget(p, From(m), To(m)))
  {
  }

  /** The position after the snapshot, the rights update and the execution of a move, before the clocks. */
  function Moved(v: PositionValue, m: Move): PositionValue
    requires Playable(v.board, m)
  {
    var e := ExecuteMove(v.board, m);
    v.(history := v.history + [Snapshot(v)], castlingRights := UpdateRights(v.castlingRights, m, v.board.pieces),
       board := e.1, enPassant := e.2)
  }

  /** make_move on a value is the execution's result with `Moved`, finished unless the execution failed. */
  lemma MakeMoveParts(v: PositionValue, m: Move)
    requires Playable(v.board, m)
    ensures MakeMoveOf(v, m) == if ExecuteMove(v.board, m).0.Err? then (ExecuteMove(v.board, m).0, Moved(v, m))
                                else (Ok(()), FinishMove(Moved(v, m), m))
  {
  }

  /** Position: the board, the side to move, the rights, the clocks and the snapshots. */
  class Position {
    const board: Board
    var sideToMove: Color
    var castlingRights: CastlingRights
    var enPassant: Option<SquareIndex>
    var halfmoveClock: U32
    var fullmoveNumber: U32
    var history: seq<PositionState>

    ghost predicate Valid()
    {
      board.Valid()
    }

    /** The position as a value (what `clone` copies). */
    function Value(): PositionValue
      requires Valid()
      reads this, board, board.pieces
    {
      PositionValue(board.State(), sideToMove, castlingRights, enPassant, halfmoveClock, fullmoveNumber, history)
    }

    /** Position::new: the starting position, White to move, all rights, move 1, no history. */
    constructor New()
      ensures Valid() && fresh(board) && fresh(board.pieces)
      ensures IsStart(board.Pieces()) && Consistent(board.State())
      ensures sideToMove == White && castlingRights == AllRights && enPassant.None?
      ensures halfmoveClock == 0 && fullmoveNumber == 1 && history == []
    {
      sideToMove := White;
      castlingRights := AllRights;
      enPassant := None;
      halfmoveClock := 0;
      fullmoveNumber := 1;
      history := [];
      board := new Board.StartingPosition();
    }

    /** The struct literal that ends from_fen: the parsed fields around an already built board. */
    constructor Of(b: Board, side: Color, rights: CastlingRights, ep: Option<SquareIndex>, halfmove: U32, fullmove: U32)
      requires b.Valid()
      ensures Valid() && board == b
      ensures Value() == PositionValue(b.State(), side, rights, ep, halfmove, fullmove, [])
    {
      board := b;
      sideToMove := side;
      castlingRights := rights;
      enPassant := ep;
      halfmoveClock := halfmove;
      fullmoveNumber := fullmove;
      history := [];
    }

    // -------------------------------------------------------------------
    // make_move and undo_move
    // -------------------------------------------------------------------

    /**
     * make_move: push the snapshot, update the castling rights, clear the
     * en-passant square, execute the move by its kind, then the clocks
     * and the side to move; a failed castling move returns its error
     * with the earlier steps already done.
     */
    method MakeMove(m: Move) returns (r: Result<()>)
      requires Valid() && Playable(board.State(), m)
      modifies this, board, board.pieces
      ensures Valid()
      ensures (r, Value()) == MakeMoveOf(old(Value()), m)
    {
      ghost var v := Value();
      PushSnapshot();
      UpdateCastlingRights(m);
      enPassant := None;
      r := ExecuteByKind(m, v.board);
      MakeMoveParts(v, m);
      if r.Err? {
        return;
      }
      FinishClocks(m);
    }

    /** The first step of make_move: push a copy of the board, the rights, the en-passant square and the halfmove clock. */
    method PushSnapshot()
      requires Valid()
      modifies this
      ensures Valid()
      ensures Value() == old(Value()).(history := old(history) + [Snapshot(old(Value()))])
    {
      history := history + [PositionState(board.State(), castlingRights, enPassant, halfmoveClock)];
    }

    /** `castling_rights.update(mv, &board)`: the rights after the move of whatever stands on its from-square. */
    method UpdateCastlingRights(m: Move)
      requires Valid()
      modifies this
      ensures Valid()
      ensures Value() == old(Value()).(castlingRights := UpdateRights(old(castlingRights), m, board.Pieces()))
    {
      var mover := board.PieceAt(From(m));
      castlingRights := RightsAfter(castlingRights, mover, From(m));
    }

    /**
     * The tail of make_move: the halfmove clock restarts after a pawn move
     * or when the to-square holds a piece (the mover itself, by now), the
     * fullmove number goes up after Black's move, and the side flips.
     */
    method FinishClocks(m: Move)
      requires Valid()
      modifies this
      ensures Valid()
      ensures Value() == FinishMove(old(Value()), m)
    {
      var landed := board.PieceAt(To(m));
      halfmoveClock := if MovedType(m) == Pawn || landed.Some? then 0 else IncU32(halfmoveClock);
      fullmoveNumber := if sideToMove == Black then IncU32(fullmoveNumber) else fullmoveNumber;
      sideToMove := Opposite(sideToMove);
    }

    /** The dispatch of make_move on the kind of move: en passant, castling, promotion, or a normal move. */
    method ExecuteByKind(m: Move, ghost b: BoardState) returns (r: Result<()>)
      requires Valid() && board.State() == b && Playable(b, m) && enPassant.None?
      modifies this, board, board.pieces
      ensures Valid()
      ensures (r, board.State(), enPassant) == ExecuteMove(b, m)
      ensures sideToMove == old(sideToMove) && castlingRights == old(castlingRights) && history == old(history)
      ensures halfmoveClock == old(halfmoveClock) && fullmoveNumber == old(fullmoveNumber)
    {
      if IsEnPassant(m) || IsCastling(m) || IsPromotion(m) {
        r := ExecuteFlagged(m, b);
      } else {
        ExecuteNormal(m, b);
        r := Ok(());
      }
    }

    /** The flagged arms of make_move's dispatch: en passant, castling, promotion. */
    method ExecuteFlagged(m: Move, ghost b: BoardState) returns (r: Result<()>)
      requires Valid() && board.State() == b && Playable(b, m) && enPassant.None?
      requires IsEnPassant(m) || IsCastling(m) || IsPromotion(m)
      modifies board, board.pieces
      ensures Valid()
      ensures (r, board.State(), enPassant) == ExecuteMove(b, m)
    {
      if IsEnPassant(m) {
        r := MakeEnPassantMove(m, b);
      } else if IsCastling(m) {
        r := MakeCastlingMove(m, b);
      } else {
        r := MakePromotionMove(m, b);
      }
    }

    /** The unflagged arm of make_move's dispatch: make_normal_move. */
    method ExecuteNormal(m: Move, ghost b: BoardState)
      requires Valid() && board.State() == b && Playable(b, m) && enPassant.None?
      requires !IsEnPassant(m) && !IsCastling(m) && !IsPromotion(m)
      modifies this, board, board.pieces
      ensures Valid()
      ensures (Ok(()), board.State(), enPassant) == ExecuteMove(b, m)
      ensures sideToMove == old(sideToMove) && castlingRights == old(castlingRights) && history == old(history)
      ensures halfmoveClock == old(halfmoveClock) && fullmoveNumber == old(fullmoveNumber)
    {
      NormalMoveParts(b, m);
      MakeNormalMove(m, b);
    }

    /** make_normal_move: the en-passant square after a two-rank pawn move, then the piece moves. */
    method MakeNormalMove(m: Move, ghost b: BoardState)
      requires Valid() && board.State() == b && StatePieceAt(b, From(m)).Some?
      modifies this, board, board.pieces
      ensures Valid()
      ensures var p := StatePieceAt(b, From(m)).value;
        board.State() == Relocate(b, From(m), To(m), p) &&
        enPassant == if DoublePushTarget(p, From(m), To(m)).Some? then DoublePushTarget(p, From(m), To(m)) else old(enPassant)
      ensures sideToMove == old(sideToMove) && castlingRights == old(castlingRights) && history == old(history)
      ensures halfmoveClock == old(halfmoveClock) && fullmoveNumber == old(fullmoveNumber)
    {
      var from, to := From(m), To(m);
      var piece := board.PieceAt(from);
      var p := piece.value;
      NoteDoublePush(p, from, to);
      assert board.State() == old(board.State());
      board.SetPiece(from, None);
      board.SetPiece(to, Some(p));
    }

    /** The first step of make_normal_move: a pawn moving two ranks leaves the square it skipped. */
    method NoteDoublePush(p: Piece, from: Sq, to: Sq)
      modifies this
      ensures enPassant == if DoublePushTarget(p, from, to).Some? then DoublePushTarget(p, from, to) else old(enPassant)
      ensures sideToMove == old(sideToMove) && castlingRights == old(castlingRights) && history == old(history)
      ensures halfmoveClock == old(halfmoveClock) && fullmoveNumber == old(fullmoveNumber)
    {
      if p.pieceType == Pawn {
        var rankDiff := Abs(Rank(to) - Rank(from));
        if rankDiff == 2 {
          var epRank := if p.color == White then Rank(from) + 1 else (Rank(from) - 1) % 256;
          enPassant := Some((epRank * 8 + File(from)) % 256);
        }
      }
    }

    /** make_en_passant_move: the pawn moves, then the pawn behind its to-square is removed. */
    method MakeEnPassantMove(m: Move, ghost b: BoardState) returns (r: Result<()>)
      requires Valid() && board.State() == b && Playable(b, m) && IsEnPassant(m)
      modifies board, board.pieces
      ensures Valid()
      ensures (r, board.State()) == (ExecuteMove(b, m).0, ExecuteMove(b, m).1)
    {
      var from, to := From(m), To(m);
      var piece := board.PieceAt(from);
      var p := piece.value;
      board.SetPiece(from, None);
      board.SetPiece(to, Some(p));
      board.SetPiece(EnPassantVictim(p.color, to), None);
      r := Ok(());
    }

    /**
     * make_castling_move: the king moves; then, for a king on g1, c1, g8
     * or c8, the rook of that corner moves beside it, and for any other
     * square the error.
     */
    method MakeCastlingMove(m: Move, ghost b: BoardState) returns (r: Result<()>)
      requires Valid() && board.State() == b && Playable(b, m) && !IsEnPassant(m) && IsCastling(m)
      modifies board, board.pieces
      ensures Valid()
      ensures (r, board.State()) == (ExecuteMove(b, m).0, ExecuteMove(b, m).1)
    {
      var from, to := From(m), To(m);
      var piece := board.PieceAt(from);
      var p := piece.value;
      board.SetPiece(from, None);
      board.SetPiece(to, Some(p));
      var corner := CastlingRook(to);
      if corner.None? {
        return Err(InvalidMove("Invalid castling move"));
      }
      var (rookFrom, rookTo) := corner.value;
      var rook := board.PieceAt(rookFrom);
      board.SetPiece(rookFrom, None);
      board.SetPiece(rookTo, Some(rook.value));
      r := Ok(());
    }

    /** make_promotion_move: the pawn leaves, the promotion piece of its colour lands. */
    method MakePromotionMove(m: Move, ghost b: BoardState) returns (r: Result<()>)
      requires Valid() && board.State() == b && Playable(b, m) && !IsEnPassant(m) && !IsCastling(m) && IsPromotion(m)
      modifies board, board.pieces
      ensures Valid()
      ensures (r, board.State()) == (ExecuteMove(b, m).0, ExecuteMove(b, m).1)
    {
      var from, to := From(m), To(m);
      var piece := board.PieceAt(from);
      var promotion := PromotionPiece(m);
      board.SetPiece(from, None);
      board.SetPiece(to, Some(Piece(piece.value.color, promotion.value)));
      r := Ok(());
    }

    /**
     * undo_move: pop the last snapshot and restore the board, the rights,
     * the en-passant square and the halfmove clock; flip the side and
     * step the fullmove number back when Black is to move again.  With no
     * snapshot, the error and no change.
     */
    method UndoMove() returns (r: Result<()>)
      requires Valid()
      modifies this, board, board.pieces
      ensures Valid()
      ensures (r, Value()) == UndoOf(old(Value()))
    {
      if |history| == 0 {
        return Err(InvalidMove("No moves to undo"));
      }
      var state := history[|history| - 1];
      history := history[..|history| - 1];
      board.Assign(state.board);
      castlingRights := state.castlingRights;
      enPassant := state.enPassant;
      halfmoveClock := state.halfmoveClock;
      sideToMove := Opposite(sideToMove);
      if sideToMove == Black {
        fullmoveNumber := DecU32(fullmoveNumber);
      }
      r := Ok(());
    }

    // -------------------------------------------------------------------
    // Queries
    // -------------------------------------------------------------------

    /** generate_moves: the moves of the side to move on the board. */
    method GenerateMoves() returns (moves: seq<Move>)
      requires Valid()
      ensures moves == GeneratedMoves(board.State(), sideToMove)
    {
      moves := MoveGen.GenerateMoves(board.State(), sideToMove);
    }

    /** find_king: the lowest square holding `color`'s king; it panics when there is none. */
    method FindKing(color: Color) returns (s: Sq)
      requires Valid() && KingSquare(board.State(), color).Some?
      ensures s in Holding(board.State(), color, King)
      ensures forall t :: t in Holding(board.State(), color, King) ==> s <= t
    {
      var kingBb := board.PieceBitboard(color, King);
      s := Lsb(kingBb).value;
    }

    /**
     * is_square_attacked: `byColor`'s pawns, knights, king, bishops or queens
     * on diagonals and rooks or queens on lines, tested in that order.
     */
    method IsSquareAttacked(square: Sq, byColor: Color) returns (r: bool)
      requires Valid()
      ensures r == SquareAttackedOf(board.State(), square, byColor)
    {
      ghost var b := board.State();
      var pawnAttacks := PawnAttackers(square, byColor);
      if !IsEmpty(And(pawnAttacks, board.PieceBitboard(byColor, Pawn))) {
        return true;
      }
      var knightAttacks := GenerateKnightMoves(board.State(), byColor, square);
      if !IsEmpty(And(knightAttacks, board.PieceBitboard(byColor, Knight))) {
        return true;
      }
      var kingAttacks := GenerateKingMoves(board.State(), byColor, square);
      if !IsEmpty(And(kingAttacks, board.PieceBitboard(byColor, King))) {
        return true;
      }
      var bishopAttacks := GenerateBishopAttacks(board.State(), square);
      if !IsEmpty(And(bishopAttacks, Or(board.PieceBitboard(byColor, Bishop), board.PieceBitboard(byColor, Queen)))) {
        return true;
      }
      var rookAttacks := GenerateRookAttacks(board.State(), square);
      if !IsEmpty(And(rookAttacks, Or(board.PieceBitboard(byColor, Rook), board.PieceBitboard(byColor, Queen)))) {
        return true;
      }
      return false;
    }

    /** in_check: the king of the side to move is attacked by the other side. */
    method InCheck() returns (r: bool)
      requires Valid() && KingSquare(board.State(), sideToMove).Some?
      ensures r == InCheckOf(Value())
    {
      var kingSquare := FindKing(sideToMove);
      r := IsSquareAttacked(kingSquare, Opposite(sideToMove));
    }

    /** is_game_over: no move is generated for the side to move. */
    method IsGameOver() returns (r: bool)
      requires Valid()
      ensures r == IsGameOverOf(Value())
    {
      var moves := GenerateMoves();
      r := |moves| == 0;
    }

    /** is_checkmate: in check, and no move. */
    method IsCheckmate() returns (r: bool)
      requires Valid() && KingSquare(board.State(), sideToMove).Some?
      ensures r == IsCheckmateOf(Value())
    {
      var check := InCheck();
      if !check {
        return false;
      }
      r := IsGameOver();
    }

    /** is_stalemate: not in check, and no move. */
    method IsStalemate() returns (r: bool)
      requires Valid() && KingSquare(board.State(), sideToMove).Some?
      ensures r == IsStalemateOf(Value())
    {
      var check := InCheck();
      if check {
        return false;
      }
      r := IsGameOver();
    }

    // -------------------------------------------------------------------
    // to_fen
    // -------------------------------------------------------------------

    /** One pass of to_fen's rank loop: the text of rank `rank` appended to `fen`. */
    method AppendRank(fen: string, rank: nat) returns (r: string)
      requires Valid() && rank < 8
      ensures r == fen + RankTexts(board.Pieces())[7 - rank]
    {
      ghost var ps := board.Pieces();
      ghost var row := Rows(ps)[7 - rank];
      r := fen;
      var emptyCount: nat := 0;
      for file := 0 to 8
        invariant r + RowFen(row[file..], emptyCount) == fen + RowFen(row, 0)
      {
        var piece := board.PieceAt(NewSquare(file, rank));
        RowsEntry(ps, rank, file);
        assert row[file..] == [piece] + row[file + 1..];
        r, emptyCount := PrintSquare(r, emptyCount, piece, row[file + 1..]);
      }
      if emptyCount > 0 {
        r := r + NatToString(emptyCount);
      }
    }

    /** to_fen's rank loop: the placement field, rank 8 first, ranks separated by '/'. */
    method Placement() returns (fen: string)
      requires Valid()
      ensures fen == BoardFen(board.Pieces())
    {
      ghost var ps := board.Pieces();
      ghost var texts := RankTexts(ps);
      fen := "";
      for i := 0 to 8
        invariant fen + JoinFrom(texts, i) == BoardFen(ps)
      {
        var rank := 7 - i;
        JoinFromStep(fen, texts, i);
        ghost var next := fen + texts[i] + (if i < 7 then "/" else "");
        ghost var printed := fen + texts[i];
        fen := AppendRank(fen, rank);
        assert fen == printed;
        if rank > 0 {
          fen := fen + "/";
          assert fen == next;
        } else {
          assert next == printed + "";
        }
      }
    }

    /** to_fen: the placement, side, castling, en-passant and clock fields, separated by spaces. */
    method ToFen() returns (fen: string)
      requires Valid()
      ensures fen == FenOf(Value())
    {
      fen := Placement();
      fen := fen + " " + SideFen(sideToMove);
      var castling := CastlingField();
      fen := fen + " " + castling;
      fen := fen + " ";
      if enPassant.Some? {
        fen := fen + SquareToAlgebraic(enPassant.value);
      } else {
        fen := fen + "-";
      }
      fen := fen + " " + NatToString(halfmoveClock);
      fen := fen + " " + NatToString(fullmoveNumber);
      JoinedSix(FenFields(Value()));
    }

    /** to_fen's castling field: K, Q, k and q for the rights held, '-' for none. */
    method CastlingField() returns (castling: string)
      ensures castling == CastlingFen(castlingRights)
    {
      castling := "";
      if castlingRights.whiteKingside {
        castling := castling + "K";
      }
      if castlingRights.whiteQueenside {
        castling := castling + "Q";
      }
      if castlingRights.blackKingside {
        castling := castling + "k";
      }
      if castlingRights.blackQueenside {
        castling := castling + "q";
      }
      if |castling| == 0 {
        castling := "-";
      }
    }
  }

  /**
   * One square of to_fen's rank loop: a piece prints the empty squares
   * counted before it and then its letter; an empty square is counted.
   */
  method PrintSquare(r: string, count: nat, piece: Option<Piece>, ghost rest: seq<Option<Piece>>)
    returns (r': string, count': nat)
    ensures r' + RowFen(rest, count') == r + RowFen([piece] + rest, count)
  {
    RowFenStep(r, [piece] + rest, count);
    assert ([piece] + rest)[1..] == rest;
    if piece.Some? {
      r' := r;
      if count > 0 {
        r' := r' + NatToString(count);
      }
      r' := r' + [PieceToChar(piece.value)];
      count' := 0;
    } else {
      r', count' := r, count + 1;
    }
  }

  lemma RowFenStep(prefix: string, row: seq<Option<Piece>>, count: nat)
    requires |row| > 0
    ensures row[0].Some? ==>
      prefix + RowFen(row, count) == (prefix + EmptyRun(count) + [PieceToChar(row[0].value)]) + RowFen(row[1..], 0)
    ensures row[0].None? ==> prefix + RowFen(row, count) == prefix + RowFen(row[1..], count + 1)
  {
  }

  /** The rank texts from the `i`-th on joined by '/', nothing once all eight are printed. */
  function JoinFrom(texts: seq<string>, i: nat): string
    requires |texts| == 8 && i <= 8
  {
    if i < 8 then JoinRanks(texts[i..]) else ""
  }

  /** Printing the `i`-th rank text, and the '/' after it unless it is the last. */
  lemma JoinFromStep(prefix: string, texts: seq<string>, i: nat)
    requires |texts| == 8 && i < 8
    ensures prefix + JoinFrom(texts, i) == prefix + texts[i] + (if i < 7 then "/" else "") + JoinFrom(texts, i + 1)
  {
    assert texts[i..][1..] == texts[i + 1..];
  }

  /** Six fields joined by spaces, written left to right as to_fen pushes them. */
  lemma JoinedSix(f: seq<string>)
    requires |f| == 6
    ensures Joined(f) == f[0] + " " + f[1] + " " + f[2] + " " + f[3] + " " + f[4] + " " + f[5]
  {
    assert Joined(f[..1]) == f[0];
    JoinedAppend(f[..1], f[1]);
    assert f[..2] == f[..1] + [f[1]];
    JoinedAppend(f[..2], f[2]);
    assert f[..3] == f[..2] + [f[2]];
    JoinedAppend(f[..3], f[3]);
    assert f[..4] == f[..3] + [f[3]];
    JoinedAppend(f[..4], f[4]);
    assert f[..5] == f[..4] + [f[4]];
    JoinedAppend(f[..5], f[5]);
    assert f == f[..5] + [f[5]];
  }

  /** Joining one more field appends a space and the field. */
  lemma {:induction false} JoinedAppend(f: seq<string>, x: string)
    requires |f| >= 1
    ensures Joined(f + [x]) == Joined(f) + " " + x
  {
    assert (f + [x])[0] == f[0];
    if |f| == 1 {
      assert (f + [x])[1..] == [x];
    } else {
      assert (f + [x])[1..] == f[1..] + [x];
      JoinedAppend(f[1..], x);
    }
  }

  // ---------------------------------------------------------------------
  // from_fen, parse_fen_board and parse_fen_castling
  // ---------------------------------------------------------------------

  /** parse_fen_castling: the rights the field grants, or the error of its first bad character. */
  method ParseFenCastling(s: string) returns (r: Result<CastlingRights>)
    ensures r == ParseCastling(s)
  {
    var rights := NoRights;
    if s == "-" {
      return Ok(rights);
    }
    for k := 0 to |s|
      invariant ParseCastlingFrom(rights, s[k..]) == ParseCastlingFrom(NoRights, s)
    {
      assert s[k..][1..] == s[k + 1..];
      match s[k]
      case 'K' => rights := rights.(whiteKingside := true);
      case 'Q' => rights := rights.(whiteQueenside := true);
      case 'k' => rights := rights.(blackKingside := true);
      case 'q' => rights := rights.(blackQueenside := true);
      case _ => return Err(InvalidFen("Invalid castling character"));
    }
    r := Ok(rights);
  }

  /**
   * parse_fen_board: eight '/'-separated ranks placed on a new board, rank 8
   * first; the first malformed rank's error, else the board with its
   * derived bitboards updated.
   */
  method ParseFenBoard(s: string) returns (r: Result<Board>)
    ensures r.Err? ==> ParseBoardOf(s) == Err(r.error)
    ensures r.Ok? ==> r.value.Valid() && fresh(r.value) && fresh(r.value.pieces) && ParseBoardOf(s) == Ok(r.value.State())
  {
    var board := new Board.New();
    ghost var e := board.Pieces();
    assert e == EmptyPieces();
    var ranks := Split(s, '/');
    if |ranks| != 8 {
      return Err(InvalidFen("Invalid number of ranks"));
    }
    for i := 0 to 8
      invariant board.Valid() && fresh(board) && fresh(board.pieces)
      invariant ParseRanksFrom(board.Pieces(), ranks, i) == ParseRanksFrom(e, ranks, 0)
    {
      ghost var before := board.Pieces();
      var err := ParseFenRank(board, ranks[i], 7 - i);
      ParseRankOutcome(before, ranks, i, err, board.Pieces());
      if err.Some? {
        return Err(err.value);
      }
    }
    board.UpdateDerived();
    r := Ok(board);
  }

  /** A rank's parse either fails, failing the whole board, or hands its pieces to the next rank. */
  lemma ParseRankOutcome(qs: PieceBoards, ranks: seq<string>, i: nat, err: Option<Error>, after: PieceBoards)
    requires |ranks| == 8 && i < 8
    requires err.Some? ==> ParseRankFrom(qs, ranks[i], 7 - i, 0) == Err(err.value)
    requires err.None? ==> ParseRankFrom(qs, ranks[i], 7 - i, 0) == Ok(after)
    ensures err.Some? ==> ParseRanksFrom(qs, ranks, i) == Err(err.value)
    ensures err.None? ==> ParseRanksFrom(qs, ranks, i) == ParseRanksFrom(after, ranks, i + 1)
  {
  }

  /** The character loop of parse_fen_board over one rank's text, placing its pieces on `board`. */
  method ParseFenRank(board: Board, text: string, rank: nat) returns (err: Option<Error>)
    requires board.Valid() && rank < 8
    modifies board, board.pieces
    ensures board.Valid()
    ensures err.Some? ==> ParseRankFrom(old(board.Pieces()), text, rank, 0) == Err(err.value)
    ensures err.None? ==> ParseRankFrom(old(board.Pieces()), text, rank, 0) == Ok(board.Pieces())
  {
    ghost var start := board.Pieces();
    var file: nat := 0;
    for k := 0 to |text|
      invariant board.Valid()
      invariant ParseRankFrom(board.Pieces(), text[k..], rank, file) == ParseRankFrom(start, text, rank, 0)
    {
      var ch := text[k];
      assert text[k..][1..] == text[k + 1..];
      if file >= 8 {
        return Some(InvalidFen("Too many files in rank"));
      }
      if IsDigit(ch) {
        file := file + DigitValue(ch);
      } else {
        var piece := PieceFromChar(ch);
        if piece.None? {
          return Some(InvalidFen("Invalid character: " + [ch]));
        }
        board.SetPiece(NewSquare(file, rank), piece);
        file := file + 1;
      }
    }
    if file != 8 {
      return Some(InvalidFen("Not enough files in rank"));
    }
    err := None;
  }

  /**
   * from_fen: at least four whitespace-separated fields; the board, the
   * side, the castling rights and the en-passant square each checked in
   * turn; the counters default to 0 and 1 when absent or unparsable.
   */
  method FromFen(fen: string) returns (r: Result<Position>)
    ensures r.Err? ==> ParseFen(fen) == Err(r.error)
    ensures r.Ok? ==> r.value.Valid() && fresh(r.value) && fresh(r.value.board) && ParseFen(fen) == Ok(r.value.Value())
  {
    var parts := Words(fen);
    if |parts| < 4 {
      return Err(InvalidFen("Not enough parts"));
    }
    var board :- ParseFenBoard(parts[0]);
    var side :- ParseSide(parts[1]);
    var castling :- ParseFenCastling(parts[2]);
    var ep :- ParseEnPassant(parts[3]);
    var position := new Position.Of(board, side, castling, ep, Counter(parts, 4, 0), Counter(parts, 5, 1));
    r := Ok(position);
  }
}
