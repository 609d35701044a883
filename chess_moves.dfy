/*
 * make_move as the search uses it on a cloned position, and what the
 * search needs of it on chess: every generated move can be made, and
 * every generated capture takes exactly one piece off the board.
 */
module ChessMoves {
  import opened Wrappers
  import opened Bitboards
  import opened Boards
  import opened Moves
  import opened MoveGen
  import opened Positions

  /**
   * `clone` then make_move, for the search.  make_move panics on a move it
   * cannot play (no piece on the from-square, and the other cases of
   * `Playable`); such a move is an error here.  So is any move on a board
   * whose derived bitboards disagree with its pieces: make_move would play it,
   * but only direct writes to `Board`'s `pub` fields can produce such a board.
   */
  function Apply(v: PositionValue, m: Move): (r: Result<PositionValue>)
    ensures r.Ok? ==> Consistent(v.board) && Playable(v.board, m) && r.value.board == ExecuteMove(v.board, m).1
    ensures r.Ok? ==> r.value == MakeMoveOf(v, m).1
    ensures Consistent(v.board) && Playable(v.board, m) ==> (r.Ok? <==> MakeMoveOf(v, m).0.Ok?)
  {
    if Consistent(v.board) && Playable(v.board, m) then
      var (result, w) := MakeMoveOf(v, m);
      if result.Err? then Err(result.error) else Ok(w)
    else Err(InvalidMove("Move cannot be made"))
  }

  /** The squares of a board, by `piece_at`. */
  function Squares(b: BoardState): (r: seq<Option<Piece>>)
    ensures |r| == 64 && forall t: Sq :: r[t] == StatePieceAt(b, t)
  {
    seq(64, i requires 0 <= i < 64 => StatePieceAt(b, i))
  }

  /** The indices holding a piece. */
  function Filled(cs: seq<Option<Piece>>): set<int>
  {
    set t: int | 0 <= t < |cs| && cs[t].Some?
  }

  /** The occupied squares. */
  function Occupied(b: BoardState): set<int>
  {
    Filled(Squares(b))
  }

  /** The number of pieces on the board: what a capture makes smaller. */
  function PieceCount(v: PositionValue): nat
  {
    |Occupied(v.board)|
  }

  /** Squares that differ only by `p` landing on `to` and `from` emptied. */
  lemma FilledAfterMove(cs: seq<Option<Piece>>, ds: seq<Option<Piece>>, from: nat, to: nat, p: Piece)
    requires |cs| == 64 && |ds| == 64 && from < 64 && to < 64 && from != to
    requires forall t :: 0 <= t < 64 ==> ds[t] == if t == to then Some(p) else if t == from then None else cs[t]
    ensures Filled(ds) == Filled(cs) + {to} - {from}
  {
    assert ds[to] == Some(p) && ds[from] == None;
  }

  /** What `Relocate` leaves on each square, as the list of squares. */
  lemma RelocateSquares(b: BoardState, from: Sq, to: Sq, p: Piece)
    ensures forall t :: 0 <= t < 64 ==>
      Squares(Relocate(b, from, to, p))[t] == if t == to then Some(p) else if t == from then None else Squares(b)[t]
  {
    forall t | 0 <= t < 64
      ensures Squares(Relocate(b, from, to, p))[t] == if t == to then Some(p) else if t == from then None else Squares(b)[t]
    {
      RelocateAt(b, from, to, p, t);
    }
  }

  /** Moving a piece from one square to another empties the from-square and fills the to-square. */
  lemma RelocateOccupied(b: BoardState, from: Sq, to: Sq, p: Piece)
    requires from != to
    ensures Occupied(Relocate(b, from, to, p)) == Occupied(b) + {to} - {from}
  {
    RelocateSquares(b, from, to, p);
    FilledAfterMove(Squares(b), Squares(Relocate(b, from, to, p)), from, to, p);
  }

  /**
   * A generated capture is neither en passant nor castling, lands on an
   * occupied square, and leaves from another one.
   */
  lemma GeneratedCaptureFacts(b: BoardState, c: Color, m: Move)
    requires Consistent(b) && m in GeneratedMoves(b, c) && IsCapture(m, b.pieces)
    ensures !IsEnPassant(m) && !IsCastling(m) && From(m) != To(m)
    ensures StatePieceAt(b, To(m)).Some?
  {
    GeneratedMoveFacts(b, c, m);
    GeneratedMoveDistinct(b, c, m);
    DerivedAgreesWithPieceAt(b.pieces, To(m));
  }

  /** A playable move that is neither en passant nor castling moves one piece from its square to its target. */
  lemma ExecuteRelocates(b: BoardState, m: Move) returns (q: Piece)
    requires Playable(b, m) && !IsEnPassant(m) && !IsCastling(m)
    ensures ExecuteMove(b, m).1 == Relocate(b, From(m), To(m), q)
  {
    var p := StatePieceAt(b, From(m)).value;
    q := if IsPromotion(m) then Piece(p.color, PromotionPiece(m).value) else p;
  }

  /** A square `piece_at` finds a piece on is occupied. */
  lemma OccupiedHas(b: BoardState, s: Sq)
    requires StatePieceAt(b, s).Some?
    ensures s in Occupied(b)
  {
    assert Squares(b)[s].Some?;
  }

  /** A playable move, neither en passant nor castling, onto another occupied square empties its from-square only. */
  lemma PlainCaptureShrinks(b: BoardState, m: Move)
    requires Playable(b, m) && !IsEnPassant(m) && !IsCastling(m) && From(m) != To(m)
    requires StatePieceAt(b, To(m)).Some?
    ensures Occupied(ExecuteMove(b, m).1) == Occupied(b) - {From(m)}
  {
    var q := ExecuteRelocates(b, m);
    RelocateOccupied(b, From(m), To(m), q);
    OccupiedHas(b, To(m));
  }

  /** Taking one member out of a finite set leaves one fewer. */
  lemma OneFewer(a: set<int>, x: int)
    requires x in a
    ensures |a - {x}| == |a| - 1
  {
  }

  /** A generated capture that applies removes exactly one piece from the board. */
  lemma CaptureRemovesOne(v: PositionValue, m: Move)
    requires m in GeneratedMoves(v.board, v.sideToMove) && IsCapture(m, v.board.pieces)
    requires Apply(v, m).Ok?
    ensures Occupied(Apply(v, m).value.board) == Occupied(v.board) - {From(m)}
    ensures PieceCount(Apply(v, m).value) == PieceCount(v) - 1
  {
    GeneratedCaptureFacts(v.board, v.sideToMove, m);
    PlainCaptureShrinks(v.board, m);
    OccupiedHas(v.board, From(m));
    OneFewer(Occupied(v.board), From(m));
  }

  /** With one piece per square, `piece_at` finds the generated move's own piece on its from-square. */
  lemma GeneratedMover(b: BoardState, c: Color, m: Move)
    requires OnePerSquare(b.pieces) && m in GeneratedMoves(b, c)
    ensures StatePieceAt(b, From(m)) == Some(Piece(c, MovedType(m)))
    ensures !IsEnPassant(m) && !IsCastling(m)
  {
    GeneratedMoveFacts(b, c, m);
    PieceAtUnique(b.pieces, From(m), Piece(c, MovedType(m)));
  }

  /**
   * A generated two-rank pawn move starts on the pawn's start rank, so the
   * en-passant square it leaves is on the board.
   */
  lemma GeneratedDoublePush(b: BoardState, c: Color, m: Move)
    requires m in GeneratedMoves(b, c) && DoublePush(Piece(c, MovedType(m)), From(m), To(m))
    ensures Rank(From(m)) == StartRank(c)
    ensures DoublePushTarget(Piece(c, MovedType(m)), From(m), To(m)).value < 64
  {
    GeneratedMoveFacts(b, c, m);
    assert PawnTarget(b, c, From(m), To(m));
  }

  /**
   * Making a generated move never leaves an en-passant square off the
   * board, so the positions the search reaches print FEN text that reads
   * back.
   */
  lemma GeneratedEnPassantOnBoard(v: PositionValue, m: Move)
    requires Consistent(v.board) && OnePerSquare(v.board.pieces)
    requires m in GeneratedMoves(v.board, v.sideToMove)
    ensures Apply(v, m).Ok?
    ensures Apply(v, m).value.enPassant.Some? ==> Apply(v, m).value.enPassant.value < 64
  {
    GeneratedMovesApply(v, m);
    GeneratedMover(v.board, v.sideToMove, m);
    EnPassantAfterMove(v, m);
    var p := Piece(v.sideToMove, MovedType(m));
    if DoublePush(p, From(m), To(m)) {
      GeneratedDoublePush(v.board, v.sideToMove, m);
    }
  }

  /** On a board with one piece per square, every generated move is playable. */
  lemma GeneratedPlayable(b: BoardState, c: Color, m: Move)
    requires OnePerSquare(b.pieces) && m in GeneratedMoves(b, c)
    ensures Playable(b, m) && !IsCastling(m)
  {
    GeneratedMover(b, c, m);
    if IsPromotion(m) {
      GeneratedPromotionPiece(b, c, m);
    }
  }

  /**
   * On a board with one piece per square whose derived bitboards agree,
   * every generated move can be made: the errors `alpha_beta` skips and
   * `search` passes on never arise from a real position.
   */
  lemma GeneratedMovesApply(v: PositionValue, m: Move)
    requires Consistent(v.board) && OnePerSquare(v.board.pieces)
    requires m in GeneratedMoves(v.board, v.sideToMove)
    ensures Apply(v, m).Ok?
  {
    GeneratedPlayable(v.board, v.sideToMove, m);
  }
}
