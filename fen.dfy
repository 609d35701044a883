/*
 * Forsyth-Edwards Notation as position.rs writes and reads it
 * (`Position::to_fen`, `Position::from_fen`, `parse_fen_board`,
 * `parse_fen_castling`), on position values.  The six fields are the
 * placement (rank 8 first, files a to h, digits for runs of empty squares,
 * ranks separated by '/'), the side to move, the castling rights, the
 * en-passant square and the two counters.
 */
module Fen {
  import opened Wrappers
  import opened Text
  import opened Bitboards
  import opened Boards
  import opened Positions

  // ---------------------------------------------------------------------
  // Writing (to_fen)
  // ---------------------------------------------------------------------

  /** What a run of `n` empty squares prints: nothing when there is none, else its count. */
  function EmptyRun(n: nat): (r: string)
    ensures n == 0 ==> r == ""
    ensures 0 < n < 10 ==> r == [DigitChar(n)]
  {
    if n == 0 then "" else NatToString(n)
  }

  /** The squares of one rank, files a to h, as piece_at sees them. */
  function Row(ps: PieceBoards, rank: nat): (r: seq<Option<Piece>>)
    requires rank < 8
    ensures |r| == 8
  {
    seq(8, file requires 0 <= file < 8 => PieceAtOf(ps, NewSquare(file, rank)))
  }

  /**
   * The text of the squares `row` of a rank, with `count` empty squares
   * before them seen and not yet printed.
   */
  function RowFen(row: seq<Option<Piece>>, count: nat): string
    decreases |row|
  {
    if |row| == 0 then EmptyRun(count)
    else if row[0].Some? then EmptyRun(count) + [PieceToChar(row[0].value)] + RowFen(row[1..], 0)
    else RowFen(row[1..], count + 1)
  }

  /** The rows of a board in printing order: rank 8 first. */
  function Rows(ps: PieceBoards): (r: seq<seq<Option<Piece>>>)
    ensures |r| == 8 && forall k :: 0 <= k < 8 ==> |r[k]| == 8
  {
    seq(8, i requires 0 <= i < 8 => Row(ps, 7 - i))
  }

  /** The rank texts in printing order: rank 8 first, rank 1 last. */
  function RankTexts(ps: PieceBoards): (r: seq<string>)
    ensures |r| == 8
  {
    seq(8, i requires 0 <= i < 8 => RowFen(Rows(ps)[i], 0))
  }

  /** Texts joined by '/'. */
  function JoinRanks(texts: seq<string>): string
    requires |texts| >= 1
  {
    if |texts| == 1 then texts[0] else texts[0] + "/" + JoinRanks(texts[1..])
  }

  /** The placement field: each rank followed by '/' except the last printed, rank 1. */
  function BoardFen(ps: PieceBoards): string
  {
    JoinRanks(RankTexts(ps))
  }

  /** The side-to-move field. */
  function SideFen(c: Color): string
  {
    match c
    case White => "w"
    case Black => "b"
  }

  /** One castling letter, printed when its right is held. */
  function Flag(held: bool, letter: char): string
  {
    if held then [letter] else ""
  }

  /** The castling field: the held rights in the order K, Q, k, q, or '-' when none is held. */
  function CastlingFen(cr: CastlingRights): string
  {
    var s := Flag(cr.whiteKingside, 'K') + (Flag(cr.whiteQueenside, 'Q')
      + (Flag(cr.blackKingside, 'k') + Flag(cr.blackQueenside, 'q')));
    if s == "" then "-" else s
  }

  /** The en-passant field: the square's name, or '-'. */
  function EpFen(ep: Option<SquareIndex>): string
  {
    match ep
    case Some(s) => SquareToAlgebraic(s)
    case None => "-"
  }

  /** Fields joined by single spaces. */
  function Joined(fields: seq<string>): string
    requires |fields| >= 1
  {
    if |fields| == 1 then fields[0] else fields[0] + " " + Joined(fields[1..])
  }

  /** The six fields of a position. */
  function FenFields(v: PositionValue): seq<string>
  {
    [BoardFen(v.board.pieces), SideFen(v.sideToMove), CastlingFen(v.castlingRights),
     EpFen(v.enPassant), NatToString(v.halfmoveClock), NatToString(v.fullmoveNumber)]
  }

  /** Position::to_fen. */
  function FenOf(v: PositionValue): string
  {
    Joined(FenFields(v))
  }

  // ---------------------------------------------------------------------
  // Reading (from_fen, parse_fen_board, parse_fen_castling)
  // ---------------------------------------------------------------------

  /**
   * The loop of parse_fen_board over one rank's characters, from file
   * `file` on: a digit skips that many files, a piece letter is placed and
   * moves one file on; a character found at file 8 or beyond, any other
   * character, or a rank that does not end exactly at file 8 is an error.
   */
  function ParseRankFrom(ps: PieceBoards, s: string, rank: nat, file: nat): Result<PieceBoards>
    requires rank < 8
    decreases |s|
  {
    if |s| == 0 then
      if file != 8 then Err(InvalidFen("Not enough files in rank")) else Ok(ps)
    else if file >= 8 then Err(InvalidFen("Too many files in rank"))
    else if IsDigit(s[0]) then ParseRankFrom(ps, s[1..], rank, file + DigitValue(s[0]))
    else match PieceFromChar(s[0])
      case Some(p) => ParseRankFrom(SetPieceOf(ps, NewSquare(file, rank), Some(p)), s[1..], rank, file + 1)
      case None => Err(InvalidFen("Invalid character: " + [s[0]]))
  }

  /** The ranks from the `i`-th piece of the split on, the `i`-th being rank `7 - i`. */
  function ParseRanksFrom(ps: PieceBoards, ranks: seq<string>, i: nat): Result<PieceBoards>
    requires |ranks| == 8 && i <= 8
    decreases 8 - i
  {
    if i == 8 then Ok(ps)
    else
      var qs :- ParseRankFrom(ps, ranks[i], 7 - i, 0);
      ParseRanksFrom(qs, ranks, i + 1)
  }

  /** parse_fen_board: exactly eight '/'-separated ranks onto an empty board, then update_derived. */
  function ParseBoardOf(s: string): Result<BoardState>
  {
    var ranks := Split(s, '/');
    if |ranks| != 8 then Err(InvalidFen("Invalid number of ranks"))
    else
      var ps :- ParseRanksFrom(EmptyPieces(), ranks, 0);
      Ok(Derive(ps))
  }

  /** The right one castling letter grants, or `None` for any other character. */
  function CastlingChar(cr: CastlingRights, c: char): Option<CastlingRights>
  {
    match c
    case 'K' => Some(cr.(whiteKingside := true))
    case 'Q' => Some(cr.(whiteQueenside := true))
    case 'k' => Some(cr.(blackKingside := true))
    case 'q' => Some(cr.(blackQueenside := true))
    case _ => None
  }

  /** The loop of parse_fen_castling over the characters of the field. */
  function ParseCastlingFrom(cr: CastlingRights, s: string): Result<CastlingRights>
    decreases |s|
  {
    if |s| == 0 then Ok(cr)
    else match CastlingChar(cr, s[0])
      case Some(next) => ParseCastlingFrom(next, s[1..])
      case None => Err(InvalidFen("Invalid castling character"))
  }

  /** parse_fen_castling: '-' for no rights, else letters from KQkq in any order. */
  function ParseCastling(s: string): Result<CastlingRights>
  {
    if s == "-" then Ok(NoRights) else ParseCastlingFrom(NoRights, s)
  }

  /** The side-to-move field: "w" or "b". */
  function ParseSide(s: string): Result<Color>
  {
    if s == "w" then Ok(White)
    else if s == "b" then Ok(Black)
    else Err(InvalidFen("Invalid side to move"))
  }

  /** The en-passant field: '-' for none, else a square name. */
  function ParseEnPassant(s: string): Result<Option<Sq>>
  {
    if s == "-" then Ok(None)
    else match SquareFromAlgebraic(s)
      case Some(sq) => Ok(Some(sq))
      case None => Err(InvalidFen("Invalid en passant square"))
  }

  /** An optional counter field: its value when present and parsable, else `default`. */
  function Counter(parts: seq<string>, i: nat, default: U32): (r: U32)
  {
    if i < |parts| && ParseU32(parts[i]).Some? then ParseU32(parts[i]).value else default
  }

  /**
   * Position::from_fen: at least four whitespace-separated fields, each
   * checked in turn; the counters default to 0 and 1; the history is empty.
   */
  function ParseFen(s: string): Result<PositionValue>
  {
    var parts := Words(s);
    if |parts| < 4 then Err(InvalidFen("Not enough parts"))
    else
      var board :- ParseBoardOf(parts[0]);
      var side :- ParseSide(parts[1]);
      var castling :- ParseCastling(parts[2]);
      var ep :- ParseEnPassant(parts[3]);
      Ok(PositionValue(board, side, castling, ep, Counter(parts, 4, 0), Counter(parts, 5, 1), []))
  }

  // ---------------------------------------------------------------------
  // What the writer prints
  // ---------------------------------------------------------------------

  /** A character of the placement field: a digit, a piece letter or the rank separator. */
  predicate PlacementChar(c: char)
  {
    IsDigit(c) || c in PieceLetters || c == '/'
  }

  /** Every character of `s` belongs to the placement field. */
  predicate PlacementText(s: string)
  {
    forall i :: 0 <= i < |s| ==> PlacementChar(s[i])
  }

  /** Placement text joined with placement text is placement text. */
  lemma PlacementConcat(a: string, b: string)
    requires PlacementText(a) && PlacementText(b)
    ensures PlacementText(a + b)
  {
    forall i | 0 <= i < |a + b| ensures PlacementChar((a + b)[i]) {
      if i >= |a| { assert (a + b)[i] == b[i - |a|]; }
    }
  }

  /** A rank's text is digits and piece letters only. */
  lemma {:induction false} RowFenChars(row: seq<Option<Piece>>, count: nat)
    requires count + |row| <= 8
    ensures PlacementText(RowFen(row, count))
    ensures '/' !in RowFen(row, count)
    decreases |row|
  {
    if |row| > 0 {
      if row[0].Some? {
        RowFenChars(row[1..], 0);
        PieceCharRoundTrip(row[0].value, ' ');
        PlacementConcat(EmptyRun(count), [PieceToChar(row[0].value)]);
        PlacementConcat(EmptyRun(count) + [PieceToChar(row[0].value)], RowFen(row[1..], 0));
      } else {
        RowFenChars(row[1..], count + 1);
      }
    }
  }

  /** Rank texts of placement characters without '/' join into placement text that splits back into them. */
  lemma {:induction false} JoinRanksSplit(texts: seq<string>)
    requires |texts| >= 1
    requires forall i :: 0 <= i < |texts| ==> PlacementText(texts[i]) && '/' !in texts[i]
    ensures PlacementText(JoinRanks(texts))
    ensures Split(JoinRanks(texts), '/') == texts
    decreases |texts|
  {
    if |texts| == 1 {
      SplitNone(texts[0], '/');
    } else {
      var rest := texts[1..];
      JoinRanksSplit(rest);
      SplitCons(texts[0], JoinRanks(rest), '/');
      PlacementConcat(texts[0], "/");
      PlacementConcat(texts[0] + "/", JoinRanks(rest));
      assert [texts[0]] + rest == texts;
    }
  }

  /** The placement field is placement text and splits on '/' into the eight rank texts. */
  lemma SplitBoardFen(ps: PieceBoards)
    ensures PlacementText(BoardFen(ps))
    ensures Split(BoardFen(ps), '/') == RankTexts(ps)
  {
    var texts := RankTexts(ps);
    forall i | 0 <= i < 8 ensures PlacementText(texts[i]) && '/' !in texts[i] {
      RowFenChars(Rows(ps)[i], 0);
    }
    JoinRanksSplit(texts);
  }

  // ---------------------------------------------------------------------
  // Reading back what was written
  // ---------------------------------------------------------------------

  /** Placing the pieces `row` of rank `rank`, which end at file h, onto `qs`. */
  function PlaceRow(qs: PieceBoards, row: seq<Option<Piece>>, rank: nat): PieceBoards
    requires |row| <= 8 && rank < 8
    decreases |row|
  {
    if |row| == 0 then qs
    else
      PlaceRow(PlaceSquare(qs, NewSquare(8 - |row|, rank), row[0]), row[1..], rank)
  }

  /** One square of a row: a piece is set there, an empty square leaves the board as it is. */
  function PlaceSquare(qs: PieceBoards, sq: Sq, p: Option<Piece>): PieceBoards
  {
    if p.Some? then SetPieceOf(qs, sq, p) else qs
  }

  /** Placing one square changes that square's bit for a piece it holds and nothing else. */
  lemma PlaceSquareBits(qs: PieceBoards, sq: Sq, p: Option<Piece>, q: Piece, t: Sq)
    ensures Bits(PlaceSquare(qs, sq, p), q)[t] <==>
      if t == sq && p.Some? then p == Some(q) else Bits(qs, q)[t]
  {
    if p.Some? { SetPieceBits(qs, sq, p, q); }
  }

  /** Placing the rows `rows[i..]`, the `i`-th being rank `7 - i`. */
  function PlaceRanks(qs: PieceBoards, rows: seq<seq<Option<Piece>>>, i: nat): PieceBoards
    requires i <= 8 && |rows| == 8 && forall k :: 0 <= k < 8 ==> |rows[k]| == 8
    decreases 8 - i
  {
    if i == 8 then qs else PlaceRanks(PlaceRow(qs, rows[i], 7 - i), rows, i + 1)
  }

  /** A digit at a file below 8 moves the parse that many files on. */
  lemma ParseDigit(qs: PieceBoards, d: char, t: string, rank: nat, file: nat)
    requires rank < 8 && file < 8 && IsDigit(d)
    ensures ParseRankFrom(qs, [d] + t, rank, file) == ParseRankFrom(qs, t, rank, file + DigitValue(d))
  {
    assert ([d] + t)[0] == d && ([d] + t)[1..] == t;
  }

  /** A piece letter at a file below 8 is placed there and moves the parse one file on. */
  lemma ParsePiece(qs: PieceBoards, p: Piece, t: string, rank: nat, file: nat)
    requires rank < 8 && file < 8
    ensures ParseRankFrom(qs, [PieceToChar(p)] + t, rank, file)
      == ParseRankFrom(SetPieceOf(qs, NewSquare(file, rank), Some(p)), t, rank, file + 1)
  {
    var c := PieceToChar(p);
    PieceCharRoundTrip(p, c);
    assert !IsDigit(c);
    assert ([c] + t)[0] == c && ([c] + t)[1..] == t;
  }

  /** At the end of a rank the pending empty squares bring the parse to file 8, where it stops. */
  lemma RowParseEnd(qs: PieceBoards, rank: nat, count: nat)
    requires rank < 8 && count <= 8
    ensures ParseRankFrom(qs, RowFen([], count), rank, 8 - count) == Ok(qs)
  {
    if count > 0 {
      assert RowFen([], count) == [DigitChar(count)] + "";
      ParseDigit(qs, DigitChar(count), "", rank, 8 - count);
    }
  }

  /** A run of empty squares and then a piece letter: the parse skips the run and places the piece. */
  lemma ParseRunThenPiece(qs: PieceBoards, p: Piece, rest: string, rank: nat, file: nat, count: nat)
    requires rank < 8 && file < 8 && 0 < count <= file && count < 10
    ensures ParseRankFrom(qs, [DigitChar(count)] + ([PieceToChar(p)] + rest), rank, file - count)
      == ParseRankFrom(SetPieceOf(qs, NewSquare(file, rank), Some(p)), rest, rank, file + 1)
  {
    ParseDigit(qs, DigitChar(count), [PieceToChar(p)] + rest, rank, file - count);
    ParsePiece(qs, p, rest, rank, file);
  }

  /** A piece after the pending empty squares is placed at its file, and the parse goes on behind it. */
  lemma RowParsePiece(qs: PieceBoards, row: seq<Option<Piece>>, rank: nat, count: nat)
    requires rank < 8 && count + |row| <= 8 && |row| > 0 && row[0].Some?
    ensures ParseRankFrom(qs, RowFen(row, count), rank, 8 - |row| - count) ==
      ParseRankFrom(PlaceSquare(qs, NewSquare(8 - |row|, rank), row[0]), RowFen(row[1..], 0), rank, 8 - |row[1..]| - 0)
  {
    var c := PieceToChar(row[0].value);
    var rest := RowFen(row[1..], 0);
    if count > 0 {
      assert RowFen(row, count) == [DigitChar(count)] + ([c] + rest);
      ParseRunThenPiece(qs, row[0].value, rest, rank, 8 - |row|, count);
    } else {
      assert RowFen(row, count) == [c] + rest;
      ParsePiece(qs, row[0].value, rest, rank, 8 - |row|);
    }
  }

  /**
   * Parsing the text of the squares `row`, with `count` empty squares
   * pending before them, places exactly their pieces.
   */
  lemma {:induction false} RowParse(qs: PieceBoards, row: seq<Option<Piece>>, rank: nat, count: nat)
    requires rank < 8 && count + |row| <= 8
    ensures ParseRankFrom(qs, RowFen(row, count), rank, 8 - |row| - count) == Ok(PlaceRow(qs, row, rank))
    decreases |row|
  {
    if |row| == 0 {
      RowParseEnd(qs, rank, count);
    } else if row[0].Some? {
      var next := PlaceSquare(qs, NewSquare(8 - |row|, rank), row[0]);
      RowParsePiece(qs, row, rank, count);
      RowParse(next, row[1..], rank, 0);
    } else {
      RowParse(qs, row[1..], rank, count + 1);
      assert RowFen(row, count) == RowFen(row[1..], count + 1);
      assert PlaceRow(qs, row, rank) == PlaceRow(qs, row[1..], rank);
    }
  }

  /** A rank that parses hands its board on to the next rank. */
  lemma ParseRanksStep(qs: PieceBoards, ranks: seq<string>, i: nat, mid: PieceBoards)
    requires |ranks| == 8 && i < 8
    requires ParseRankFrom(qs, ranks[i], 7 - i, 0) == Ok(mid)
    ensures ParseRanksFrom(qs, ranks, i) == ParseRanksFrom(mid, ranks, i + 1)
  {
  }

  /** Placing row `i` is the first step of placing the rows from the `i`-th on. */
  lemma PlaceRanksStep(qs: PieceBoards, rows: seq<seq<Option<Piece>>>, i: nat)
    requires i < 8 && |rows| == 8 && forall k :: 0 <= k < 8 ==> |rows[k]| == 8
    ensures PlaceRanks(qs, rows, i) == PlaceRanks(PlaceRow(qs, rows[i], 7 - i), rows, i + 1)
  {
  }

  /** Parsing rank texts from the `i`-th on places the rows they print, ranks `7 - i` down to the first. */
  lemma {:induction false} RanksParse(qs: PieceBoards, texts: seq<string>, rows: seq<seq<Option<Piece>>>, i: nat)
    requires i <= 8 && |texts| == 8 && |rows| == 8 && forall k :: 0 <= k < 8 ==> |rows[k]| == 8
    requires forall k :: 0 <= k < 8 ==> texts[k] == RowFen(rows[k], 0)
    ensures ParseRanksFrom(qs, texts, i) == Ok(PlaceRanks(qs, rows, i))
    decreases 8 - i
  {
    if i < 8 {
      var mid := PlaceRow(qs, rows[i], 7 - i);
      RowParse(qs, rows[i], 7 - i, 0);
      ParseRanksStep(qs, texts, i, mid);
      PlaceRanksStep(qs, rows, i);
      RanksParse(mid, texts, rows, i + 1);
    }
  }

  /** The rank texts are the texts of the rows. */
  lemma RankTextsRows(ps: PieceBoards)
    ensures forall k :: 0 <= k < 8 ==> RankTexts(ps)[k] == RowFen(Rows(ps)[k], 0)
  {
  }

  /**
   * Whether square `t` holds piece `q` once the squares `row`, which end
   * at file h of rank `rank`, are placed: a piece of the row lands on its
   * square, and a square the row leaves empty or does not cover keeps
   * what it held before, `before`.
   */
  predicate RowHolds(row: seq<Option<Piece>>, rank: nat, q: Piece, t: Sq, before: bool)
    requires |row| <= 8
  {
    if Rank(t) == rank && File(t) >= 8 - |row| && row[File(t) - (8 - |row|)].Some?
    then row[File(t) - (8 - |row|)] == Some(q)
    else before
  }

  /** One square placed in front of the rest of the row. */
  lemma RowHoldsStep(row: seq<Option<Piece>>, rank: nat, q: Piece, t: Sq, placed: bool, next: bool, before: bool)
    requires 0 < |row| <= 8 && rank < 8
    requires placed == RowHolds(row[1..], rank, q, t, next)
    requires next <==> if t == NewSquare(8 - |row|, rank) && row[0].Some? then row[0] == Some(q) else before
    ensures placed == RowHolds(row, rank, q, t, before)
  {
    var file := 8 - |row|;
    SquareCoordinates(file, rank, t);
    if Rank(t) == rank && File(t) > file {
      assert row[1..][File(t) - (file + 1)] == row[File(t) - file];
    }
  }

  /**
   * What placing the squares `row`, which end at file h of rank `rank`,
   * does to each piece bitboard: the row's pieces land, nothing else moves.
   */
  lemma {:induction false} PlaceRowBits(qs: PieceBoards, row: seq<Option<Piece>>, rank: nat, q: Piece, t: Sq)
    requires |row| <= 8 && rank < 8
    ensures Bits(PlaceRow(qs, row, rank), q)[t] == RowHolds(row, rank, q, t, Bits(qs, q)[t])
    decreases |row|
  {
    if |row| > 0 {
      var sq := NewSquare(8 - |row|, rank);
      var next := PlaceSquare(qs, sq, row[0]);
      PlaceRowBits(next, row[1..], rank, q, t);
      PlaceSquareBits(qs, sq, row[0], q, t);
      RowHoldsStep(row, rank, q, t, Bits(PlaceRow(qs, row, rank), q)[t], Bits(next, q)[t], Bits(qs, q)[t]);
    }
  }

  /** The square of rank `rank` and file `File(t)` holds what `t` holds when `t` is on that rank. */
  lemma RowAt(ps: PieceBoards, rank: nat, t: Sq)
    requires rank < 8 && Rank(t) == rank
    ensures Row(ps, rank)[File(t)] == PieceAtOf(ps, t)
  {
    SquareCoordinates(File(t), rank, t);
  }

  /** The entry of `Rows` for a square is what the board holds there. */
  lemma RowsAt(ps: PieceBoards, t: Sq)
    ensures Rows(ps)[7 - Rank(t)][File(t)] == PieceAtOf(ps, t)
  {
    assert Rows(ps)[7 - Rank(t)] == Row(ps, Rank(t));
    RowAt(ps, Rank(t), t);
  }

  /** The entry of `Rows` for file `file` of rank `rank` is what the board holds there. */
  lemma RowsEntry(ps: PieceBoards, rank: nat, file: nat)
    requires rank < 8 && file < 8
    ensures Rows(ps)[7 - rank][file] == PieceAtOf(ps, NewSquare(file, rank))
  {
    SquareCoordinates(file, rank, NewSquare(file, rank));
    RowsAt(ps, NewSquare(file, rank));
  }

  /** What placing a whole row does to each piece bitboard. */
  lemma PlaceFullRowBits(qs: PieceBoards, row: seq<Option<Piece>>, rank: nat, q: Piece, t: Sq)
    requires rank < 8 && |row| == 8
    ensures Bits(PlaceRow(qs, row, rank), q)[t] <==>
      if Rank(t) == rank && row[File(t)].Some? then row[File(t)].value == q else Bits(qs, q)[t]
  {
    PlaceRowBits(qs, row, rank, q, t);
  }

  /** What placing the rows `rows[i..]` does to each piece bitboard. */
  lemma {:induction false} PlaceRanksBits(qs: PieceBoards, rows: seq<seq<Option<Piece>>>, i: nat, q: Piece, t: Sq)
    requires i <= 8 && |rows| == 8 && forall k :: 0 <= k < 8 ==> |rows[k]| == 8
    ensures Bits(PlaceRanks(qs, rows, i), q)[t] <==>
      if Rank(t) + i <= 7 && rows[7 - Rank(t)][File(t)].Some? then rows[7 - Rank(t)][File(t)].value == q
      else Bits(qs, q)[t]
    decreases 8 - i
  {
    if i < 8 {
      PlaceFullRowBits(qs, rows[i], 7 - i, q, t);
      PlaceRanksBits(PlaceRow(qs, rows[i], 7 - i), rows, i + 1, q, t);
    }
  }

  /** From an empty board, placing all eight ranks of a board with one piece per square rebuilds its bitboards. */
  lemma PlaceAllBits(e: PieceBoards, ps: PieceBoards, q: Piece, t: Sq)
    requires forall p: Piece :: Elems(Bits(e, p)) == {}
    requires OnePerSquare(ps)
    ensures t in Elems(Bits(PlaceRanks(e, Rows(ps), 0), q)) <==> t in Elems(Bits(ps, q))
  {
    PlaceRanksBits(e, Rows(ps), 0, q, t);
    RowsAt(ps, t);
    assert t !in Elems(Bits(e, q));
    PieceAtUnique(ps, t, q);
  }

  /** Two piece-board values whose bitboards hold the same squares for every piece are equal. */
  lemma SameBitsEqual(r: PieceBoards, ps: PieceBoards)
    requires forall q: Piece, t: Sq :: t in Elems(Bits(r, q)) <==> t in Elems(Bits(ps, q))
    ensures r == ps
  {
    forall i, j | 0 <= i < 2 && 0 <= j < 6 ensures r[i][j] == ps[i][j] {
      var q := Piece(ColorOf(i), TypeOf(j));
      PieceIndices(q, i, j);
      assert Elems(Bits(r, q)) == Elems(Bits(ps, q));
      Extensionality(Bits(r, q), Bits(ps, q));
    }
    PiecesEqual(r, ps);
  }

  /** From an empty board, placing all eight ranks of a board with one piece per square rebuilds it. */
  lemma PlaceAll(e: PieceBoards, ps: PieceBoards)
    requires forall p: Piece :: Elems(Bits(e, p)) == {}
    requires OnePerSquare(ps)
    ensures PlaceRanks(e, Rows(ps), 0) == ps
  {
    PlaceAllAgree(e, ps);
    SameBitsEqual(PlaceRanks(e, Rows(ps), 0), ps);
  }

  /** Every piece bitboard of the placed board is that of the board the rows were taken from. */
  lemma PlaceAllAgree(e: PieceBoards, ps: PieceBoards)
    requires forall p: Piece :: Elems(Bits(e, p)) == {}
    requires OnePerSquare(ps)
    ensures forall q: Piece, t: Sq :: t in Elems(Bits(PlaceRanks(e, Rows(ps), 0), q)) <==> t in Elems(Bits(ps, q))
  {
    forall q: Piece, t: Sq ensures t in Elems(Bits(PlaceRanks(e, Rows(ps), 0), q)) <==> t in Elems(Bits(ps, q)) {
      PlaceAllBits(e, ps, q, t);
    }
  }

  /** A placement field whose eight ranks parse onto the empty board gives the derived board. */
  lemma ParseBoardOfRanks(s: string, ps: PieceBoards)
    requires |Split(s, '/')| == 8
    requires ParseRanksFrom(EmptyPieces(), Split(s, '/'), 0) == Ok(ps)
    ensures ParseBoardOf(s) == Ok(Derive(ps))
  {
  }

  /**
   * The placement field round-trips: parsing what to_fen prints for a
   * consistent board with one piece per square gives back the same board.
   */
  lemma BoardFenRoundTrip(b: BoardState)
    requires Consistent(b) && OnePerSquare(b.pieces)
    ensures ParseBoardOf(BoardFen(b.pieces)) == Ok(b)
  {
    SplitBoardFen(b.pieces);
    RankTextsRows(b.pieces);
    RanksParse(EmptyPieces(), RankTexts(b.pieces), Rows(b.pieces), 0);
    PlaceAll(EmptyPieces(), b.pieces);
    ParseBoardOfRanks(BoardFen(b.pieces), b.pieces);
  }

  // ---------------------------------------------------------------------
  // The whole record
  // ---------------------------------------------------------------------

  /** Joining whitespace-free words with single spaces and splitting on whitespace gives them back. */
  lemma {:induction false} WordsJoined(fields: seq<string>)
    requires |fields| >= 1
    requires forall i :: 0 <= i < |fields| ==> |fields[i]| > 0 && NoWhitespace(fields[i])
    ensures Words(Joined(fields)) == fields
    decreases |fields|
  {
    if |fields| == 1 {
      WordsSingle(fields[0]);
    } else {
      WordsJoined(fields[1..]);
      WordsCons(fields[0], Joined(fields[1..]));
      assert [fields[0]] + fields[1..] == fields;
    }
  }

  /** Placement text has no whitespace. */
  lemma PlacementNoWhitespace(s: string)
    requires PlacementText(s)
    ensures NoWhitespace(s)
  {
    forall i | 0 <= i < |s| ensures !IsWhitespace(s[i]) {
      assert PlacementChar(s[i]);
    }
  }

  /** The placement field is a word. */
  lemma BoardFenWord(ps: PieceBoards)
    ensures |BoardFen(ps)| > 0 && NoWhitespace(BoardFen(ps))
  {
    var b := BoardFen(ps);
    SplitBoardFen(ps);
    PlacementNoWhitespace(b);
    if |b| == 0 { assert false; }
  }

  /** A digit string has no whitespace. */
  lemma DigitsWord(s: string)
    requires AllDigits(s)
    ensures NoWhitespace(s)
  {
    forall i | 0 <= i < |s| ensures !IsWhitespace(s[i]) { assert IsDigit(s[i]); }
  }

  /** The castling field is a word. */
  lemma CastlingWord(cr: CastlingRights)
    ensures |CastlingFen(cr)| > 0 && NoWhitespace(CastlingFen(cr))
  {
    var k, q := Flag(cr.blackKingside, 'k'), Flag(cr.blackQueenside, 'q');
    var s := Flag(cr.whiteKingside, 'K') + (Flag(cr.whiteQueenside, 'Q') + (k + q));
    assert forall i :: 0 <= i < |s| ==> s[i] in "KQkq";
  }

  /** The en-passant field is a word. */
  lemma EpWord(ep: Option<SquareIndex>)
    ensures |EpFen(ep)| > 0 && NoWhitespace(EpFen(ep))
  {
    if ep.Some? {
      var a := SquareToAlgebraic(ep.value);
      assert EpFen(ep) == [a[0], a[1]];
    }
  }

  /** Every field to_fen prints is a non-empty run of non-whitespace characters. */
  lemma FieldsAreWords(v: PositionValue)
    ensures forall i :: 0 <= i < 6 ==> |FenFields(v)[i]| > 0 && NoWhitespace(FenFields(v)[i])
  {
    BoardFenWord(v.board.pieces);
    CastlingWord(v.castlingRights);
    EpWord(v.enPassant);
    DigitsWord(NatToString(v.halfmoveClock));
    DigitsWord(NatToString(v.fullmoveNumber));
    SixWords(BoardFen(v.board.pieces), SideFen(v.sideToMove), CastlingFen(v.castlingRights),
             EpFen(v.enPassant), NatToString(v.halfmoveClock), NatToString(v.fullmoveNumber));
  }

  /** Six words, each non-empty and free of whitespace, listed. */
  lemma SixWords(a: string, b: string, c: string, d: string, e: string, f: string)
    requires |a| > 0 && NoWhitespace(a) && |b| > 0 && NoWhitespace(b) && |c| > 0 && NoWhitespace(c)
    requires |d| > 0 && NoWhitespace(d) && |e| > 0 && NoWhitespace(e) && |f| > 0 && NoWhitespace(f)
    ensures forall i :: 0 <= i < 6 ==> |[a, b, c, d, e, f][i]| > 0 && NoWhitespace([a, b, c, d, e, f][i])
  {
  }

  /** A castling letter that is printed is read back as the right it stands for. */
  lemma CastlingFlagStep(cr: CastlingRights, held: bool, letter: char, rest: string)
    requires letter in "KQkq"
    ensures ParseCastlingFrom(cr, Flag(held, letter) + rest) ==
      ParseCastlingFrom(if held then CastlingChar(cr, letter).value else cr, rest)
  {
    if held {
      assert ([letter] + rest)[0] == letter && ([letter] + rest)[1..] == rest;
    } else {
      assert Flag(held, letter) + rest == rest;
    }
  }

  /** The castling field round-trips. */
  lemma CastlingRoundTrip(cr: CastlingRights)
    ensures ParseCastling(CastlingFen(cr)) == Ok(cr)
  {
    var k, q := Flag(cr.blackKingside, 'k'), Flag(cr.blackQueenside, 'q');
    var s := Flag(cr.whiteKingside, 'K') + (Flag(cr.whiteQueenside, 'Q') + (k + q));
    if s != "" {
      assert s[0] in "KQkq" by {
        if cr.whiteKingside { assert s[0] == 'K'; }
        else if cr.whiteQueenside { assert s[0] == 'Q'; }
        else if cr.blackKingside { assert s[0] == 'k'; }
        else { assert s[0] == 'q'; }
      }
      var r1 := if cr.whiteKingside then NoRights.(whiteKingside := true) else NoRights;
      var r2 := if cr.whiteQueenside then r1.(whiteQueenside := true) else r1;
      var r3 := if cr.blackKingside then r2.(blackKingside := true) else r2;
      var r4 := if cr.blackQueenside then r3.(blackQueenside := true) else r3;
      CastlingFlagStep(NoRights, cr.whiteKingside, 'K', Flag(cr.whiteQueenside, 'Q') + (k + q));
      CastlingFlagStep(r1, cr.whiteQueenside, 'Q', k + q);
      CastlingFlagStep(r2, cr.blackKingside, 'k', q + "");
      CastlingFlagStep(r3, cr.blackQueenside, 'q', "");
      assert k + q == k + (q + "") && q == q + "";
      assert r4 == cr;
    }
  }

  /** The side-to-move field round-trips. */
  lemma SideRoundTrip(c: Color)
    ensures ParseSide(SideFen(c)) == Ok(c)
  {
    if c == Black {
      assert SideFen(c) != "w" by { assert SideFen(c)[0] == 'b'; }
    }
  }

  /** An en-passant square that is absent or on the board. */
  predicate EpOnBoard(ep: Option<SquareIndex>)
  {
    ep.Some? ==> ep.value < 64
  }

  /** The en-passant field of a square on the board round-trips. */
  lemma EpRoundTrip(ep: Option<SquareIndex>)
    requires EpOnBoard(ep)
    ensures ParseEnPassant(EpFen(ep)) == Ok(ep)
  {
    if ep.Some? {
      SquareAlgebraicRoundTrip(ep.value);
      assert |EpFen(ep)| == 2;
    }
  }

  /**
   * An en-passant index off the board prints with a rank character past
   * '8', which from_fen refuses as "Invalid en passant square".
   */
  lemma EpOffBoardRefused(ep: Option<SquareIndex>)
    requires !EpOnBoard(ep)
    ensures ParseEnPassant(EpFen(ep)) == Err(InvalidFen("Invalid en passant square"))
  {
    var a := SquareToAlgebraic(ep.value);
    Utf8LenAscii(a);
    assert ByteOffset(a[1], '1') == ep.value / 8;
    assert a != "-";
  }

  /** When the text splits into the printed fields and each field reads back, the text reads back. */
  lemma ParseFenFields(s: string, v: PositionValue)
    requires Words(s) == FenFields(v)
    requires ParseBoardOf(BoardFen(v.board.pieces)) == Ok(v.board) && ParseSide(SideFen(v.sideToMove)) == Ok(v.sideToMove)
    requires ParseCastling(CastlingFen(v.castlingRights)) == Ok(v.castlingRights) && ParseEnPassant(EpFen(v.enPassant)) == Ok(v.enPassant)
    requires ParseU32(NatToString(v.halfmoveClock)) == Some(v.halfmoveClock)
    requires ParseU32(NatToString(v.fullmoveNumber)) == Some(v.fullmoveNumber)
    ensures ParseFen(s) == Ok(v.(history := []))
  {
    assert Counter(Words(s), 4, 0) == v.halfmoveClock;
    assert Counter(Words(s), 5, 1) == v.fullmoveNumber;
  }

  /**
   * from_fen(to_fen(p)) reproduces a position whose board is consistent and
   * has one piece per square: placement, side to move, castling rights,
   * en-passant square and both counters, with an empty history.
   */
  lemma FenRoundTrip(v: PositionValue)
    requires Consistent(v.board) && OnePerSquare(v.board.pieces) && EpOnBoard(v.enPassant)
    ensures ParseFen(FenOf(v)) == Ok(v.(history := []))
  {
    FenWords(v);
    BoardFenRoundTrip(v.board);
    CastlingRoundTrip(v.castlingRights);
    EpRoundTrip(v.enPassant);
    ParseU32RoundTrip(v.halfmoveClock);
    ParseU32RoundTrip(v.fullmoveNumber);
    SideRoundTrip(v.sideToMove);
    ParseFenFields(FenOf(v), v);
  }

  /**
   * A position whose en-passant index is off the board (which make_move
   * leaves after a White pawn moves two ranks from rank 8) prints a FEN
   * text that from_fen refuses.
   */
  lemma FenRefusesOffBoardEp(v: PositionValue)
    requires !EpOnBoard(v.enPassant)
    ensures ParseFen(FenOf(v)).Err?
  {
    var text := FenOf(v);
    FenWords(v);
    EpOffBoardRefused(v.enPassant);
    ParseFenEpRefused(text);
  }

  /** A text whose fourth word is no en-passant field does not parse. */
  lemma ParseFenEpRefused(s: string)
    requires |Words(s)| >= 4 && ParseEnPassant(Words(s)[3]).Err?
    ensures ParseFen(s).Err?
  {
  }

  /** The printed fields are what reading splits the text into. */
  lemma FenWords(v: PositionValue)
    ensures Words(FenOf(v)) == FenFields(v)
  {
    FieldsAreWords(v);
    WordsJoined(FenFields(v));
  }
}
