/**
 * Colours, piece types, pieces, squares and the board
 * (chess-core/src/board.rs).
 *
 * The board keeps one bitboard per colour and piece type in a 2 x 6 array,
 * indexed `[color][piece_type]`, plus four bitboards derived from them:
 * the white pieces, the black pieces, the occupied and the empty squares.
 * The class `Board` updates these in place as the source does; the
 * datatype `BoardState` is its value (the source's `Board` is `Clone`, and
 * positions keep copies of it in their history).
 */
module Boards {
  import opened Wrappers
  import opened Bitboards

  // ---------------------------------------------------------------------
  // Colour
  // ---------------------------------------------------------------------

  datatype Color = White | Black

  /** `color as usize`. */
  function ColorIndex(c: Color): (r: nat)
    ensures r < 2 && (r == 0 <==> c == White)
  {
    match c
    case White => 0
    case Black => 1
  }

  function ColorOf(i: nat): (c: Color)
    requires i < 2
    ensures ColorIndex(c) == i
  {
    if i == 0 then White else Black
  }

  function Opposite(c: Color): (r: Color)
    ensures r != c
  {
    match c
    case White => Black
    case Black => White
  }

  /** The square-index step of a pawn push: +8 for White, -8 for Black. */
  function PawnDirection(c: Color): (r: int)
    ensures r == 8 || r == -8
    ensures r > 0 <==> c == White
  {
    match c
    case White => 8
    case Black => -8
  }

  /** RANK_1 for White, RANK_8 for Black. */
  function BackRank(c: Color): (r: Bitboard)
    ensures forall s: Sq :: r[s] <==> Rank(s) == (if c == White then 0 else 7)
  {
    match c
    case White => Rank1
    case Black => Rank8
  }

  /** RANK_2 for White, RANK_7 for Black. */
  function PawnStartRank(c: Color): (r: Bitboard)
    ensures forall s: Sq :: r[s] <==> Rank(s) == (if c == White then 1 else 6)
  {
    match c
    case White => Rank2
    case Black => Rank7
  }

  /**
   * `opposite` is an involution, the two pawn directions are opposite, and
   * a colour's pawn start rank is its back rank moved one pawn step.
   */
  lemma ColorFacts(c: Color)
    ensures Opposite(Opposite(c)) == c
    ensures PawnDirection(Opposite(c)) == -PawnDirection(c)
    ensures forall s: Sq :: s in Elems(PawnStartRank(c)) <==>
      0 <= s - PawnDirection(c) < 64 && s - PawnDirection(c) in Elems(BackRank(c))
    ensures Elems(BackRank(c)) * Elems(BackRank(Opposite(c))) == {}
  {
  }

  // ---------------------------------------------------------------------
  // Piece types and pieces
  // ---------------------------------------------------------------------

  datatype PieceType = Pawn | Knight | Bishop | Rook | Queen | King

  /** `piece_type as usize`: the declaration order, Pawn = 0 ... King = 5. */
  function TypeIndex(t: PieceType): (r: nat)
    ensures r < 6
  {
    match t
    case Pawn => 0
    case Knight => 1
    case Bishop => 2
    case Rook => 3
    case Queen => 4
    case King => 5
  }

  function TypeOf(i: nat): (t: PieceType)
    requires i < 6
    ensures TypeIndex(t) == i
  {
    if i == 0 then Pawn
    else if i == 1 then Knight
    else if i == 2 then Bishop
    else if i == 3 then Rook
    else if i == 4 then Queen
    else King
  }

  lemma TypeIndexInjective(t: PieceType, u: PieceType)
    ensures TypeIndex(t) == TypeIndex(u) ==> t == u
    ensures TypeOf(TypeIndex(t)) == t
  {
  }

  /** PieceType::from_char: the letter in either case. */
  function TypeFromChar(ch: char): (r: Option<PieceType>)
    ensures r.Some? ==> TypeToChar(r.value, if IsUppercase(ch) then White else Black) == ch
  {
    match ch
    case 'P' => Some(Pawn)
    case 'p' => Some(Pawn)
    case 'N' => Some(Knight)
    case 'n' => Some(Knight)
    case 'B' => Some(Bishop)
    case 'b' => Some(Bishop)
    case 'R' => Some(Rook)
    case 'r' => Some(Rook)
    case 'Q' => Some(Queen)
    case 'q' => Some(Queen)
    case 'K' => Some(King)
    case 'k' => Some(King)
    case _ => None
  }

  /** PieceType::to_char: the lower-case letter, upper-cased for White. */
  function TypeToChar(t: PieceType, c: Color): (r: char)
    ensures IsUppercase(r) <==> c == White
  {
    var ch := match t
      case Pawn => 'p'
      case Knight => 'n'
      case Bishop => 'b'
      case Rook => 'r'
      case Queen => 'q'
      case King => 'k';
    match c
    case White => ToAsciiUppercase(ch)
    case Black => ch
  }

  function ToAsciiUppercase(ch: char): char
  {
    if 'a' <= ch <= 'z' then (ch as int - 32) as char else ch
  }

  /** char::is_uppercase; only ASCII letters reach a piece, so only they matter. */
  predicate IsUppercase(ch: char)
  {
    'A' <= ch <= 'Z'
  }

  datatype Piece = Piece(color: Color, pieceType: PieceType)

  /** Piece::from_char: the colour from the letter's case, the type from the letter. */
  function PieceFromChar(ch: char): (r: Option<Piece>)
    ensures r.Some? ==> TypeToChar(r.value.pieceType, r.value.color) == ch
  {
    var color := if IsUppercase(ch) then White else Black;
    match TypeFromChar(ch)
    case Some(t) => Some(Piece(color, t))
    case None => None
  }

  function PieceToChar(p: Piece): (r: char)
    ensures PieceFromChar(r).Some? && PieceFromChar(r).value == p
  {
    TypeToChar(p.pieceType, p.color)
  }

  /** The twelve piece letters. */
  const PieceLetters: seq<char> := "PNBRQKpnbrqk"

  /**
   * The piece-letter codec is a bijection between the twelve pieces and the
   * twelve letters: decoding an encoded piece gives it back, decoding
   * succeeds exactly on the letters, and what it decodes encodes back.
   */
  lemma PieceCharRoundTrip(p: Piece, ch: char)
    ensures PieceFromChar(PieceToChar(p)) == Some(p)
    ensures PieceToChar(p) in PieceLetters
    ensures PieceFromChar(ch).Some? <==> ch in PieceLetters
    ensures PieceFromChar(ch).Some? ==> PieceToChar(PieceFromChar(ch).value) == ch
  {
  }

  // ---------------------------------------------------------------------
  // Squares
  // ---------------------------------------------------------------------

  /**
   * The `u8` a `Square` wraps.  Every square the board uses is below 64
   * (`Sq`), but `Square::new` can produce any byte.
   */
  type SquareIndex = x: int | 0 <= x < 256

  /** Square::new: `rank * 8 + file`. */
  function NewSquare(file: nat, rank: nat): (s: Sq)
    requires file < 8 && rank < 8
    ensures s % 8 == file && s / 8 == rank
  {
    rank * 8 + file
  }

  /** Square::file: `index & 7`. */
  function File(s: Sq): (f: nat)
    ensures f < 8
  {
    s % 8
  }

  /** Square::rank: `index >> 3`. */
  function Rank(s: Sq): (r: nat)
    ensures r < 8
  {
    s / 8
  }

  /** A square is determined by its file and rank, and gives them back. */
  lemma SquareCoordinates(file: nat, rank: nat, s: Sq)
    requires file < 8 && rank < 8
    ensures File(NewSquare(file, rank)) == file && Rank(NewSquare(file, rank)) == rank
    ensures NewSquare(File(s), Rank(s)) == s
  {
  }

  /** The length in bytes of the UTF-8 encoding of a string (`str::len`). */
  function Utf8Len(s: string): (n: nat)
    ensures n >= |s|
  {
    if |s| == 0 then 0
    else
      var c := s[0] as int;
      (if c < 0x80 then 1 else if c < 0x800 then 2 else if c < 0x10000 then 3 else 4)
        + Utf8Len(s[1..])
  }

  /** `(c as u8).saturating_sub(base)`: the cast keeps the low byte. */
  function ByteOffset(c: char, base: char): (r: nat)
    ensures r < 256
  {
    var b := c as int % 256;
    if b >= base as int then b - base as int else 0
  }

  /**
   * Square::from_algebraic: two bytes, file letter then rank digit; bytes
   * below 'a' or '1' saturate to file or rank 0.
   */
  function SquareFromAlgebraic(s: string): (r: Option<Sq>)
    ensures r.Some? ==> |s| == 2
  {
    if Utf8Len(s) != 2 || |s| < 2 then None
    else
      var file := ByteOffset(s[0], 'a');
      var rank := ByteOffset(s[1], '1');
      if file < 8 && rank < 8 then Some(NewSquare(file, rank)) else None
  }

  /**
   * Square::to_algebraic: the file letter (`index & 7`) and the rank digit
   * (`index >> 3`).  A square of the board prints as a1..h8; an index of
   * 64 or more prints a rank character past '8'.
   */
  function SquareToAlgebraic(s: SquareIndex): (r: string)
    ensures |r| == 2 && 'a' <= r[0] <= 'h' && r[1] as int == '1' as int + s / 8
    ensures s < 64 ==> '1' <= r[1] <= '8'
    ensures forall i :: 0 <= i < 2 ==> r[i] as int < 0x80
  {
    [('a' as int + s % 8) as char, ('1' as int + s / 8) as char]
  }

  /** A string of ASCII characters is one byte per character. */
  lemma {:induction false} Utf8LenAscii(s: string)
    requires forall i :: 0 <= i < |s| ==> s[i] as int < 0x80
    ensures Utf8Len(s) == |s|
  {
    if |s| > 0 {
      Utf8LenAscii(s[1..]);
    }
  }

  /** Two characters taking two bytes are both ASCII. */
  lemma TwoBytes(s: string)
    requires |s| == 2 && Utf8Len(s) == 2
    ensures s[0] as int < 0x80 && s[1] as int < 0x80
  {
    assert Utf8Len(s) >= Utf8Len(s[1..]) >= |s[1..]|;
    assert s[1..][1..] == [];
  }

  /** Every square survives printing and parsing back. */
  lemma SquareAlgebraicRoundTrip(s: Sq)
    ensures SquareFromAlgebraic(SquareToAlgebraic(s)) == Some(s)
  {
    var a := SquareToAlgebraic(s);
    Utf8LenAscii(a);
    assert ByteOffset(a[0], 'a') == File(s);
    assert ByteOffset(a[1], '1') == Rank(s);
  }

  /** A string that parses without saturating is the printed form of its square. */
  lemma SquareAlgebraicCanonical(str: string)
    requires SquareFromAlgebraic(str).Some?
    requires 'a' <= str[0] && '1' <= str[1]
    ensures SquareToAlgebraic(SquareFromAlgebraic(str).value) == str
  {
    TwoBytes(str);
    var file, rank := str[0] as int - 'a' as int, str[1] as int - '1' as int;
    assert ByteOffset(str[0], 'a') == file && ByteOffset(str[1], '1') == rank;
    var sq := SquareFromAlgebraic(str).value;
    assert sq == NewSquare(file, rank);
    SquareCoordinates(file, rank, sq);
    var t := SquareToAlgebraic(sq);
    assert t[0] == str[0] && t[1] == str[1];
  }

  /** The squares the source's tests parse and print. */
  lemma SquareAlgebraicExamples()
    ensures SquareFromAlgebraic("a1") == Some(NewSquare(0, 0))
    ensures SquareFromAlgebraic("e4") == Some(NewSquare(4, 3))
    ensures SquareFromAlgebraic("h8") == Some(NewSquare(7, 7))
    ensures SquareToAlgebraic(NewSquare(4, 3)) == "e4"
  {
    SquareAlgebraicRoundTrip(NewSquare(0, 0));
    SquareAlgebraicRoundTrip(NewSquare(4, 3));
    SquareAlgebraicRoundTrip(NewSquare(7, 7));
  }

  /** Strings the codec rejects: a file past 'h', a rank past '8', the wrong length. */
  lemma SquareAlgebraicRejects()
    ensures SquareFromAlgebraic("i9").None?
    ensures SquareFromAlgebraic("e").None?
    ensures SquareFromAlgebraic("e44").None?
  {
    Utf8LenAscii("i9");
  }

  /** A byte below 'a' saturates to file a instead of being rejected. */
  lemma SquareAlgebraicSaturates()
    ensures SquareFromAlgebraic("A1") == Some(NewSquare(0, 0))
  {
    Utf8LenAscii("A1");
  }

  // ---------------------------------------------------------------------
  // Board values
  // ---------------------------------------------------------------------

  /** `[[Bitboard; 6]; 2]`, indexed `[color][piece_type]`. */
  type PieceBoards = ps: seq<seq<Bitboard>> | |ps| == 2 && |ps[0]| == 6 && |ps[1]| == 6
    witness [[Empty, Empty, Empty, Empty, Empty, Empty], [Empty, Empty, Empty, Empty, Empty, Empty]]

  /** The bitboard of one kind of piece. */
  function Bits(ps: PieceBoards, p: Piece): Bitboard
  {
    ps[ColorIndex(p.color)][TypeIndex(p.pieceType)]
  }

  /** Every square holds at most one piece. */
  ghost predicate OnePerSquare(ps: PieceBoards)
  {
    forall s: Sq, p: Piece, q: Piece :: s in Elems(Bits(ps, p)) && s in Elems(Bits(ps, q)) ==> p == q
  }

  /** The position of a piece in the order `piece_at` tries them: White Pawn ... King, then Black. */
  function Order(p: Piece): (k: nat)
    ensures k < 12
  {
    6 * ColorIndex(p.color) + TypeIndex(p.pieceType)
  }

  /** The `k`-th piece in that order. */
  function PieceNumber(k: nat): (p: Piece)
    requires k < 12
    ensures Order(p) == k
  {
    Piece(ColorOf(k / 6), TypeOf(k % 6))
  }

  /** Each piece has its own place in the order. */
  lemma OrderInjective(p: Piece, q: Piece)
    ensures Order(p) == Order(q) <==> p == q
  {
    if Order(p) == Order(q) {
      TypeIndexInjective(p.pieceType, q.pieceType);
    }
  }

  /** The `k`-th piece is the only piece whose place is `k`. */
  lemma PieceNumberUnique(k: nat)
    requires k < 12
    ensures forall q: Piece :: Order(q) == k ==> q == PieceNumber(k)
  {
    forall q: Piece | Order(q) == k ensures q == PieceNumber(k) {
      OrderInjective(q, PieceNumber(k));
    }
  }

  /** The first piece, from the `k`-th in search order on, whose bitboard holds `s`. */
  function FirstHolder(ps: PieceBoards, s: Sq, k: nat): (r: Option<Piece>)
    requires k <= 12
    decreases 12 - k
  {
    if k == 12 then None
    else if s in Elems(Bits(ps, PieceNumber(k))) then Some(PieceNumber(k))
    else FirstHolder(ps, s, k + 1)
  }

  /** FirstHolder finds a holder, none before it, and `None` only when no piece from the `k`-th on holds `s`. */
  lemma {:induction false} FirstHolderProps(ps: PieceBoards, s: Sq, k: nat)
    requires k <= 12
    ensures var r := FirstHolder(ps, s, k);
      && (r.Some? ==> k <= Order(r.value) && s in Elems(Bits(ps, r.value)))
      && (r.Some? ==> forall p: Piece :: k <= Order(p) < Order(r.value) ==> s !in Elems(Bits(ps, p)))
      && (r.None? ==> forall p: Piece :: Order(p) >= k ==> s !in Elems(Bits(ps, p)))
    decreases 12 - k
  {
    if k < 12 {
      FirstHolderProps(ps, s, k + 1);
      PieceNumberUnique(k);
    }
  }

  /**
   * piece_at on a board value: the first piece, in search order, whose
   * bitboard holds the square, or `None` when no bitboard holds it.
   */
  function PieceAtOf(ps: PieceBoards, s: Sq): (r: Option<Piece>)
    ensures r.Some? ==> s in Elems(Bits(ps, r.value))
    ensures r.Some? ==> forall p: Piece :: Order(p) < Order(r.value) ==> s !in Elems(Bits(ps, p))
    ensures r.None? <==> forall p: Piece :: s !in Elems(Bits(ps, p))
  {
    FirstHolderProps(ps, s, 0);
    FirstHolder(ps, s, 0)
  }

  /** The search for a holder of `s` moves past the `k`-th piece, which does not hold it. */
  lemma NoHolderStep(ps: PieceBoards, s: Sq, k: nat, p: Piece)
    requires Order(p) == k
    requires forall q: Piece :: Order(q) < k ==> s !in Elems(Bits(ps, q))
    requires s !in Elems(Bits(ps, p))
    ensures forall q: Piece :: Order(q) < k + 1 ==> s !in Elems(Bits(ps, q))
  {
    forall q: Piece | Order(q) == k ensures q == p {
      TypeIndexInjective(q.pieceType, p.pieceType);
    }
  }

  /** A square no bitboard holds is empty. */
  lemma NoHolder(ps: PieceBoards, s: Sq)
    requires forall p: Piece :: s !in Elems(Bits(ps, p))
    ensures PieceAtOf(ps, s) .None?
  {
    if PieceAtOf(ps, s).Some? {
      assert s in Elems(Bits(ps, PieceAtOf(ps, s).value));
    }
  }

  /** A piece sits at array position `[i][j]` exactly when `i` is its colour index and `j` its type index. */
  lemma PieceIndices(p: Piece, i: nat, j: nat)
    requires i < 2 && j < 6
    ensures Piece(ColorOf(i), TypeOf(j)) == p <==> i == ColorIndex(p.color) && j == TypeIndex(p.pieceType)
  {
    TypeIndexInjective(TypeOf(j), p.pieceType);
  }

  /** A piece holding the square with none before it in search order is what `piece_at` finds. */
  lemma FoundFirst(ps: PieceBoards, s: Sq, p: Piece)
    requires s in Elems(Bits(ps, p))
    requires forall q: Piece :: Order(q) < Order(p) ==> s !in Elems(Bits(ps, q))
    ensures PieceAtOf(ps, s) == Some(p)
  {
    var r := PieceAtOf(ps, s);
    assert Order(r.value) == Order(p);
    OrderInjective(r.value, p);
  }

  /** With one piece per square, `piece_at` names exactly the piece whose bitboard holds the square. */
  lemma PieceAtUnique(ps: PieceBoards, s: Sq, p: Piece)
    requires OnePerSquare(ps)
    ensures PieceAtOf(ps, s) == Some(p) <==> s in Elems(Bits(ps, p))
  {
  }

  /** `white |= pieces[color][t]` for `t` below `k`, starting from the empty board. */
  function UnionUpTo(ps: PieceBoards, c: Color, k: nat): (r: Bitboard)
    requires k <= 6
    ensures forall s: Sq :: s in Elems(r) <==> exists t: PieceType :: TypeIndex(t) < k && s in Elems(Bits(ps, Piece(c, t)))
  {
    if k == 0 then Empty
    else
      var r := Or(UnionUpTo(ps, c, k - 1), ps[ColorIndex(c)][k - 1]);
      assert Bits(ps, Piece(c, TypeOf(k - 1))) == ps[ColorIndex(c)][k - 1];
      r
  }

  /** The squares holding a piece of colour `c`. */
  function ColorUnion(ps: PieceBoards, c: Color): (r: Bitboard)
    ensures forall s: Sq :: s in Elems(r) <==> exists t: PieceType :: s in Elems(Bits(ps, Piece(c, t)))
  {
    UnionUpTo(ps, c, 6)
  }

  /** A square is in one of the two colour unions exactly when some piece bitboard holds it. */
  lemma UnionsCover(ps: PieceBoards, s: Sq)
    ensures s in Elems(Or(ColorUnion(ps, White), ColorUnion(ps, Black))) <==> exists p: Piece :: s in Elems(Bits(ps, p))
  {
    if exists p: Piece :: s in Elems(Bits(ps, p)) {
      var p: Piece :| s in Elems(Bits(ps, p));
      assert s in Elems(Bits(ps, Piece(p.color, p.pieceType)));
    }
  }

  /** A board's value: the piece bitboards and the four derived bitboards. */
  datatype BoardState = BoardState(pieces: PieceBoards, occupied: Bitboard, white: Bitboard,
                                   black: Bitboard, empty: Bitboard)

  /** update_derived on a value: white and black are the colour unions, occupied their union, empty its complement. */
  function Derive(ps: PieceBoards): (b: BoardState)
    ensures b.pieces == ps
  {
    var white := ColorUnion(ps, White);
    var black := ColorUnion(ps, Black);
    var occupied := Or(white, black);
    BoardState(ps, occupied, white, black, Not(occupied))
  }

  /** What update_derived computes: occupied holds the squares of every piece, white and black those of each colour, empty the rest. */
  lemma DeriveFacts(ps: PieceBoards)
    ensures var b := Derive(ps);
      && (forall s: Sq :: s in Elems(b.occupied) <==> exists p: Piece :: s in Elems(Bits(ps, p)))
      && Elems(b.empty) == AllSquares() - Elems(b.occupied)
      && Elems(b.occupied) == Elems(b.white) + Elems(b.black)
      && (forall s: Sq :: s in Elems(b.white) <==> exists t: PieceType :: s in Elems(Bits(ps, Piece(White, t))))
      && (forall s: Sq :: s in Elems(b.black) <==> exists t: PieceType :: s in Elems(Bits(ps, Piece(Black, t))))
  {
    var b := Derive(ps);
    forall s: Sq ensures s in Elems(b.occupied) <==> exists p: Piece :: s in Elems(Bits(ps, p)) {
      UnionsCover(ps, s);
    }
  }

  /** A board whose derived bitboards agree with its piece bitboards. */
  predicate Consistent(b: BoardState)
  {
    b == Derive(b.pieces)
  }

  /** `piece_at` on the value of a board. */
  function StatePieceAt(b: BoardState, s: Sq): Option<Piece>
  {
    PieceAtOf(b.pieces, s)
  }

  /** The derived bitboards agree with `piece_at`: a square is occupied iff something stands on it. */
  lemma DerivedAgreesWithPieceAt(ps: PieceBoards, s: Sq)
    ensures s in Elems(Derive(ps).occupied) <==> PieceAtOf(ps, s).Some?
    ensures s in Elems(Derive(ps).empty) <==> PieceAtOf(ps, s).None?
  {
    DeriveFacts(ps);
    if PieceAtOf(ps, s).Some? {
      var p := PieceAtOf(ps, s).value;
      assert s in Elems(Bits(ps, p));
    }
  }

  /** The white bitboard agrees with the colour of the piece `piece_at` finds. */
  lemma DerivedColorAgreesWithPieceAt(ps: PieceBoards, s: Sq)
    requires PieceAtOf(ps, s).Some?
    ensures s in Elems(Derive(ps).white) <==> PieceAtOf(ps, s).value.color == White
  {
    var p := PieceAtOf(ps, s).value;
    if p.color == White {
      assert s in Elems(Bits(ps, Piece(White, p.pieceType)));
    } else {
      BlackNotWhite(ps, s, p);
    }
  }

  /** A square whose first holder is black is on no white bitboard. */
  lemma BlackNotWhite(ps: PieceBoards, s: Sq, p: Piece)
    requires p.color == Black
    requires forall q: Piece :: Order(q) < Order(p) ==> s !in Elems(Bits(ps, q))
    ensures s !in Elems(Derive(ps).white)
  {
    forall t: PieceType ensures s !in Elems(Bits(ps, Piece(White, t))) {
      assert Order(Piece(White, t)) < Order(p);
    }
  }

  /** Board::new's pieces: twelve empty bitboards. */
  function EmptyPieces(): (ps: PieceBoards)
    ensures forall p: Piece :: Elems(Bits(ps, p)) == {}
  {
    EmptyFull();
    [[Empty, Empty, Empty, Empty, Empty, Empty], [Empty, Empty, Empty, Empty, Empty, Empty]]
  }

  /** The six bitboards of one colour with square `s` cleared. */
  function ClearSix(row: seq<Bitboard>, s: Sq): (r: seq<Bitboard>)
    requires |row| == 6
    ensures |r| == 6
  {
    [row[0][s := false], row[1][s := false], row[2][s := false],
     row[3][s := false], row[4][s := false], row[5][s := false]]
  }

  /**
   * set_piece on a value: `s` is cleared from all twelve bitboards, then set
   * on the bitboard of `p` if there is a piece.
   */
  function SetPieceOf(ps: PieceBoards, s: Sq, p: Option<Piece>): (r: PieceBoards)
  {
    var cleared: PieceBoards := [ClearSix(ps[0], s), ClearSix(ps[1], s)];
    match p
    case None => cleared
    case Some(q) =>
      var ci, ti := ColorIndex(q.color), TypeIndex(q.pieceType);
      var row: seq<Bitboard> := cleared[ci][ti := cleared[ci][ti][s := true]];
      cleared[ci := row]
  }

  /** What set_piece does to each piece bitboard. */
  lemma SetPieceBits(ps: PieceBoards, s: Sq, p: Option<Piece>, q: Piece)
    ensures Elems(Bits(SetPieceOf(ps, s, p), q)) ==
      (Elems(Bits(ps, q)) - {s}) + (if p == Some(q) then {s} else {})
  {
    assert Piece(ColorOf(ColorIndex(q.color)), TypeOf(TypeIndex(q.pieceType))) == q by {
      TypeIndexInjective(q.pieceType, TypeOf(TypeIndex(q.pieceType)));
    }
  }

  /** After set_piece(s, p), `piece_at(s)` is `p`. */
  lemma SetPieceHere(ps: PieceBoards, s: Sq, p: Option<Piece>)
    ensures PieceAtOf(SetPieceOf(ps, s, p), s) == p
  {
    var r := SetPieceOf(ps, s, p);
    forall q: Piece ensures s in Elems(Bits(r, q)) <==> p == Some(q) {
      SetPieceBits(ps, s, p, q);
    }
  }

  /** set_piece(s, p) leaves `piece_at` unchanged on every other square. */
  lemma SetPieceElsewhere(ps: PieceBoards, s: Sq, p: Option<Piece>, t: Sq)
    requires t != s
    ensures PieceAtOf(SetPieceOf(ps, s, p), t) == PieceAtOf(ps, t)
  {
    var r := SetPieceOf(ps, s, p);
    forall q: Piece ensures t in Elems(Bits(r, q)) <==> t in Elems(Bits(ps, q)) {
      SetPieceBits(ps, s, p, q);
    }
    SameHolders(ps, r, t, 0);
  }

  /** set_piece preserves one piece per square. */
  lemma SetPiecePreserves(ps: PieceBoards, s: Sq, p: Option<Piece>)
    requires OnePerSquare(ps)
    ensures OnePerSquare(SetPieceOf(ps, s, p))
  {
    var r := SetPieceOf(ps, s, p);
    forall u: Sq, a: Piece, b: Piece | u in Elems(Bits(r, a)) && u in Elems(Bits(r, b))
      ensures a == b
    {
      SetPieceBits(ps, s, p, a);
      SetPieceBits(ps, s, p, b);
    }
  }

  /** Boards that agree on a square agree on who stands there. */
  lemma {:induction false} SameHolders(a: PieceBoards, b: PieceBoards, s: Sq, k: nat)
    requires k <= 12
    requires forall p: Piece :: s in Elems(Bits(a, p)) <==> s in Elems(Bits(b, p))
    ensures FirstHolder(a, s, k) == FirstHolder(b, s, k)
    decreases 12 - k
  {
    if k < 12 {
      SameHolders(a, b, s, k + 1);
    }
  }

  /** Twelve bitboards that agree entry by entry with what set_piece computes are its result. */
  lemma SetPieceFromEntries(ps: PieceBoards, qs: PieceBoards, s: Sq, p: Option<Piece>)
    requires forall i, j :: 0 <= i < 2 && 0 <= j < 6 ==>
      qs[i][j] == if p.Some? && i == ColorIndex(p.value.color) && j == TypeIndex(p.value.pieceType)
                  then SetSquare(ClearSquare(ps[i][j], s), s) else ClearSquare(ps[i][j], s)
    ensures qs == SetPieceOf(ps, s, p)
  {
    forall i, j | 0 <= i < 2 && 0 <= j < 6
      ensures qs[i][j] == SetPieceOf(ps, s, p)[i][j]
    {
      if p.Some? {
        PieceIndices(p.value, i, j);
      }
    }
    PiecesEqual(qs, SetPieceOf(ps, s, p));
  }

  /** Two piece-board values with the same twelve bitboards are equal. */
  lemma PiecesEqual(a: PieceBoards, b: PieceBoards)
    requires forall i, j :: 0 <= i < 2 && 0 <= j < 6 ==> a[i][j] == b[i][j]
    ensures a == b
  {
    assert a[0] == b[0];
    assert a[1] == b[1];
  }

  /** The value of Board::new: no pieces, nothing occupied, every square empty. */
  lemma EmptyBoardState()
    ensures Derive(EmptyPieces()) == BoardState(EmptyPieces(), Empty, Empty, Empty, Full)
  {
    var d := Derive(EmptyPieces());
    EmptyColors();
    EmptyFull();
    Extensionality(d.occupied, Empty);
    Extensionality(d.empty, Full);
  }

  /** On Board::new's pieces both colour unions are empty. */
  lemma EmptyColors()
    ensures Derive(EmptyPieces()).white == Empty && Derive(EmptyPieces()).black == Empty
  {
    EmptyFull();
    Extensionality(Derive(EmptyPieces()).white, Empty);
    Extensionality(Derive(EmptyPieces()).black, Empty);
  }

  // ---------------------------------------------------------------------
  // The starting position
  // ---------------------------------------------------------------------

  /** The back rank from file a to file h. */
  const BackRankPieces: seq<PieceType> := [Rook, Knight, Bishop, Queen, King, Bishop, Knight, Rook]

  /** Whether piece `p` stands on square `s` at the start of a game. */
  predicate StartsOn(p: Piece, s: Sq)
  {
    if p.pieceType == Pawn then Rank(s) == (if p.color == White then 1 else 6)
    else Rank(s) == (if p.color == White then 0 else 7) && BackRankPieces[File(s)] == p.pieceType
  }

  /** Piece bitboards holding exactly the starting squares of each piece. */
  ghost predicate IsStart(ps: PieceBoards)
  {
    forall p: Piece, s: Sq :: s in Elems(Bits(ps, p)) <==> StartsOn(p, s)
  }

  /** The piece bitboards of Board::starting_position. */
  function StartingPieces(): (ps: PieceBoards)
    ensures IsStart(ps)
  {
    var ps: PieceBoards := seq(2, ci requires 0 <= ci < 2 =>
      seq(6, ti requires 0 <= ti < 6 =>
        seq(64, s requires 0 <= s < 64 => StartsOn(Piece(ColorOf(ci), TypeOf(ti)), s))));
    assert forall p: Piece :: Piece(ColorOf(ColorIndex(p.color)), TypeOf(TypeIndex(p.pieceType))) == p by {
      forall p: Piece ensures Piece(ColorOf(ColorIndex(p.color)), TypeOf(TypeIndex(p.pieceType))) == p {
        TypeIndexInjective(p.pieceType, TypeOf(TypeIndex(p.pieceType)));
      }
    }
    ps
  }

  /** A bitboard holding exactly the squares `lo <= s < hi` has `hi - lo` of them. */
  lemma {:induction false} CountInterval(b: Bitboard, lo: nat, hi: nat, i: nat)
    requires lo <= hi <= 64 && i <= 64
    requires forall s: Sq :: s in Elems(b) <==> lo <= s < hi
    ensures CountFrom(b, i) == if i <= lo then hi - lo else if i <= hi then hi - i else 0
    decreases 64 - i
  {
    if i < 64 {
      assert b[i] <==> i in Elems(b);
      CountInterval(b, lo, hi, i + 1);
    }
  }

  /**
   * The bitboard of piece `c`,`t` while Board::starting_position fills the
   * back ranks: the pawns are all placed, the back-rank pieces on files
   * below `file`.
   */
  function PartialStart(c: Color, t: PieceType, file: nat): (r: Bitboard)
    ensures forall s: Sq :: s in Elems(r) <==> StartsOn(Piece(c, t), s) && (t == Pawn || File(s) < file)
  {
    seq(64, s requires 0 <= s < 64 => StartsOn(Piece(c, t), s) && (t == Pawn || File(s) < file))
  }

  /** Before the loop over the back rank: RANK_2 and RANK_7 for the pawns, nothing else. */
  lemma PartialStartInit(c: Color, t: PieceType)
    ensures PartialStart(c, t, 0) == if t != Pawn then Empty else if c == White then Rank2 else Rank7
  {
    EmptyFull();
    var r := if t != Pawn then Empty else if c == White then Rank2 else Rank7;
    forall s: Sq ensures s in Elems(PartialStart(c, t, 0)) <==> s in Elems(r) {
    }
    Extensionality(PartialStart(c, t, 0), r);
  }

  /** One round of the back-rank loop sets the square of file `file` on the bitboard of its piece. */
  lemma PartialStartStep(c: Color, t: PieceType, file: nat)
    requires file < 8
    ensures PartialStart(c, t, file + 1) ==
      if t == BackRankPieces[file] then SetSquare(PartialStart(c, t, file), NewSquare(file, if c == White then 0 else 7))
      else PartialStart(c, t, file)
  {
    var r := if t == BackRankPieces[file] then SetSquare(PartialStart(c, t, file), NewSquare(file, if c == White then 0 else 7))
      else PartialStart(c, t, file);
    forall s: Sq ensures s in Elems(PartialStart(c, t, file + 1)) <==> s in Elems(r) {
      PartialStartStepAt(c, t, file, s);
    }
    Extensionality(PartialStart(c, t, file + 1), r);
  }

  /** One square across one round of the back-rank loop. */
  lemma PartialStartStepAt(c: Color, t: PieceType, file: nat, s: Sq)
    requires file < 8
    ensures s in Elems(PartialStart(c, t, file + 1)) <==>
      s in Elems(PartialStart(c, t, file)) || (t == BackRankPieces[file] && s == NewSquare(file, if c == White then 0 else 7))
  {
  }

  /** Once the back-rank loop is done the twelve bitboards are the starting ones. */
  lemma StartFromPartial(ps: PieceBoards)
    requires forall i, j :: 0 <= i < 2 && 0 <= j < 6 ==> ps[i][j] == PartialStart(ColorOf(i), TypeOf(j), 8)
    ensures ps == StartingPieces()
  {
    forall i, j | 0 <= i < 2 && 0 <= j < 6
      ensures ps[i][j] == StartingPieces()[i][j]
    {
      PartialStartDone(StartingPieces(), ColorOf(i), TypeOf(j));
    }
    PiecesEqual(ps, StartingPieces());
  }

  /** One entry of the piece array across one round of the back-rank loop. */
  lemma FillEntry(i: nat, j: nat, file: nat, before: Bitboard, after: Bitboard)
    requires i < 2 && j < 6 && file < 8
    requires before == PartialStart(ColorOf(i), TypeOf(j), file)
    requires after == if j == TypeIndex(BackRankPieces[file]) then SetSquare(before, NewSquare(file, if i == 0 then 0 else 7)) else before
    ensures after == PartialStart(ColorOf(i), TypeOf(j), file + 1)
  {
    PartialStartStep(ColorOf(i), TypeOf(j), file);
    TypeIndexInjective(TypeOf(j), BackRankPieces[file]);
  }

  /** After the loop every piece bitboard is the starting one. */
  lemma PartialStartDone(ps: PieceBoards, c: Color, t: PieceType)
    requires IsStart(ps)
    ensures PartialStart(c, t, 8) == Bits(ps, Piece(c, t))
  {
    Extensionality(PartialStart(c, t, 8), Bits(ps, Piece(c, t)));
  }

  /** White pieces start on the lower two ranks, black ones on the upper two. */
  lemma StartsOnRanks(p: Piece, s: Sq)
    requires StartsOn(p, s)
    ensures p.color == White ==> s < 16
    ensures p.color == Black ==> s >= 48
  {
  }

  /** At the start, White holds the lower two ranks. */
  lemma StartingWhiteSquare(ps: PieceBoards, s: Sq)
    requires IsStart(ps)
    ensures s in Elems(Derive(ps).white) <==> s < 16
  {
    if s < 16 {
      var t := if s < 8 then BackRankPieces[File(s)] else Pawn;
      assert StartsOn(Piece(White, t), s);
      assert s in Elems(Bits(ps, Piece(White, t)));
    } else if s in Elems(Derive(ps).white) {
      var t: PieceType :| s in Elems(Bits(ps, Piece(White, t)));
      StartsOnRanks(Piece(White, t), s);
    }
  }

  /** At the start, Black holds the upper two ranks. */
  lemma StartingBlackSquare(ps: PieceBoards, s: Sq)
    requires IsStart(ps)
    ensures s in Elems(Derive(ps).black) <==> s >= 48
  {
    if s >= 48 {
      var t := if s >= 56 then BackRankPieces[File(s)] else Pawn;
      assert StartsOn(Piece(Black, t), s);
      assert s in Elems(Bits(ps, Piece(Black, t)));
    } else if s in Elems(Derive(ps).black) {
      var t: PieceType :| s in Elems(Bits(ps, Piece(Black, t)));
      StartsOnRanks(Piece(Black, t), s);
    }
  }

  /** Exactly ranks 3 to 6 start empty. */
  lemma StartingEmptySquare(ps: PieceBoards, s: Sq)
    requires IsStart(ps)
    ensures s in Elems(Derive(ps).empty) <==> 16 <= s < 48
  {
    StartingWhiteSquare(ps, s);
    StartingBlackSquare(ps, s);
    assert s in AllSquares();
  }

  /** Sixteen white pieces at the start. */
  lemma StartingWhiteCount(ps: PieceBoards)
    requires IsStart(ps)
    ensures Count(Derive(ps).white) == 16
  {
    forall s: Sq ensures s in Elems(Derive(ps).white) <==> 0 <= s < 16 {
      StartingWhiteSquare(ps, s);
    }
    CountInterval(Derive(ps).white, 0, 16, 0);
  }

  /** Sixteen black pieces at the start. */
  lemma StartingBlackCount(ps: PieceBoards)
    requires IsStart(ps)
    ensures Count(Derive(ps).black) == 16
  {
    forall s: Sq ensures s in Elems(Derive(ps).black) <==> 48 <= s < 64 {
      StartingBlackSquare(ps, s);
    }
    CountInterval(Derive(ps).black, 48, 64, 0);
  }

  /** Thirty-two occupied squares at the start. */
  lemma StartingOccupiedCount(ps: PieceBoards)
    requires IsStart(ps)
    ensures Count(Derive(ps).occupied) == 32
  {
    StartingWhiteCount(ps);
    StartingBlackCount(ps);
    forall s: Sq | s in Elems(Derive(ps).white) ensures s !in Elems(Derive(ps).black) {
      StartingWhiteSquare(ps, s);
      StartingBlackSquare(ps, s);
    }
    assert Elems(Derive(ps).white) * Elems(Derive(ps).black) == {};
  }

  /** Thirty-two empty squares at the start. */
  lemma StartingEmptyCount(ps: PieceBoards)
    requires IsStart(ps)
    ensures Count(Derive(ps).empty) == 32
  {
    forall s: Sq ensures s in Elems(Derive(ps).empty) <==> 16 <= s < 48 {
      StartingEmptySquare(ps, s);
    }
    CountInterval(Derive(ps).empty, 16, 48, 0);
  }

  /** No two pieces start on the same square. */
  lemma StartsOnUnique(p: Piece, q: Piece, s: Sq)
    requires StartsOn(p, s) && StartsOn(q, s)
    ensures p == q
  {
  }

  /** Board::starting_position puts at most one piece on each square. */
  lemma StartingOnePerSquare(ps: PieceBoards)
    requires IsStart(ps)
    ensures OnePerSquare(ps)
  {
    forall s: Sq, p: Piece, q: Piece | s in Elems(Bits(ps, p)) && s in Elems(Bits(ps, q))
      ensures p == q
    {
      StartsOnUnique(p, q, s);
    }
  }

  /** Ranks 3 to 6 start empty. */
  lemma StartingMiddleEmpty(ps: PieceBoards, s: Sq)
    requires IsStart(ps)
    requires 16 <= s < 48
    ensures PieceAtOf(ps, s).None?
  {
    forall p: Piece ensures s !in Elems(Bits(ps, p)) {
      if s in Elems(Bits(ps, p)) {
        StartsOnRanks(p, s);
      }
    }
    NoHolder(ps, s);
  }

  /** At the start, `piece_at` finds on each square exactly the piece that starts there. */
  lemma StartingPieceAt(ps: PieceBoards, s: Sq, p: Piece)
    requires IsStart(ps)
    ensures PieceAtOf(ps, s) == Some(p) <==> StartsOn(p, s)
  {
    StartingOnePerSquare(ps);
    PieceAtUnique(ps, s, p);
  }

  /** The white king starts on e1. */
  lemma StartingWhiteKing(ps: PieceBoards)
    requires IsStart(ps)
    ensures PieceAtOf(ps, 4) == Some(Piece(White, King))
  {
    assert StartsOn(Piece(White, King), 4);
    StartingPieceAt(ps, 4, Piece(White, King));
  }

  /** The black king starts on e8. */
  lemma StartingBlackKing(ps: PieceBoards)
    requires IsStart(ps)
    ensures PieceAtOf(ps, 60) == Some(Piece(Black, King))
  {
    assert StartsOn(Piece(Black, King), 60);
    StartingPieceAt(ps, 60, Piece(Black, King));
  }

  /** The pawns start on ranks 2 and 7. */
  lemma StartingPawns(ps: PieceBoards, s: Sq)
    requires IsStart(ps)
    ensures Rank(s) == 1 ==> PieceAtOf(ps, s) == Some(Piece(White, Pawn))
    ensures Rank(s) == 6 ==> PieceAtOf(ps, s) == Some(Piece(Black, Pawn))
  {
    if Rank(s) == 1 {
      assert StartsOn(Piece(White, Pawn), s);
      StartingPieceAt(ps, s, Piece(White, Pawn));
    } else if Rank(s) == 6 {
      assert StartsOn(Piece(Black, Pawn), s);
      StartingPieceAt(ps, s, Piece(Black, Pawn));
    }
  }

  // ---------------------------------------------------------------------
  // The board
  // ---------------------------------------------------------------------

  /** Board: the piece bitboards, updated in place, and the derived bitboards. */
  class Board {
    const pieces: array2<Bitboard>
    var occupied: Bitboard
    var white: Bitboard
    var black: Bitboard
    var empty: Bitboard

    ghost predicate Valid()
    {
      pieces.Length0 == 2 && pieces.Length1 == 6
    }

    /** The twelve piece bitboards as a value. */
    function Pieces(): (ps: PieceBoards)
      requires Valid()
      reads pieces
      ensures forall i, j :: 0 <= i < 2 && 0 <= j < 6 ==> ps[i][j] == pieces[i, j]
    {
      [[pieces[0, 0], pieces[0, 1], pieces[0, 2], pieces[0, 3], pieces[0, 4], pieces[0, 5]],
       [pieces[1, 0], pieces[1, 1], pieces[1, 2], pieces[1, 3], pieces[1, 4], pieces[1, 5]]]
    }

    /** The board as a value (what `clone` copies). */
    function State(): BoardState
      requires Valid()
      reads this, pieces
    {
      BoardState(Pieces(), occupied, white, black, empty)
    }

    /** Board::new: no pieces, every square empty. */
    constructor New()
      ensures Valid() && fresh(pieces)
      ensures State() == Derive(EmptyPieces())
    {
      pieces := new Bitboard[2, 6]((i, j) => Empty);
      occupied := Empty;
      white := Empty;
      black := Empty;
      empty := Full;
      new;
      PiecesEqual(Pieces(), EmptyPieces());
      EmptyBoardState();
    }

    /** starting_position: pawns on ranks 2 and 7, the back-rank pieces on ranks 1 and 8. */
    constructor StartingPosition()
      ensures Valid() && fresh(pieces)
      ensures IsStart(Pieces()) && Consistent(State())
    {
      pieces := new Bitboard[2, 6]((i, j) => Empty);
      occupied := Empty;
      white := Empty;
      black := Empty;
      empty := Full;
      new;
      PlacePawns();
      FillBackRanks();
      StartFromPartial(Pieces());
      UpdateDerived();
    }

    /** The pawn rows of starting_position: RANK_2 for White, RANK_7 for Black. */
    method PlacePawns()
      requires Valid()
      requires forall i, j :: 0 <= i < 2 && 0 <= j < 6 ==> pieces[i, j] == Empty
      modifies pieces
      ensures forall i, j :: 0 <= i < 2 && 0 <= j < 6 ==> pieces[i, j] == PartialStart(ColorOf(i), TypeOf(j), 0)
    {
      pieces[0, 0] := Rank2;
      pieces[1, 0] := Rank7;
      forall i, j | 0 <= i < 2 && 0 <= j < 6
        ensures pieces[i, j] == PartialStart(ColorOf(i), TypeOf(j), 0)
      {
        PartialStartInit(ColorOf(i), TypeOf(j));
      }
    }

    /** The back-rank loop of starting_position: each file's piece on rank 1 for White and rank 8 for Black. */
    method FillBackRanks()
      requires Valid()
      requires forall i, j :: 0 <= i < 2 && 0 <= j < 6 ==> pieces[i, j] == PartialStart(ColorOf(i), TypeOf(j), 0)
      modifies pieces
      ensures forall i, j :: 0 <= i < 2 && 0 <= j < 6 ==> pieces[i, j] == PartialStart(ColorOf(i), TypeOf(j), 8)
    {
      for file := 0 to 8
        invariant forall i, j :: 0 <= i < 2 && 0 <= j < 6 ==>
          pieces[i, j] == PartialStart(ColorOf(i), TypeOf(j), file)
      {
        var t := TypeIndex(BackRankPieces[file]);
        var w := SetSquare(pieces[0, t], NewSquare(file, 0));
        var b := SetSquare(pieces[1, t], NewSquare(file, 7));
        label Before:
        pieces[0, t] := w;
        pieces[1, t] := b;
        forall i, j | 0 <= i < 2 && 0 <= j < 6
          ensures pieces[i, j] == PartialStart(ColorOf(i), TypeOf(j), file + 1)
        {
          FillEntry(i, j, file, old@Before(pieces[i, j]), pieces[i, j]);
        }
      }
    }

    /** update_derived: recompute white, black, occupied and empty from the piece bitboards. */
    method UpdateDerived()
      requires Valid()
      modifies this
      ensures Valid()
      ensures State() == Derive(old(Pieces()))
    {
      ghost var ps := Pieces();
      white := Empty;
      black := Empty;
      for t := 0 to 6
        invariant white == UnionUpTo(ps, White, t)
        invariant black == UnionUpTo(ps, Black, t)
      {
        white := Or(white, pieces[0, t]);
        black := Or(black, pieces[1, t]);
      }
      occupied := Or(white, black);
      empty := Not(occupied);
    }

    /** piece_at: the first colour and piece type, in declaration order, whose bitboard holds `s`. */
    method PieceAt(s: Sq) returns (r: Option<Piece>)
      requires Valid()
      ensures r == PieceAtOf(Pieces(), s)
    {
      ghost var ps := Pieces();
      ghost var k := 0;
      for ci := 0 to 2
        invariant k == 6 * ci
        invariant forall q: Piece :: Order(q) < k ==> s !in Elems(Bits(ps, q))
      {
        for ti := 0 to 6
          invariant k == 6 * ci + ti
          invariant forall q: Piece :: Order(q) < k ==> s !in Elems(Bits(ps, q))
        {
          if HasSquare(pieces[ci, ti], s) {
            FoundFirst(ps, s, Piece(ColorOf(ci), TypeOf(ti)));
            return Some(Piece(ColorOf(ci), TypeOf(ti)));
          }
          NoHolderStep(ps, s, k, Piece(ColorOf(ci), TypeOf(ti)));
          k := k + 1;
        }
      }
      NoHolder(ps, s);
      return None;
    }

    /**
     * set_piece: clear `s` from all twelve bitboards, set it on the bitboard
     * of `p` if there is a piece, then update the derived bitboards.
     */
    method SetPiece(s: Sq, p: Option<Piece>)
      requires Valid()
      modifies this, pieces
      ensures Valid()
      ensures State() == Derive(SetPieceOf(old(Pieces()), s, p))
    {
      ghost var ps := Pieces();
      ClearEverywhere(s);
      if p.Some? {
        var ci, ti := ColorIndex(p.value.color), TypeIndex(p.value.pieceType);
        pieces[ci, ti] := SetSquare(pieces[ci, ti], s);
      }
      SetPieceFromEntries(ps, Pieces(), s, p);
      UpdateDerived();
    }

    /** The clearing loop of set_piece: `s` leaves every piece bitboard. */
    method ClearEverywhere(s: Sq)
      requires Valid()
      modifies pieces
      ensures forall i, j :: 0 <= i < 2 && 0 <= j < 6 ==> pieces[i, j] == ClearSquare(old(pieces[i, j]), s)
    {
      for ci := 0 to 2
        invariant forall i, j :: 0 <= i < 2 && 0 <= j < 6 ==>
          pieces[i, j] == if i < ci then ClearSquare(old(pieces[i, j]), s) else old(pieces[i, j])
      {
        for ti := 0 to 6
          invariant forall i, j :: 0 <= i < 2 && 0 <= j < 6 ==>
            pieces[i, j] == if i < ci || (i == ci && j < ti) then ClearSquare(old(pieces[i, j]), s) else old(pieces[i, j])
        {
          pieces[ci, ti] := ClearSquare(pieces[ci, ti], s);
        }
      }
    }

    /** Assignment of a whole board value, as `self.board = state.board` does: all twelve bitboards and the derived ones. */
    method Assign(b: BoardState)
      requires Valid()
      modifies this, pieces
      ensures Valid() && State() == b
    {
      for ci := 0 to 2
        invariant forall i, j :: 0 <= i < ci && 0 <= j < 6 ==> pieces[i, j] == b.pieces[i][j]
      {
        for ti := 0 to 6
          invariant forall i, j :: 0 <= i < 2 && 0 <= j < 6 && (i < ci || (i == ci && j < ti)) ==>
            pieces[i, j] == b.pieces[i][j]
        {
          pieces[ci, ti] := b.pieces[ci][ti];
        }
      }
      occupied, white, black, empty := b.occupied, b.white, b.black, b.empty;
      PiecesEqual(Pieces(), b.pieces);
    }

    /** piece_bitboard. */
    function PieceBitboard(c: Color, t: PieceType): (r: Bitboard)
      requires Valid()
      reads pieces
      ensures r == Bits(Pieces(), Piece(c, t))
    {
      pieces[ColorIndex(c), TypeIndex(t)]
    }

    /** color_bitboard: on a consistent board, the squares of the pieces of that colour. */
    function ColorBitboard(c: Color): (r: Bitboard)
      requires Valid()
      reads this, pieces
      ensures Consistent(State()) ==>
        forall s: Sq :: s in Elems(r) <==> exists t: PieceType :: s in Elems(Bits(Pieces(), Piece(c, t)))
    {
      match c
      case White => white
      case Black => black
    }
  }
}
