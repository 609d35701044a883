/**
 * Moves (chess-core/src/moves.rs): a move packed into one 32-bit word.
 *
 *   bits  0-5   from square          bits 16-18  promotion piece type
 *   bits  6-11  to square            bit  20     promotion flag
 *   bits 12-14  moving piece type    bit  21     en-passant flag
 *                                    bit  22     castling flag
 *
 * The constructors OR together fields that do not overlap, which is the
 * same as adding them; the accessors shift right and mask, which is
 * division and remainder by powers of two.  The word is modelled as that
 * number.
 */
module Moves {
  import opened Wrappers
  import opened Bitboards
  import opened Boards
  import opened Text

  /**
   * The word of a move.  Only the constructors below make moves, and none
   * of them puts 6 or 7 in the piece field, which `piece_type` treats as
   * unreachable.
   */
  datatype MoveWord = MoveWord(data: nat)

  type Move = m: MoveWord | m.data < Word32 && m.data / 0x1000 % 8 < 6 witness MoveWord(0)

  /** The flag bits, bit 20 upwards: promotion, en passant, castling. */
  const PromotionFlag: nat := 1
  const EnPassantFlag: nat := 2
  const CastlingFlag: nat := 4

  lemma MulAtLeast(k: int, d: int)
    requires k > 0 && d >= 1
    ensures k * d >= k
  {
    assert k * d == k * (d - 1) + k;
  }

  /** The only multiple of `k` strictly between `-k` and `k` is 0. */
  lemma MulBound(k: int, d: int)
    requires k > 0 && -k < k * d < k
    ensures d == 0
  {
    if d > 0 {
      MulAtLeast(k, d);
    } else if d < 0 {
      MulAtLeast(k, -d);
    }
  }

  /** Euclidean division of `lo + k * hi` by `k` gives back `hi` and `lo`. */
  lemma DivModAdd(lo: int, hi: int, k: int)
    requires 0 <= lo < k
    ensures (lo + k * hi) / k == hi && (lo + k * hi) % k == lo
  {
    var x := lo + k * hi;
    var d := x / k - hi;
    assert k * (x / k) + x % k == x;
    assert k * d == lo - x % k by {
      assert k * d == k * (x / k) - k * hi;
    }
    MulBound(k, d);
  }

  /** Each field of a packed word reads back what was packed into it. */
  lemma PackFields(from: Sq, to: Sq, piece: nat, promotion: nat, flags: nat)
    requires piece < 6 && promotion < 8 && flags < 8
    ensures var x := from + 0x40 * to + 0x1000 * piece + 0x1_0000 * promotion + 0x10_0000 * flags;
      && x < Word32
      && x % 0x40 == from
      && x / 0x40 % 0x40 == to
      && x / 0x1000 % 8 == piece
      && x / 0x1_0000 % 8 == promotion
      && x / 0x10_0000 % 2 == flags % 2
      && x / 0x20_0000 % 2 == flags / 2 % 2
      && x / 0x40_0000 % 2 == flags / 4
  {
    DivModAdd(from, to + 0x40 * piece + 0x400 * promotion + 0x4000 * flags, 0x40);
    DivModAdd(to, piece + 0x10 * promotion + 0x100 * flags, 0x40);
    DivModAdd(from + 0x40 * to, piece + 0x10 * promotion + 0x100 * flags, 0x1000);
    DivModAdd(piece, 2 * promotion + 0x20 * flags, 8);
    DivModAdd(from + 0x40 * to + 0x1000 * piece, promotion + 0x10 * flags, 0x1_0000);
    DivModAdd(promotion, 2 * flags, 8);
    DivModAdd(from + 0x40 * to + 0x1000 * piece + 0x1_0000 * promotion, flags, 0x10_0000);
    DivModAdd(from + 0x40 * to + 0x1000 * piece + 0x1_0000 * promotion + 0x10_0000 * (flags % 2),
              flags / 2, 0x20_0000);
    DivModAdd(from + 0x40 * to + 0x1000 * piece + 0x1_0000 * promotion + 0x10_0000 * (flags % 4),
              flags / 4, 0x40_0000);
  }

  /** Lays out the fields of a move word; disjoint fields OR'ed together are their sum. */
  function Pack(from: Sq, to: Sq, piece: nat, promotion: nat, flags: nat): (m: Move)
    requires piece < 6 && promotion < 8 && flags < 8
    ensures m.data % 0x40 == from
    ensures m.data / 0x40 % 0x40 == to
    ensures m.data / 0x1000 % 8 == piece
    ensures m.data / 0x1_0000 % 8 == promotion
    ensures m.data / 0x10_0000 % 2 == flags % 2
    ensures m.data / 0x20_0000 % 2 == flags / 2 % 2
    ensures m.data / 0x40_0000 % 2 == flags / 4
  {
    PackFields(from, to, piece, promotion, flags);
    MoveWord(from + 0x40 * to + 0x1000 * piece + 0x1_0000 * promotion + 0x10_0000 * flags)
  }

  // ---------------------------------------------------------------------
  // Accessors
  // ---------------------------------------------------------------------

  /** Move::from: `data & 0x3F`. */
  function From(m: Move): (s: Sq)
    ensures m.data == s + 0x40 * (m.data / 0x40)
  {
    m.data % 0x40
  }

  /** Move::to: `(data >> 6) & 0x3F`. */
  function To(m: Move): (s: Sq)
    ensures m.data % 0x1000 == From(m) + 0x40 * s
  {
    m.data / 0x40 % 0x40
  }

  /** Move::piece_type: `(data >> 12) & 7` read as a piece type. */
  function MovedType(m: Move): (t: PieceType)
    ensures TypeIndex(t) == m.data / 0x1000 % 8
  {
    TypeOf(m.data / 0x1000 % 8)
  }

  /** Move::is_promotion: bit 20. */
  predicate IsPromotion(m: Move)
    ensures IsPromotion(m) <==> m.data % 0x20_0000 >= 0x10_0000
  {
    m.data / 0x10_0000 % 2 == 1
  }

  /** Move::is_en_passant: bit 21. */
  predicate IsEnPassant(m: Move)
    ensures IsEnPassant(m) <==> m.data % 0x40_0000 >= 0x20_0000
  {
    m.data / 0x20_0000 % 2 == 1
  }

  /** Move::is_castling: bit 22. */
  predicate IsCastling(m: Move)
    ensures IsCastling(m) <==> m.data % 0x80_0000 >= 0x40_0000
  {
    m.data / 0x40_0000 % 2 == 1
  }

  /**
   * Move::promotion_piece: the type in bits 16-18 when the promotion flag
   * is set; nothing when the flag is clear or the field is not a type.
   */
  function PromotionPiece(m: Move): (r: Option<PieceType>)
    ensures r.Some? <==> IsPromotion(m) && m.data / 0x1_0000 % 8 < 6
    ensures r.Some? ==> TypeIndex(r.value) == m.data / 0x1_0000 % 8
  {
    if IsPromotion(m) then
      var field := m.data / 0x1_0000 % 8;
      if field < 6 then Some(TypeOf(field)) else None
    else None
  }

  // ---------------------------------------------------------------------
  // Constructors, each specified by what the accessors read back
  // ---------------------------------------------------------------------

  /** Move::new: a plain move, no flag set. */
  function NewMove(from: Sq, to: Sq, t: PieceType): (m: Move)
    ensures From(m) == from && To(m) == to && MovedType(m) == t
    ensures !IsPromotion(m) && !IsEnPassant(m) && !IsCastling(m)
    ensures PromotionPiece(m).None?
  {
    var m := Pack(from, to, TypeIndex(t), 0, 0);
    TypeIndexInjective(MovedType(m), t);
    m
  }

  /** Move::new_promotion: the promotion type in bits 16-18 and the promotion flag. */
  function NewPromotion(from: Sq, to: Sq, t: PieceType, promotion: PieceType): (m: Move)
    ensures From(m) == from && To(m) == to && MovedType(m) == t
    ensures IsPromotion(m) && !IsEnPassant(m) && !IsCastling(m)
    ensures PromotionPiece(m) == Some(promotion)
  {
    var m := Pack(from, to, TypeIndex(t), TypeIndex(promotion), PromotionFlag);
    TypeIndexInjective(MovedType(m), t);
    TypeIndexInjective(PromotionPiece(m).value, promotion);
    m
  }

  /** Move::new_en_passant: always a pawn move, with the en-passant flag. */
  function NewEnPassant(from: Sq, to: Sq): (m: Move)
    ensures From(m) == from && To(m) == to && MovedType(m) == Pawn
    ensures !IsPromotion(m) && IsEnPassant(m) && !IsCastling(m)
  {
    var m := Pack(from, to, TypeIndex(Pawn), 0, EnPassantFlag);
    TypeIndexInjective(MovedType(m), Pawn);
    m
  }

  /** Move::new_castling: always a king move, with the castling flag; the colour is not stored. */
  function NewCastling(from: Sq, to: Sq, color: Color): (m: Move)
    ensures From(m) == from && To(m) == to && MovedType(m) == King
    ensures !IsPromotion(m) && !IsEnPassant(m) && IsCastling(m)
  {
    var m := Pack(from, to, TypeIndex(King), 0, CastlingFlag);
    TypeIndexInjective(MovedType(m), King);
    m
  }

  /** The colour passed to `new_castling` is not stored in the word. */
  lemma CastlingIgnoresColor(from: Sq, to: Sq)
    ensures NewCastling(from, to, White) == NewCastling(from, to, Black)
  {
  }

  // ---------------------------------------------------------------------
  // Captures
  // ---------------------------------------------------------------------

  /**
   * Move::is_capture: the destination holds a piece (of either colour), or
   * the move is en passant.
   */
  function IsCapture(m: Move, ps: PieceBoards): (r: bool)
    ensures r <==> To(m) in Elems(Derive(ps).occupied) || IsEnPassant(m)
  {
    DerivedAgreesWithPieceAt(ps, To(m));
    PieceAtOf(ps, To(m)).Some? || IsEnPassant(m)
  }

  // ---------------------------------------------------------------------
  // Coordinate notation
  // ---------------------------------------------------------------------

  /** The suffix letter of a promotion; types that cannot be promoted to print as '?'. */
  function PromotionChar(t: PieceType): (c: char)
    ensures c in "nbrq?"
    ensures c == '?' <==> t == Pawn || t == King
  {
    match t
    case Knight => 'n'
    case Bishop => 'b'
    case Rook => 'r'
    case Queen => 'q'
    case _ => '?'
  }

  /** Move::to_algebraic: the two squares, then the promotion letter if there is one. */
  function ToAlgebraic(m: Move): (r: string)
    ensures |r| == 4 || |r| == 5
    ensures r[..2] == SquareToAlgebraic(From(m)) && r[2..4] == SquareToAlgebraic(To(m))
    ensures |r| == 5 <==> PromotionPiece(m).Some?
    ensures |r| == 5 ==> r[4] == PromotionChar(PromotionPiece(m).value)
    ensures forall i :: 0 <= i < |r| ==> r[i] as int < 0x80
  {
    var squares := SquareToAlgebraic(From(m)) + SquareToAlgebraic(To(m));
    if IsPromotion(m) && PromotionPiece(m).Some? then
      squares + [PromotionChar(PromotionPiece(m).value)]
    else
      squares
  }

  /** The promotion types the parser accepts, in either case. */
  function PromotionFromChar(c: char): (r: Option<PieceType>)
    ensures r.Some? <==> c in "nNbBrRqQ"
    ensures r.Some? ==> r.value in {Knight, Bishop, Rook, Queen}
  {
    match c
    case 'n' => Some(Knight)
    case 'N' => Some(Knight)
    case 'b' => Some(Bishop)
    case 'B' => Some(Bishop)
    case 'r' => Some(Rook)
    case 'R' => Some(Rook)
    case 'q' => Some(Queen)
    case 'Q' => Some(Queen)
    case _ => None
  }

  /** The suffix letter of each promotable type reads back as that type. */
  lemma PromotionCharRoundTrip(t: PieceType)
    requires t in {Knight, Bishop, Rook, Queen}
    ensures PromotionFromChar(PromotionChar(t)) == Some(t)
  {
  }

  /** The first four bytes of `s` are four ASCII characters (so byte slicing cannot panic). */
  predicate AsciiPrefix(s: string)
  {
    Utf8Len(s) >= 4 ==> |s| >= 4 && forall i :: 0 <= i < 4 ==> s[i] as int < 0x80
  }

  /**
   * Move::from_algebraic: at least four bytes, two squares, then a
   * promotion letter when the string is exactly five bytes long.  Any
   * other length of at least four is a plain move, whatever follows.
   */
  function FromAlgebraic(s: string, t: PieceType): (r: Option<Move>)
    requires AsciiPrefix(s)
    ensures r.Some? ==> |s| >= 4 && SquareFromAlgebraic(s[..2]).Some? && SquareFromAlgebraic(s[2..4]).Some?
    ensures r.Some? ==> From(r.value) == SquareFromAlgebraic(s[..2]).value
    ensures r.Some? ==> To(r.value) == SquareFromAlgebraic(s[2..4]).value
    ensures r.Some? ==> MovedType(r.value) == t && !IsEnPassant(r.value) && !IsCastling(r.value)
    ensures r.Some? ==> (IsPromotion(r.value) <==> Utf8Len(s) == 5)
  {
    if Utf8Len(s) < 4 then None
    else
      match SquareFromAlgebraic(s[0..2])
      case None => None
      case Some(from) =>
        match SquareFromAlgebraic(s[2..4])
        case None => None
        case Some(to) =>
          if Utf8Len(s) == 5 then
            if |s| < 5 then None
            else
              match PromotionFromChar(s[4])
              case None => None
              case Some(promotion) => Some(NewPromotion(from, to, t, promotion))
          else Some(NewMove(from, to, t))
  }

  /** A short string, a bad square or a bad promotion letter is rejected. */
  lemma FromAlgebraicRejects(s: string, t: PieceType)
    requires AsciiPrefix(s)
    ensures Utf8Len(s) < 4 ==> FromAlgebraic(s, t).None?
    ensures Utf8Len(s) >= 4 && SquareFromAlgebraic(s[..2]).None? ==> FromAlgebraic(s, t).None?
    ensures Utf8Len(s) >= 4 && SquareFromAlgebraic(s[2..4]).None? ==> FromAlgebraic(s, t).None?
    ensures Utf8Len(s) == 5 && |s| == 5 && s[4] !in "nNbBrRqQ" ==> FromAlgebraic(s, t).None?
  {
  }

  /** Bytes past the fifth are ignored: such a string parses as the plain move of its first four. */
  lemma FromAlgebraicIgnoresTail(s: string, t: PieceType)
    requires AsciiPrefix(s) && Utf8Len(s) >= 6
    ensures AsciiPrefix(s[..4]) && FromAlgebraic(s, t) == FromAlgebraic(s[..4], t)
    ensures FromAlgebraic(s, t).Some? ==> !IsPromotion(FromAlgebraic(s, t).value)
  {
    Utf8LenAscii(s[..4]);
    assert s[..4][..2] == s[..2] && s[..4][2..4] == s[2..4];
  }

  /** A printed plain move parses back to itself, given its piece type. */
  lemma PlainRoundTrip(from: Sq, to: Sq, t: PieceType)
    ensures AsciiPrefix(ToAlgebraic(NewMove(from, to, t)))
    ensures FromAlgebraic(ToAlgebraic(NewMove(from, to, t)), t) == Some(NewMove(from, to, t))
  {
    var m := NewMove(from, to, t);
    var s := ToAlgebraic(m);
    Utf8LenAscii(s);
    SquareAlgebraicRoundTrip(from);
    SquareAlgebraicRoundTrip(to);
  }

  /** A printed promotion to a knight, bishop, rook or queen parses back to itself. */
  lemma PromotionRoundTrip(from: Sq, to: Sq, t: PieceType, promotion: PieceType)
    requires promotion in {Knight, Bishop, Rook, Queen}
    ensures AsciiPrefix(ToAlgebraic(NewPromotion(from, to, t, promotion)))
    ensures FromAlgebraic(ToAlgebraic(NewPromotion(from, to, t, promotion)), t)
         == Some(NewPromotion(from, to, t, promotion))
  {
    var m := NewPromotion(from, to, t, promotion);
    var s := ToAlgebraic(m);
    Utf8LenAscii(s);
    SquareAlgebraicRoundTrip(from);
    SquareAlgebraicRoundTrip(to);
    PromotionCharRoundTrip(promotion);
  }

  /**
   * The notation drops the en-passant and castling flags: the text of such
   * a move parses as the plain move between the same squares.
   */
  lemma FlagsNotPrinted(from: Sq, to: Sq, color: Color)
    ensures FromAlgebraic(ToAlgebraic(NewEnPassant(from, to)), Pawn) == Some(NewMove(from, to, Pawn))
    ensures FromAlgebraic(ToAlgebraic(NewCastling(from, to, color)), King) == Some(NewMove(from, to, King))
  {
    Utf8LenAscii(ToAlgebraic(NewEnPassant(from, to)));
    Utf8LenAscii(ToAlgebraic(NewCastling(from, to, color)));
    SquareAlgebraicRoundTrip(from);
    SquareAlgebraicRoundTrip(to);
  }

  /** A promotion to a pawn or king prints '?', which the parser refuses. */
  lemma OddPromotionNotParsed(from: Sq, to: Sq, t: PieceType, promotion: PieceType)
    requires promotion == Pawn || promotion == King
    ensures ToAlgebraic(NewPromotion(from, to, t, promotion))[4] == '?'
    ensures FromAlgebraic(ToAlgebraic(NewPromotion(from, to, t, promotion)), t).None?
  {
    Utf8LenAscii(ToAlgebraic(NewPromotion(from, to, t, promotion)));
  }

  /** The source's examples: e2e4 and e2e4q. */
  lemma AlgebraicExamples()
    ensures ToAlgebraic(NewMove(NewSquare(4, 1), NewSquare(4, 3), Pawn)) == "e2e4"
    ensures ToAlgebraic(NewPromotion(NewSquare(4, 1), NewSquare(4, 3), Pawn, Queen)) == "e2e4q"
  {
    SquareAlgebraicExamples();
    assert SquareToAlgebraic(NewSquare(4, 1)) == "e2";
  }
}
