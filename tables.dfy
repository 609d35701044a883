/*
 * The two attack tables of magic.rs (chess-core/src/magic.rs), ROOK_ATTACKS and
 * BISHOP_ATTACKS, with `init` and the three lookups.  The bishop table is
 * built and read over `bishop_mask` as written.
 *
 * In the source the tables are `static mut` arrays of arrays, one row of
 * 4096 (rook) or 512 (bishop) bitboards per square.  Here they are the rows
 * of an object: each row is an array of its own, and no two rows are the
 * same array, as the nested Rust arrays cannot alias.
 */
module MagicTables {
  import opened Bitboards
  import opened Boards
  import opened Magic

  /** Fresh rows of `size` empty bitboards, one per square. */
  method NewRows(size: nat) returns (rows: seq<array<Bitboard>>)
    ensures |rows| == 64
    ensures forall s :: 0 <= s < 64 ==> fresh(rows[s]) && rows[s].Length == size
    ensures forall s, j :: 0 <= s < 64 && 0 <= j < size ==> rows[s][j] == Empty
    ensures forall s, t :: 0 <= s < t < 64 ==> rows[s] != rows[t]
  {
    rows := [];
    for s := 0 to 64
      invariant |rows| == s
      invariant forall i :: 0 <= i < s ==> fresh(rows[i]) && rows[i].Length == size
      invariant forall i, j :: 0 <= i < s && 0 <= j < size ==> rows[i][j] == Empty
      invariant forall i, t :: 0 <= i < t < s ==> rows[i] != rows[t]
    {
      var row := new Bitboard[size](_ => Empty);
      rows := rows + [row];
    }
  }

  /** One turn of init's loop: the rook row and then the bishop row of `square`. */
  method InitSquare(rookRow: array<Bitboard>, bishopRow: array<Bitboard>, square: Sq)
    requires rookRow.Length == RowSize(Orthogonal) && bishopRow.Length == RowSize(Diagonal)
    modifies rookRow, bishopRow
    ensures Built(rookRow, Orthogonal, square, MagicOf(Orthogonal, square))
    ensures Built(bishopRow, Diagonal, square, MagicOf(Diagonal, square))
  {
    InitAttacks(rookRow, Orthogonal, square);
    assert rookRow != bishopRow by {
      assert rookRow.Length != bishopRow.Length;
    }
    InitAttacks(bishopRow, Diagonal, square);
  }

  class AttackTables {
    /** ROOK_ATTACKS: 64 rows of 4096 entries. */
    const rookAttacks: seq<array<Bitboard>>
    /** BISHOP_ATTACKS: 64 rows of 512 entries. */
    const bishopAttacks: seq<array<Bitboard>>

    /** The shape of the two static arrays: 64 rows each, of the right length, no row shared. */
    ghost predicate Valid()
    {
      |rookAttacks| == 64 && |bishopAttacks| == 64
      && (forall s :: 0 <= s < 64 ==> rookAttacks[s].Length == RowSize(Orthogonal))
      && (forall s :: 0 <= s < 64 ==> bishopAttacks[s].Length == RowSize(Diagonal))
      && (forall s, t :: 0 <= s < t < 64 ==> rookAttacks[s] != rookAttacks[t])
      && (forall s, t :: 0 <= s < t < 64 ==> bishopAttacks[s] != bishopAttacks[t])
    }

    /** Both rows of square `s` have been filled by their init loops. */
    ghost predicate RowsBuilt(s: Sq)
      requires Valid()
      reads rookAttacks[s], bishopAttacks[s]
    {
      Built(rookAttacks[s], Orthogonal, s, MagicOf(Orthogonal, s))
      && Built(bishopAttacks[s], Diagonal, s, MagicOf(Diagonal, s))
    }

    /** Every row of both tables has been filled. */
    ghost predicate Ready()
      requires Valid()
      reads rookAttacks, bishopAttacks
    {
      forall s :: 0 <= s < 64 ==> RowsBuilt(s)
    }

    /** The static initialisers: every entry of both tables is the empty bitboard. */
    constructor ()
      ensures Valid()
      ensures forall s, j :: 0 <= s < 64 && 0 <= j < RowSize(Orthogonal) ==> rookAttacks[s][j] == Empty
      ensures forall s, j :: 0 <= s < 64 && 0 <= j < RowSize(Diagonal) ==> bishopAttacks[s][j] == Empty
    {
      var rook := NewRows(RowSize(Orthogonal));
      var bishop := NewRows(RowSize(Diagonal));
      rookAttacks := rook;
      bishopAttacks := bishop;
    }

    /** init: the rook and then the bishop init loop for every square in turn. */
    method Init()
      requires Valid()
      modifies rookAttacks, bishopAttacks
      ensures Ready()
    {
      for square := 0 to 64
        invariant forall s :: 0 <= s < square ==> RowsBuilt(s)
      {
        label before:
        InitSquare(rookAttacks[square], bishopAttacks[square], square);
        forall s | 0 <= s < square + 1
          ensures RowsBuilt(s)
        {
          if s < square {
            assert old@before(RowsBuilt(s));
            assert rookAttacks[s] != rookAttacks[square] && bishopAttacks[s] != bishopAttacks[square];
            assert rookAttacks[s].Length != bishopAttacks[square].Length && bishopAttacks[s].Length != rookAttacks[square].Length;
          }
        }
      }
    }

    /**
     * get_rook_attacks: read the slot the masked occupancy hashes to.  Once
     * the tables are ready and the magic only collides constructively, the
     * slot holds the ray-scan rook attacks of the occupancy.
     */
    method GetRookAttacks(square: Sq, occupancy: Bitboard) returns (attacks: Bitboard)
      requires Valid()
      ensures attacks == rookAttacks[square][Key(Orthogonal, square, MagicOf(Orthogonal, square), occupancy)]
      ensures Ready() && GoodMagic(Orthogonal, square, MagicOf(Orthogonal, square)) ==>
        Elems(attacks) == Rays.RookAttacksOf(square, Elems(occupancy))
    {
      var mask := RookMask(square);
      var magic := RookMagics[square];
      var shift := RookShift(square);
      var index := MagicIndex(occupancy, mask, magic, shift);
      assert index == Key(Orthogonal, square, magic, occupancy);
      attacks := rookAttacks[square][index];
      if Ready() && GoodMagic(Orthogonal, square, magic) {
        assert RowsBuilt(square);
        LookupCorrect(rookAttacks[square], Orthogonal, square, magic, occupancy);
      }
    }

    /**
     * get_bishop_attacks: read the slot the occupancy masked by
     * `bishop_mask` hashes to.  Once the tables are ready and the magic only
     * collides constructively, the slot holds the ray-scan bishop attacks
     * of the occupancy's squares inside `bishop_mask`; where that mask is
     * empty (b1, for one), the attacks of the empty board, whatever the
     * occupancy.
     */
    method GetBishopAttacks(square: Sq, occupancy: Bitboard) returns (attacks: Bitboard)
      requires Valid()
      ensures attacks == bishopAttacks[square][Key(Diagonal, square, MagicOf(Diagonal, square), occupancy)]
      ensures Ready() && GoodMagic(Diagonal, square, MagicOf(Diagonal, square)) ==>
        Elems(attacks) == Rays.BishopAttacksOf(square, Elems(occupancy) * Elems(BishopMaskBits(square)))
      ensures Ready() && IsEmpty(BishopMaskBits(square)) ==>
        Elems(attacks) == Rays.BishopAttacksOf(square, {})
    {
      var mask := BishopMask(square);
      var magic := MagicOf(Diagonal, square);
      var shift := BishopShift(square);
      var index := MagicIndex(occupancy, mask, magic, shift);
      assert index == Key(Diagonal, square, magic, occupancy);
      attacks := bishopAttacks[square][index];
      if Ready() {
        assert RowsBuilt(square);
        if GoodMagic(Diagonal, square, magic) {
          LookupCorrect(bishopAttacks[square], Diagonal, square, magic, occupancy);
        }
        if IsEmpty(mask) {
          EmptyMaskLookup(bishopAttacks[square], square, magic, occupancy);
        }
      }
    }

    /** get_queen_attacks: the union of the two lookups. */
    method GetQueenAttacks(square: Sq, occupancy: Bitboard) returns (attacks: Bitboard)
      requires Valid()
      ensures Elems(attacks) ==
        Elems(rookAttacks[square][Key(Orthogonal, square, MagicOf(Orthogonal, square), occupancy)])
        + Elems(bishopAttacks[square][Key(Diagonal, square, MagicOf(Diagonal, square), occupancy)])
      ensures (Ready() && GoodMagic(Orthogonal, square, MagicOf(Orthogonal, square))
               && GoodMagic(Diagonal, square, MagicOf(Diagonal, square))) ==>
        Elems(attacks) == Rays.RookAttacksOf(square, Elems(occupancy))
          + Rays.BishopAttacksOf(square, Elems(occupancy) * Elems(BishopMaskBits(square)))
    {
      var rook := GetRookAttacks(square, occupancy);
      var bishop := GetBishopAttacks(square, occupancy);
      attacks := Or(rook, bishop);
    }
  }
}
