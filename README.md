# chess-core in Dafny

A model of the core of `chess-core`, a bitboard chess engine library
written in Rust, with proofs about it. It covers:

- the 64-bit bitboard and its square operations, shifts and iterator;
- the board, its twelve piece bitboards and derived bitboards;
- the packed 32-bit move word and its long-algebraic text;
- the slider attacks of `magic_simple.rs`, the magic-bitboard tables of `magic.rs`;
- the move generator of `movegen.rs`;
- the position: making and undoing moves, the castling rights, the attack test, and FEN reading and writing;
- the static evaluation;
- the alpha-beta and quiescence search with move ordering and iterative deepening.

## Layout

| file | module | models |
|---|---|---|
| `wrappers.dfy` | `Wrappers` | `Option`, `Result` and the crate's `Error` |
| `text.dfy` | `Text` | the standard-library text operations the crate relies on: `split_whitespace`, `split`, `to_string` and `parse::<u32>` of a number, and `u32` wrap-around |
| `bitboard.dfy` | `Bitboards` | `bitboard.rs`. A bitboard is a sequence of 64 booleans, bit `i` being square `i`. `ToNat`/`Word` give the `u64` value wherever the source does arithmetic on it |
| `board.dfy` | `Boards` | `board.rs`: colours, piece types, squares, the `Board` class. The class keeps the twelve piece bitboards in a 2 by 6 array and updates it in place. `BoardState` is its value |
| `moves.dfy` | `Moves` | `moves.rs`: the `u32` move word and its text |
| `rays.dfy` | `Rays` | `magic_simple.rs`: the ray-scan slider attacks |
| `subsets.dfy` | `Subsets` | the carry-rippler subset step `(occupancy - mask) & mask` of `magic.rs` |
| `magic.dfy` | `Magic` | the masks, the shifts, the magic index, the table-filling loop |
| `tables.dfy` | `MagicTables` | the two `static mut` attack tables, as an object with one array per square, built over `rook_mask` and `bishop_mask` as written |
| `movegen.dfy` | `MoveGen` | `movegen.rs` |
| `positions.dfy` | `Positions` | `position.rs` on values: castling rights, the four move kinds, `make_move`, `undo_move`, the attack test |
| `fen.dfy` | `Fen` | `Position::to_fen` and `Position::from_fen` on values, and the round trip |
| `position.dfy` | `Game` | the `Position` class over a `Board` object, each method proved against the value functions |
| `chess_moves.dfy` | `ChessMoves` | the move application the search uses, and that generated moves are accepted |
| `evaluate.dfy` | `Evaluation` | `evaluate.rs` |
| `sort.dfy` | `StableSort` | the stable descending sort of `sort_by(b.1.cmp(&a.1))` |
| `search.dfy` | `Search` | `search.rs` over a game tree given by its operations |
| `deepening.dfy` | `Deepening` | `iterative_deepening` |
| `search_chess.dfy` | `ChessSearch` | the scores of `search.rs` and the search on chess positions |

The value functions (`MakeMoveOf`, `FenOf`, `ParseFen`, `GeneratedMoves`,
`AlphaBetaOf`, `SearchOf`, ...) state what the code computes. The methods
that loop or update objects in place are proved equal to them. The lemmas
state what those functions mean:

- round trips: FEN, squares, moves, `make_move`/`undo_move`, `u32` text;
- the ray and mask geometry;
- membership in and order of the generated move list;
- the soundness of alpha-beta and of the quiescence search against negamax.

## Model

| member | source | states |
|---|---|---|
| Bitboards.Word | chess-core/src/bitboard.rs:4 | a `u64` value, reduced modulo 2^64, is the 64-bit word whose bits spell it in binary, low bit first |
| Bitboards.FromNatToNat | chess-core/src/bitboard.rs:4 | reading a word as a number and writing it back gives the same word |
| Bitboards.ToNatFromNat | chess-core/src/bitboard.rs:4 | writing a number below 2^n as n bits and reading it back gives the number |
| Bitboards.Extensionality | chess-core/src/bitboard.rs:4 | two bitboards holding the same squares are the same word |
| Bitboards.EmptyFull | chess-core/src/bitboard.rs:7-14 | `empty` holds no square and is the word 0; `full` holds all 64 squares |
| Bitboards.FromSquare | chess-core/src/bitboard.rs:16-18 | `from_square` holds exactly the given square |
| Bitboards.FromSquareValue | chess-core/src/bitboard.rs:16-18 | `from_square(s)` is the word `1 << s`, that is 2^s |
| Bitboards.IsEmpty | chess-core/src/bitboard.rs:20-22 | `is_empty` holds exactly when no square is set, exactly when the word is 0 |
| Bitboards.HasSquare | chess-core/src/bitboard.rs:24-26 | `has_square` holds exactly when the square is in the set |
| Bitboards.SetSquare | chess-core/src/bitboard.rs:28-30 | `set_square` adds the square to the set |
| Bitboards.ClearSquare | chess-core/src/bitboard.rs:32-34 | `clear_square` removes the square from the set |
| Bitboards.SquareOpsAsWords | chess-core/src/bitboard.rs:24-34 | the three square operations are the word operations the source writes: AND with, OR with, AND with the complement of `1 << s` |
| Bitboards.ToggleSquare | chess-core/src/bitboard.rs:36-38 | `toggle_square` removes a square that is set and adds one that is not |
| Bitboards.SetClearSquare | chess-core/src/bitboard.rs:28-34 | after `set_square` the square is set, after `clear_square` it is not, and every other square keeps its state |
| Bitboards.ToggleTwice | chess-core/src/bitboard.rs:36-38 | toggling a square twice gives back the same bitboard |
| Bitboards.Count | chess-core/src/bitboard.rs:40-42 | `count` is the number of squares in the set, at most 64 |
| Bitboards.CountFacts | chess-core/src/bitboard.rs:221-242 | the empty board counts 0 and a single square 1; setting a new square adds one and clearing a set square takes one away |
| Bitboards.Lsb | chess-core/src/bitboard.rs:44-50 | `lsb` is None exactly for the empty set, and otherwise the least square in the set |
| Bitboards.Msb | chess-core/src/bitboard.rs:52-58 | `msb` is None exactly for the empty set, and otherwise the greatest square in the set |
| Bitboards.DecrementWord | chess-core/src/bitboard.rs:60-66 | subtracting 1 from a non-zero word clears its lowest set bit, sets every bit below it and keeps every bit above it |
| Bitboards.ClearLowest | chess-core/src/bitboard.rs:60-66 | `b & (b - 1)` is the set without its least square |
| Bitboards.PopLsb | chess-core/src/bitboard.rs:60-66 | `pop_lsb` returns `lsb`, leaves an empty board unchanged and otherwise removes that square |
| Bitboards.PopLsbCount | chess-core/src/bitboard.rs:60-66 | popping a square from a non-empty board lowers its count by one |
| Bitboards.North | chess-core/src/bitboard.rs:68-71 | `north` moves every square up one rank; squares on rank 8 fall off |
| Bitboards.South | chess-core/src/bitboard.rs:73-76 | `south` moves every square down one rank; squares on rank 1 fall off |
| Bitboards.East | chess-core/src/bitboard.rs:78-81 | `east` moves every square one file right; squares on file h fall off and nothing wraps onto file a |
| Bitboards.West | chess-core/src/bitboard.rs:83-86 | `west` moves every square one file left; squares on file a fall off and nothing wraps onto file h |
| Bitboards.NorthEast | chess-core/src/bitboard.rs:88-91 | `northeast` is `north` then `east`: each square moves to the one up and to the right, if there is one |
| Bitboards.NorthWest | chess-core/src/bitboard.rs:93-96 | `northwest` moves each square up and to the left, if there is such a square |
| Bitboards.SouthEast | chess-core/src/bitboard.rs:98-101 | `southeast` moves each square down and to the right, if there is such a square |
| Bitboards.SouthWest | chess-core/src/bitboard.rs:103-106 | `southwest` moves each square down and to the left, if there is such a square |
| Bitboards.ShiftEdges | chess-core/src/bitboard.rs:78-86 | after `east` nothing is on file a, after `west` nothing on file h, after `north` nothing on rank 1, after `south` nothing on rank 8 |
| Bitboards.ShiftExamples | chess-core/src/bitboard.rs:245-255 | the shifts of a1 and h8 that the unit test checks |
| Bitboards.Or | chess-core/src/bitboard.rs:113-125 | `|` is the union of the two sets |
| Bitboards.And | chess-core/src/bitboard.rs:127-139 | `&` is the intersection of the two sets |
| Bitboards.Xor | chess-core/src/bitboard.rs:141-153 | `^` is the symmetric difference of the two sets |
| Bitboards.Not | chess-core/src/bitboard.rs:155-161 | `!` is the complement of the set among the 64 squares |
| Bitboards.Shl | chess-core/src/bitboard.rs:69-71 | the `<<` the shifts use: square t is set exactly when square t - n was set |
| Bitboards.Shr | chess-core/src/bitboard.rs:74-76 | the `>>` the shifts use: square t is set exactly when square t + n was set |
| Bitboards.LightDark | chess-core/src/bitboard.rs:213-214 | the light and dark square masks split the board in two; a1 is dark and h1 is light |
| Bitboards.SquareListProps | chess-core/src/bitboard.rs:108-110 | the squares the iterator yields are strictly increasing, are exactly the set's squares, and number `count` |
| Bitboards.PopLsbList | chess-core/src/bitboard.rs:184-193 | each `next` of the iterator yields the least square, and the rest of the sequence is that of the popped board |
| Bitboards.Squares | chess-core/src/bitboard.rs:184-193 | draining the iterator with `pop_lsb` until it returns None yields the set's squares in increasing order |
| Bitboards.IteratorExample | chess-core/src/bitboard.rs:258-266 | the squares of {0, 2, 4} come out as [0, 2, 4] |
| Boards.Opposite | chess-core/src/board.rs:10-15 | `opposite` never returns the same colour |
| Boards.PawnDirection | chess-core/src/board.rs:18-23 | a pawn push moves a White pawn up one rank (+8) and a Black pawn down one rank (-8) |
| Boards.BackRank | chess-core/src/board.rs:25-30 | the back rank holds exactly the squares of rank 1 for White and of rank 8 for Black |
| Boards.PawnStartRank | chess-core/src/board.rs:32-37 | the pawn start rank holds exactly the squares of rank 2 for White and of rank 7 for Black |
| Boards.ColorFacts | chess-core/src/board.rs:10-37 | `opposite` is its own inverse; the two pawn directions are +8 and -8 and opposite; the pawn start rank lies one pawn step in front of the back rank; the two back ranks are disjoint |
| Boards.ColorIndex | chess-core/src/board.rs:3-7 | `Color as usize` is 0 for White and 1 for Black |
| Boards.TypeIndex | chess-core/src/board.rs:39-47 | `PieceType as usize` is below 6 |
| Boards.TypeIndexInjective | chess-core/src/board.rs:39-47 | distinct piece types have distinct indices, and the index determines the type |
| Boards.TypeFromChar | chess-core/src/board.rs:51-61 | a letter that names a piece type is the letter `to_char` prints for that type in the colour of the letter's case |
| Boards.TypeToChar | chess-core/src/board.rs:63-76 | the letter is upper case exactly for White |
| Boards.PieceFromChar | chess-core/src/board.rs:90-97 | a letter that decodes to a piece is the letter of that piece's type in its colour |
| Boards.PieceToChar | chess-core/src/board.rs:99-101 | the letter of a piece decodes back to that piece |
| Boards.PieceCharRoundTrip | chess-core/src/board.rs:50-101 | `Piece::from_char(p.to_char())` is `p`; `from_char` succeeds exactly on the twelve letters PNBRQK/pnbrqk and `to_char` gives back the letter it read |
| Boards.File | chess-core/src/board.rs:136-139 | `file` (`index & 7`) is below 8 |
| Boards.Rank | chess-core/src/board.rs:141-144 | `rank` (`index >> 3`) is below 8 |
| Boards.NewSquare | chess-core/src/board.rs:108-110 | the index `rank * 8 + file` of a square on the board reads back that file in its low three bits and that rank above them |
| Boards.SquareCoordinates | chess-core/src/board.rs:108-144 | `Square::new(file, rank)` has that file and rank, and every square is `new` of its own file and rank |
| Boards.SquareFromAlgebraic | chess-core/src/board.rs:112-128 | `from_algebraic` succeeds only on text of exactly two bytes |
| Boards.SquareToAlgebraic | chess-core/src/board.rs:130-134 | `to_algebraic` of any `u8` index gives a file letter a-h and the character `'1'` plus the index divided by 8, which is a rank digit 1-8 for a square on the board; both characters are ASCII |
| Boards.SquareAlgebraicRoundTrip | chess-core/src/board.rs:112-134 | `from_algebraic(to_algebraic(s))` is `s` for every square |
| Boards.SquareAlgebraicCanonical | chess-core/src/board.rs:112-134 | text that parses, with letter and digit not below 'a' and '1', is printed back unchanged |
| Boards.SquareAlgebraicExamples | chess-core/src/board.rs:307-317 | a1, e4 and h8 parse to the squares the unit test names, and e4 prints as "e4" |
| Boards.SquareAlgebraicRejects | chess-core/src/board.rs:112-128 | "i9", a one-letter text and a three-letter text do not parse |
| Boards.SquareAlgebraicSaturates | chess-core/src/board.rs:120-121 | the saturating subtraction maps characters below 'a' and '1' to file a and rank 1, so "A1" parses as a1 |
| Boards.PieceAtOf | chess-core/src/board.rs:243-262 | `piece_at` returns the first piece, in colour-then-type order, whose bitboard holds the square, and None exactly when no bitboard holds it |
| Boards.PieceAtUnique | chess-core/src/board.rs:243-262 | on a board with one piece per square, `piece_at` finds piece p exactly when p's bitboard holds the square |
| Boards.FoundFirst | chess-core/src/board.rs:243-262 | the scan returns the first holder it meets |
| Boards.NoHolder | chess-core/src/board.rs:243-262 | when no bitboard holds the square, `piece_at` returns None |
| Boards.Board.PieceAt | chess-core/src/board.rs:243-262 | the nested loop over colours and piece types returns `PieceAtOf` of the board |
| Boards.ColorUnion | chess-core/src/board.rs:230-238 | OR-ing a colour's six bitboards gives the squares holding a piece of that colour |
| Boards.UnionsCover | chess-core/src/board.rs:230-241 | the union of the two colour unions holds the squares that hold any piece |
| Boards.Derive | chess-core/src/board.rs:230-241 | `update_derived` keeps the twelve piece bitboards |
| Boards.DeriveFacts | chess-core/src/board.rs:230-241 | after `update_derived`, occupied holds exactly the squares holding a piece, white and black exactly those of each colour, occupied is white or black, and empty is its complement |
| Boards.DerivedAgreesWithPieceAt | chess-core/src/board.rs:230-262 | a square is in occupied exactly when `piece_at` finds a piece there, and in empty exactly when it finds none |
| Boards.DerivedColorAgreesWithPieceAt | chess-core/src/board.rs:230-262 | an occupied square is in the white bitboard exactly when `piece_at` finds a white piece there |
| Boards.Board.UpdateDerived | chess-core/src/board.rs:230-241 | the method leaves the board equal to `Derive` of its piece bitboards |
| Boards.Board.New | chess-core/src/board.rs:189-197 | `Board::new` has no pieces, nothing occupied and every square empty, which is the derived state of the empty piece bitboards |
| Boards.EmptyBoardState | chess-core/src/board.rs:189-197 | deriving from the empty piece bitboards gives empty occupied, white and black bitboards and a full empty bitboard, the values `new` writes |
| Boards.SetPieceBits | chess-core/src/board.rs:264-283 | after `set_piece(s, p)` the bitboard of q holds s exactly when p is q, and every other square as before |
| Boards.SetPieceHere | chess-core/src/board.rs:264-283 | after `set_piece(s, p)`, `piece_at(s)` is p |
| Boards.SetPieceElsewhere | chess-core/src/board.rs:264-283 | `set_piece(s, p)` changes `piece_at` of no other square |
| Boards.SetPiecePreserves | chess-core/src/board.rs:264-283 | `set_piece` keeps one piece per square |
| Boards.Board.SetPiece | chess-core/src/board.rs:264-283 | the method clears the square from all twelve bitboards, sets it in the bitboard of the new piece, and rederives: the new state is `Derive(SetPieceOf(old pieces, s, p))` |
| Boards.Board.ClearEverywhere | chess-core/src/board.rs:265-277 | the loop over colours and types clears the square from each of the twelve bitboards and changes nothing else |
| Boards.SetPieceFromEntries | chess-core/src/board.rs:264-283 | twelve bitboards that are the old ones with the square cleared, and set in the new piece's bitboard, are `SetPieceOf` |
| Boards.Board.PieceBitboard | chess-core/src/board.rs:285-287 | `piece_bitboard` is the bitboard of that colour and type |
| Boards.Board.ColorBitboard | chess-core/src/board.rs:289-294 | on a consistent board, `color_bitboard` holds exactly the squares of that colour's pieces |
| Boards.StartingPieces | chess-core/src/board.rs:199-228 | the start position's piece bitboards place each piece on its starting squares: pawns on ranks 2 and 7, and the back ranks in the order R N B Q K B N R |
| Boards.Board.StartingPosition | chess-core/src/board.rs:199-228 | the constructor builds the start position and leaves it consistent |
| Boards.Board.PlacePawns | chess-core/src/board.rs:202-203 | writes rank 2 into the white pawns and rank 7 into the black pawns |
| Boards.Board.FillBackRanks | chess-core/src/board.rs:205-225 | the loop over the eight files sets the back-rank piece of that file on rank 1 for White and on rank 8 for Black |
| Boards.PartialStartStep | chess-core/src/board.rs:216-225 | one loop iteration adds the square of that file to the bitboard of its piece type, and to no other bitboard |
| Boards.StartingOnePerSquare | chess-core/src/board.rs:199-228 | the start position has one piece per square |
| Boards.StartingPieceAt | chess-core/src/board.rs:199-228 | in the start position `piece_at` finds exactly the piece that starts on the square |
| Boards.StartingWhiteKing | chess-core/src/board.rs:324-325 | the white king is on e1 |
| Boards.StartingBlackKing | chess-core/src/board.rs:326-327 | the black king is on e8 |
| Boards.StartingPawns | chess-core/src/board.rs:328-331 | every square of rank 2 holds a white pawn and every square of rank 7 a black pawn |
| Boards.StartingMiddleEmpty | chess-core/src/board.rs:333-334 | every square of ranks 3 to 6 is empty |
| Boards.StartingWhiteSquare | chess-core/src/board.rs:199-241 | the white bitboard holds exactly ranks 1 and 2 |
| Boards.StartingBlackSquare | chess-core/src/board.rs:199-241 | the black bitboard holds exactly ranks 7 and 8 |
| Boards.StartingEmptySquare | chess-core/src/board.rs:199-241 | the empty bitboard holds exactly ranks 3 to 6 |
| Boards.StartingWhiteCount | chess-core/src/board.rs:337 | the white bitboard counts 16 |
| Boards.StartingBlackCount | chess-core/src/board.rs:338 | the black bitboard counts 16 |
| Boards.StartingOccupiedCount | chess-core/src/board.rs:339 | the occupied bitboard counts 32 |
| Boards.StartingEmptyCount | chess-core/src/board.rs:340 | the empty bitboard counts 32 |
| Moves.PackFields | chess-core/src/moves.rs:10-40 | the packed word fits in a `u32`, and each field reads back from its bit position: from in bits 0-5, to in 6-11, the piece type in 12-14, the promotion in 16-18 and one flag bit each at 20, 21 and 22 |
| Moves.Pack | chess-core/src/moves.rs:10-40 | the fields of a packed move read back as written |
| Moves.From | chess-core/src/moves.rs:43-45 | the from-square is the low six bits: the word is it plus a multiple of 64 |
| Moves.To | chess-core/src/moves.rs:48-50 | the low twelve bits of the word are the from-square and then the to-square |
| Moves.IsPromotion | chess-core/src/moves.rs:65-67 | holds exactly when bit 20 is set, that is, when the word modulo 2^21 is at least 2^20 |
| Moves.IsEnPassant | chess-core/src/moves.rs:86-88 | holds exactly when bit 21 is set, that is, when the word modulo 2^22 is at least 2^21 |
| Moves.IsCastling | chess-core/src/moves.rs:91-93 | holds exactly when bit 22 is set, that is, when the word modulo 2^23 is at least 2^22 |
| Moves.NewMove | chess-core/src/moves.rs:10-15 | `Move::new` has the given squares and piece type, no flag set and no promotion piece |
| Moves.NewPromotion | chess-core/src/moves.rs:17-24 | `new_promotion` has the given squares and piece type, only the promotion flag, and the given promotion piece |
| Moves.NewEnPassant | chess-core/src/moves.rs:26-32 | `new_en_passant` is a pawn move with only the en passant flag |
| Moves.NewCastling | chess-core/src/moves.rs:34-40 | `new_castling` is a king move with only the castling flag |
| Moves.CastlingIgnoresColor | chess-core/src/moves.rs:34-40 | the colour argument of `new_castling` is unused: both colours give the same move |
| Moves.MovedType | chess-core/src/moves.rs:52-62 | `piece_type` decodes bits 12-14 (a well-formed move holds an index below 6 there) |
| Moves.PromotionPiece | chess-core/src/moves.rs:69-83 | `promotion_piece` is Some exactly when the promotion flag is set and bits 16-18 hold a type index, and it is that type |
| Moves.IsCapture | chess-core/src/moves.rs:96-99 | `is_capture` holds exactly when the destination is occupied or the move is en passant |
| Moves.PromotionChar | chess-core/src/moves.rs:107-113 | the suffix letter is n, b, r or q, and '?' exactly for a pawn or a king |
| Moves.ToAlgebraic | chess-core/src/moves.rs:102-120 | the text is the from-square then the to-square, with a fifth letter exactly when there is a promotion piece, all ASCII |
| Moves.PromotionFromChar | chess-core/src/moves.rs:133-139 | the suffix letters n, b, r, q, in either case, and nothing else, read as knight, bishop, rook, queen |
| Moves.PromotionCharRoundTrip | chess-core/src/moves.rs:107-139 | the letter printed for a knight, bishop, rook or queen reads back as that piece |
| Moves.FromAlgebraic | chess-core/src/moves.rs:122-147 | a parsed move has the two squares of the first four bytes and the given piece type, no en passant or castling flag, and is a promotion exactly when the text is five bytes long |
| Moves.FromAlgebraicRejects | chess-core/src/moves.rs:122-147 | fewer than four bytes, a square that does not parse, or a fifth byte that is no promotion letter give None |
| Moves.FromAlgebraicIgnoresTail | chess-core/src/moves.rs:122-147 | text of six bytes or more is read as a plain move from its first four bytes, whatever follows |
| Moves.PlainRoundTrip | chess-core/src/moves.rs:102-147 | a move without flags prints as text that parses back to the same move |
| Moves.PromotionRoundTrip | chess-core/src/moves.rs:102-147 | a promotion to a knight, bishop, rook or queen prints as text that parses back to the same move |
| Moves.FlagsNotPrinted | chess-core/src/moves.rs:102-147 | en passant and castling moves print as four letters, which parse back as a plain move with the flag lost |
| Moves.OddPromotionNotParsed | chess-core/src/moves.rs:102-147 | a promotion to a pawn or a king prints with the letter '?', which does not parse |
| Moves.AlgebraicExamples | chess-core/src/moves.rs:212-221 | e2-e4 prints as "e2e4", and its promotion to a queen as "e2e4q" |
| Positions.WhiteSquareNames | chess-core/src/position.rs:60-64 | the squares the source names "a1", "c1", "d1", "f1", "g1", "h1" are the constants the model uses |
| Positions.BlackSquareNames | chess-core/src/position.rs:67-71 | the squares the source names "a8", "c8", "d8", "f8", "g8", "h8" are the constants the model uses |
| Positions.RightsAfter | chess-core/src/position.rs:40-79 | `CastlingRights::update` only ever clears flags |
| Positions.RightsAfterFlags | chess-core/src/position.rs:40-79 | each flag survives exactly when it was set, the mover is not that colour's king, and the mover is not that colour's rook leaving the flag's corner; a White move never touches a Black flag and a Black move never touches a White flag |
| Positions.RightsAfterIdempotent | chess-core/src/position.rs:40-79 | updating the rights twice for the same move is the same as updating them once |
| Positions.Place | chess-core/src/board.rs:264-283 | `set_piece` on a board value leaves it consistent, with the given content on the square |
| Positions.PlaceElsewhere | chess-core/src/board.rs:264-283 | `set_piece` on a board value changes no other square |
| Positions.Relocate | chess-core/src/position.rs:396-399 | the `set_piece(from, None)`, `set_piece(to, Some(p))` pair leaves a consistent board with p on the destination |
| Positions.RelocateAt | chess-core/src/position.rs:396-399 | after the pair, the destination holds p, the origin is empty (unless it is the destination) and every other square is unchanged |
| Positions.RelocateKeepsOne | chess-core/src/position.rs:396-399 | the pair keeps one piece per square |
| Positions.CastlingRook | chess-core/src/position.rs:434-449 | a king landing on g1, c1, g8 or c8, and no other square, has a rook move: from and to on the king's rank, neither being the king's square |
| Positions.DoublePushTarget | chess-core/src/position.rs:388-394 | a pawn moving two ranks, and nothing else, leaves an en passant index: the origin's file and the rank one forward for the mover's colour, computed in `u8` arithmetic (a rank past 7 leaves an index of 64 or more, off the board); from an inner rank it is the square passed over |
| Positions.WrappingSquare | chess-core/src/board.rs:108-110 | `Square::new(file, rank)` with a `u8` rank: the index keeps the file and holds the rank modulo 32 |
| Positions.DoublePushOffBoard | chess-core/src/position.rs:388-394 | a White pawn moved two ranks from e8 leaves the index 68, off the board, and make_move does not panic on it |
| Positions.EnPassantVictim | chess-core/src/position.rs:410-414 | the cleared square is on the destination's file, never the destination; it is one rank behind it for the capturer's colour, and otherwise the square at the other end of the file, as a release build clears it |
| Positions.EnPassantVictimWrapped | chess-core/src/position.rs:410-414 | the cleared square is `Square::new(file, rank -/+ 1)` in `u8` arithmetic, taken modulo 64 as the shift in `clear_square` takes it |
| Positions.EnPassantVictimWraps | chess-core/src/position.rs:410-414 | a White capture onto e1 clears e8, and a Black capture onto e8 clears e1 |
| Positions.ExecuteMove | chess-core/src/position.rs:257-265 | executing a move leaves a consistent board; it fails exactly for a castling move to a square that is not a castling destination; only a normal move can leave an en passant square |
| Positions.NormalMoveBoard | chess-core/src/position.rs:382-400 | a normal move puts the mover on the destination, empties the origin and leaves every other square alone |
| Positions.PromotionBoard | chess-core/src/position.rs:458-469 | a promotion puts the promotion piece, in the mover's colour, on the destination, empties the origin and leaves every other square alone |
| Positions.EnPassantBoard | chess-core/src/position.rs:403-420 | en passant moves the pawn, empties the square `EnPassantVictim` names (behind the destination, or at the far end of the file for a capture onto the capturer's first rank), and leaves every other square alone |
| Positions.CastlingBoard | chess-core/src/position.rs:423-455 | castling moves the king, then moves whatever stands on the rook's corner to the rook's destination |
| Positions.FailedCastlingBoard | chess-core/src/position.rs:423-449 | a castling move to any other square fails with "Invalid castling move" after the king has already moved |
| Positions.ExecuteOccupiesTo | chess-core/src/position.rs:257-265 | after every successful execution the destination holds a piece |
| Positions.ExecuteKeepsOne | chess-core/src/position.rs:257-265 | executing a move keeps one piece per square |
| Positions.FinishMove | chess-core/src/position.rs:268-278 | the tail of `make_move` flips the side to move, raises the fullmove number after Black's move, and touches neither board, history, rights nor en passant square |
| Positions.MakeMoveOf | chess-core/src/position.rs:240-281 | `make_move` pushes a snapshot of the position, updates the rights against the board before the move, executes it, and fails exactly for a bad castling move; on failure the side, clocks and en passant square are left as the early return leaves them |
| Positions.HalfmoveAlwaysZero | chess-core/src/position.rs:268-272 | since the clock test reads the destination after the move, where a piece always stands, every successful move resets the halfmove clock to 0 |
| Positions.EnPassantAfterMove | chess-core/src/position.rs:253-265 | after a move the en passant index is set exactly for a two-rank pawn move, with the origin's file and the rank one forward in `u8` arithmetic, the square passed over when the origin is an inner rank |
| Positions.UndoOf | chess-core/src/position.rs:284-301 | `undo_move` fails with "No moves to undo" on an empty history and changes nothing; otherwise it pops the last snapshot, restores its board, rights, en passant square and halfmove clock, and flips the side |
| Positions.MakeUndoRoundTrip | chess-core/src/position.rs:240-301 | `undo_move` after a successful `make_move` gives back exactly the position before it |
| Positions.FailedCastlingUndo | chess-core/src/position.rs:240-301 | after a failed castling move, `undo_move` restores the board but flips the side that the failed move never flipped |
| Positions.PawnAttackers | chess-core/src/position.rs:343-346 | the pawn mask holds exactly the squares from which a pawn of the attacking colour attacks the square |
| Positions.KnightKingTestsDead | chess-core/src/position.rs:351-361 | on a consistent board the knight and king tests of `is_square_attacked` never fire: the attacker's own pieces are masked out of the targets they are tested against |
| Positions.SquareAttackedMeaning | chess-core/src/position.rs:336-379 | `is_square_attacked` reports exactly a pawn of the attacking colour attacking the square, or a bishop or queen on a diagonal ray, or a rook or queen on an orthogonal ray |
| Positions.PawnTermMeaning | chess-core/src/position.rs:343-349 | the pawn test fires exactly when an attacking pawn stands on a pawn-attack square |
| Positions.DiagonalTermMeaning | chess-core/src/position.rs:364-369 | the diagonal test fires exactly when a bishop or queen of the attacking colour is on a diagonal ray from the square |
| Positions.OrthogonalTermMeaning | chess-core/src/position.rs:371-376 | the orthogonal test fires exactly when a rook or queen of the attacking colour is on an orthogonal ray from the square |
| Positions.KnightCheckMissed | chess-core/src/position.rs:351-355 | a knight a jump away is not reported when the attacker has no pawn, bishop, rook or queen |
| Positions.IntendedSquareAttackedMeaning | chess-core/src/position.rs:336-379 | the corrected test reports everything the source's test does, plus a knight a jump away and a king a step away |
| Positions.KnightCheckIntended | chess-core/src/position.rs:351-355 | the corrected test reports every knight a jump away |
| Positions.E1D3KnightJump | chess-core/src/position.rs:351-355 | e1 and d3 are a knight's jump apart, the concrete case of the finding |
| Positions.KingSquare | chess-core/src/position.rs:330-333 | `find_king` finds a king exactly when the colour has one, and the square it returns holds that king |
| Positions.GameOverCases | chess-core/src/position.rs:315-327 | with a king on the board, a game is over exactly when it is checkmate or stalemate, and never both |
| Positions.IntendedHalfmoveCounts | chess-core/src/position.rs:268-272 | with the capture judged before the move, the clock is reset exactly by a pawn move or a capture, and a quiet piece move adds one |
| Game.Position.New | chess-core/src/position.rs:112-122 | `Position::new` is the start position, White to move, all four castling rights, no en passant square, halfmove clock 0, fullmove number 1 and an empty history |
| Game.Position.MakeMove | chess-core/src/position.rs:240-281 | the method, updating the board in place, leaves the position and result that `MakeMoveOf` gives for the old position |
| Game.MakeMoveParts | chess-core/src/position.rs:240-281 | `make_move` is: snapshot, rights update and en passant reset, then the execution, then the clock tail unless the execution failed |
| Game.Position.PushSnapshot | chess-core/src/position.rs:242-248 | pushes the board, rights, en passant square and halfmove clock onto the history and changes nothing else |
| Game.Position.UpdateCastlingRights | chess-core/src/position.rs:251 | replaces the rights by their update against the current board |
| Game.Position.ExecuteByKind | chess-core/src/position.rs:257-265 | dispatches on the flags (en passant, then castling, then promotion, else normal) and leaves the board, result and en passant index of `ExecuteMove` |
| Game.Position.ExecuteFlagged | chess-core/src/position.rs:257-263 | the en passant, castling and promotion arms leave the board, result and en passant index of `ExecuteMove` |
| Game.Position.ExecuteNormal | chess-core/src/position.rs:264-265 | the normal arm leaves the board and en passant index of `ExecuteMove`, and succeeds |
| Game.Position.MakeNormalMove | chess-core/src/position.rs:382-400 | moves the piece from the origin to the destination and records the en passant square of a two-rank pawn move |
| Game.NormalMoveParts | chess-core/src/position.rs:382-400 | a normal move is the relocation of the mover plus the en passant square of a double push |
| Game.Position.NoteDoublePush | chess-core/src/position.rs:388-394 | sets the en passant index, in `u8` arithmetic, exactly after a two-rank pawn move |
| Game.Position.MakeEnPassantMove | chess-core/src/position.rs:403-420 | moves the pawn, then clears the square `EnPassantVictim` names, on every board with a piece on the from-square |
| Game.Position.MakeCastlingMove | chess-core/src/position.rs:423-455 | moves the king, then the rook of the destination's corner, or fails with the king already moved |
| Game.Position.MakePromotionMove | chess-core/src/position.rs:458-469 | clears the origin and puts the promotion piece of the mover's colour on the destination |
| Game.Position.FinishClocks | chess-core/src/position.rs:268-278 | updates the halfmove clock, the fullmove number and the side to move as `FinishMove` says |
| Game.Position.UndoMove | chess-core/src/position.rs:284-301 | the method leaves the position and result that `UndoOf` gives for the old position |
| Game.Position.GenerateMoves | chess-core/src/position.rs:304-306 | the moves of the side to move on the current board |
| Game.Position.FindKing | chess-core/src/position.rs:330-333 | with a king of that colour on the board, returns the lowest square holding one |
| Game.Position.IsSquareAttacked | chess-core/src/position.rs:336-379 | the five tests in the source's order, with early returns, compute `SquareAttackedOf` |
| Game.Position.InCheck | chess-core/src/position.rs:309-312 | the king of the side to move is attacked by the other side |
| Game.Position.IsGameOver | chess-core/src/position.rs:315-317 | no move is generated for the side to move |
| Game.Position.IsCheckmate | chess-core/src/position.rs:320-322 | in check and no move generated |
| Game.Position.IsStalemate | chess-core/src/position.rs:325-327 | not in check and no move generated |
| Game.Position.AppendRank | chess-core/src/position.rs:173-190 | one pass over the files of a rank appends that rank's placement text |
| Game.PrintSquare | chess-core/src/position.rs:176-186 | one square of the scan: a piece flushes the pending run of empty squares and prints its letter, an empty square extends the run |
| Game.RowFenStep | chess-core/src/position.rs:176-186 | the rank text of a row is its first square's text followed by the rest, with the run of empty squares carried along |
| Game.Position.Placement | chess-core/src/position.rs:172-194 | the loop over ranks 8 down to 1, with '/' between them, prints the placement field of the board |
| Game.JoinFromStep | chess-core/src/position.rs:191-193 | each rank's text is followed by '/' except after rank 1 |
| Game.Position.CastlingField | chess-core/src/position.rs:204-220 | prints K, Q, k, q for the rights held, in that order, and '-' when none is held |
| Game.Position.ToFen | chess-core/src/position.rs:169-237 | `to_fen` prints the six fields, placement, side, castling, en passant, halfmove clock and fullmove number, separated by single spaces |
| Game.JoinedSix | chess-core/src/position.rs:196-234 | six fields joined by spaces are the fields with a space between each pair |
| Game.ParseFenCastling | chess-core/src/position.rs:517-535 | the loop over the castling field gives the result of `ParseCastling` |
| Game.ParseFenRank | chess-core/src/position.rs:488-510 | the loop over one rank's text places its pieces on the board in place, or reports the error the rank text gives |
| Game.ParseRankOutcome | chess-core/src/position.rs:487-511 | a rank that fails fails the whole placement; a rank that parses hands its board on to the next rank |
| Game.ParseFenBoard | chess-core/src/position.rs:479-514 | `parse_fen_board` fails exactly as `ParseBoardOf` does and otherwise returns a fresh board whose state is its result |
| Game.FromFen | chess-core/src/position.rs:125-166 | `from_fen` fails exactly as `ParseFen` does and otherwise returns a fresh position whose value is its result |
| Game.Position.Of | chess-core/src/position.rs:157-165 | the position `from_fen` assembles holds the parsed fields and an empty history |
| Fen.FenRoundTrip | chess-core/src/position.rs:125-237 | on a consistent board with one piece per square and an en passant square on the board, `from_fen(to_fen(p))` gives back every field of `p`, the history being empty |
| Fen.FenWords | chess-core/src/position.rs:169-237 | splitting the printed text at whitespace gives back its six fields |
| Fen.ParseFenFields | chess-core/src/position.rs:125-166 | text whose words are the six fields of a position, each of which parses back, parses to that position |
| Fen.BoardFenRoundTrip | chess-core/src/position.rs:172-193 | parsing the printed placement of a consistent board with one piece per square gives back that board |
| Fen.SplitBoardFen | chess-core/src/position.rs:172-193 | the placement field holds only placement characters and splits at '/' into the eight rank texts, rank 8 first |
| Fen.JoinRanksSplit | chess-core/src/position.rs:190-192 | texts without '/' joined by '/' split back into the same texts |
| Fen.RowFenChars | chess-core/src/position.rs:174-189 | a printed rank uses only digits and piece letters and holds no '/' |
| Fen.RowParse | chess-core/src/position.rs:488-510 | parsing a printed rank places exactly that rank's pieces on the board |
| Fen.RowParsePiece | chess-core/src/position.rs:488-510 | the parse of a rank whose next square holds a piece reads the pending digit, places the piece and goes on with the rest |
| Fen.ParseDigit | chess-core/src/position.rs:496-497 | a digit in a rank skips that many files |
| Fen.ParsePiece | chess-core/src/position.rs:498-501 | a piece letter in a rank sets that piece on the current file and moves to the next file |
| Fen.RowParseEnd | chess-core/src/position.rs:187-189 | the trailing run of empty squares of a printed rank parses to the board unchanged |
| Fen.RanksParse | chess-core/src/position.rs:486-511 | parsing the printed ranks one after the other places every printed row |
| Fen.PlaceRowBits | chess-core/src/position.rs:488-510 | after placing a row, a square holds a piece exactly when the row puts it there, or, for squares the row leaves alone, when it held it before |
| Fen.PlaceRanksBits | chess-core/src/position.rs:486-511 | after placing the ranks from the i-th on, each square of those ranks holds the row's piece and every other square is unchanged |
| Fen.PlaceAll | chess-core/src/position.rs:479-514 | placing all rows of a board with one piece per square onto an empty board gives back that board's bitboards |
| Fen.RowsAt | chess-core/src/position.rs:173-177 | the row read for the printout holds, at each square, that square's piece |
| Fen.WordsJoined | chess-core/src/position.rs:126 | non-empty words without whitespace joined by single spaces split back at whitespace into the same words |
| Fen.FieldsAreWords | chess-core/src/position.rs:169-237 | each of the six printed fields is non-empty and holds no whitespace |
| Fen.CastlingRoundTrip | chess-core/src/position.rs:204-220 | parsing the printed castling field gives back the rights |
| Fen.CastlingFlagStep | chess-core/src/position.rs:524-531 | a printed castling letter grants its right when parsed, and no letter leaves the rights as they were |
| Fen.SideRoundTrip | chess-core/src/position.rs:132-136 | parsing the printed side to move gives it back |
| Fen.EpRoundTrip | chess-core/src/position.rs:139-146 | parsing the printed en passant field of a square on the board, or of none, gives it back |
| Fen.EpOffBoardRefused | chess-core/src/position.rs:139-146 | an en passant index off the board prints as a name whose rank character is past '8', which `from_fen` refuses with "Invalid en passant square" |
| Fen.FenRefusesOffBoardEp | chess-core/src/position.rs:125-237 | a position holding an off-board en passant index prints a FEN text that `from_fen` refuses |
| Fen.ParseFenEpRefused | chess-core/src/position.rs:139-146 | a text whose en passant field does not parse is refused by `from_fen` |
| Text.IncU32 | chess-core/src/position.rs:268-277 | adding one to a `u32` clock gives the successor below 2^32 (and wraps, as a release build does, at the top) |
| Text.DecU32 | chess-core/src/position.rs:293-295 | subtracting one from a positive `u32` gives its predecessor |
| Text.IncDecU32 | chess-core/src/position.rs:268-295 | the wrapping increment and decrement of a `u32` undo each other |
| Text.WordLen | chess-core/src/position.rs:126 | the first word of a text is its longest prefix without whitespace, followed by whitespace or the end |
| Text.Words | chess-core/src/position.rs:126 | `split_whitespace` yields non-empty words without whitespace |
| Text.WordsCons | chess-core/src/position.rs:126 | a word followed by a space and a rest splits into that word and the words of the rest |
| Text.WordsSingle | chess-core/src/position.rs:126 | a single word splits into itself |
| Text.Split | chess-core/src/position.rs:481 | `split('/')` yields at least one piece |
| Text.SplitNone | chess-core/src/position.rs:481 | a text without the separator splits into itself alone |
| Text.SplitCons | chess-core/src/position.rs:481 | a piece without the separator, the separator and a rest split into that piece and the pieces of the rest |
| Text.DigitChar | chess-core/src/position.rs:179 | the digit printed for a value below ten reads back as that value |
| Text.NatToString | chess-core/src/position.rs:232-234 | `to_string` of a number prints at least one decimal digit, and a single digit below ten |
| Text.DecimalOfString | chess-core/src/position.rs:232-234 | the printed decimal digits of a number read back as the number |
| Text.ParseU32 | chess-core/src/position.rs:148-155 | `parse::<u32>` accepts only values below 2^32 |
| Text.ParseU32RoundTrip | chess-core/src/position.rs:148-155 | a `u32` printed in decimal parses back to itself |
| Text.ParseU32Lenient | chess-core/src/position.rs:148-155 | a leading '+' or a leading zero is accepted and changes nothing |
| Text.ParseU32Rejects | chess-core/src/position.rs:148-155 | the empty text, a lone '+' and any text starting with '-' are refused |
| Text.ParseU32Overflow | chess-core/src/position.rs:148-155 | a number of 2^32 or more is refused |
| Text.DecimalLeadingZero | chess-core/src/position.rs:148-155 | a leading zero does not change the value of a digit string |
| Magic.RookMask | chess-core/src/magic.rs:116-134 | the rook mask holds exactly the inner squares of the square's rank and file (files and ranks 1 to 6), never the square itself, 10 to 12 squares |
| Magic.RookMaskBits | chess-core/src/magic.rs:116-134 | its squares are the rook mask's, and it counts 12 less one for an inner file and one for an inner rank |
| Magic.RookRankPartElems | chess-core/src/magic.rs:121-125 | after the rank loop up to file `f`, the mask holds the rank's files 1 to `f - 1` other than the square's own |
| Magic.RookRankPartCount | chess-core/src/magic.rs:121-125 | the rank loop adds one square per file it passes other than the square's own |
| Magic.RookFilePartElems | chess-core/src/magic.rs:127-131 | the file loop adds to the rank part the file's ranks 1 to `r - 1` other than the square's own |
| Magic.RookFilePartCount | chess-core/src/magic.rs:127-131 | the file loop adds one new square per rank it passes other than the square's own |
| Magic.BishopMask | chess-core/src/magic.rs:136-151 | the mask holds exactly the squares (k, k) for k from 1 to 6 on the square's diagonals, so only squares of the a1-h8 diagonal, at most 6 of them, never the square itself |
| Magic.BishopMaskBits | chess-core/src/magic.rs:136-151 | its squares are those of `bishop_mask` and there are at most 6 |
| Magic.BishopMaskDiagonal | chess-core/src/magic.rs:141-147 | every square of `bishop_mask` lies on the a1-h8 diagonal, between b2 and g7 |
| Magic.BishopPartElems | chess-core/src/magic.rs:141-147 | after the zipped loop up to `i`, the mask holds the squares (k, k), k below `i`, on a diagonal of the square |
| Magic.RookShift | chess-core/src/magic.rs:153-156 | the rook shift is 64 minus the mask's popcount, between 52 and 54 |
| Magic.BishopShift | chess-core/src/magic.rs:158-161 | the bishop shift is 0 exactly when the mask is empty, and otherwise 64 minus the popcount, at least 58 |
| Magic.WrappingMul | chess-core/src/magic.rs:60 | `wrapping_mul` on `u64` stays below 2^64 |
| Magic.IndexBound | chess-core/src/magic.rs:60 | the masked, multiplied and shifted index is below 2 to the power of the mask's popcount, whatever the magic number |
| Magic.IndexRelevant | chess-core/src/magic.rs:60 | the index depends only on the occupancy inside the mask |
| Magic.RookRelevant | chess-core/src/magic.rs:116-134 | the rook attacks depend only on the occupancy inside the rook mask |
| Magic.IntendedBishopMaskHas | chess-core/src/magic.rs:136-151 | the corrected bishop mask holds every inner square of the four diagonal rays |
| Magic.IntendedBishopMaskCount | chess-core/src/magic.rs:136-151 | the corrected bishop mask has at most 9 squares, so a row of 512 entries fits it |
| Magic.BishopRelevant | chess-core/src/magic.rs:136-151 | the bishop attacks depend only on the occupancy inside the corrected bishop mask |
| Magic.BishopMaskB1Empty | chess-core/src/magic.rs:136-151 | `bishop_mask` of b1 is empty |
| Magic.BishopMaskMissesBlocker | chess-core/src/magic.rs:65-73 | on b1 a blocker on c2 hashes to the same slot as the empty board, although it changes whether d3 is attacked |
| Magic.MaskFits | chess-core/src/magic.rs:43-44 | 2 to the power of every mask's popcount fits the row, 4096 for rooks and 512 for bishops |
| Magic.Key | chess-core/src/magic.rs:60 | the slot of an occupancy is always inside the row |
| Magic.Store | chess-core/src/magic.rs:86-87 | one step of the init loop writes the attacks of the current subset into its slot and changes no other slot |
| Magic.NextSubsetStored | chess-core/src/magic.rs:89-93 | when the next subset is not 0, it is larger, and every subset below it already has its slot |
| Magic.LastSubsetStored | chess-core/src/magic.rs:89-93 | when the next subset is 0, every subset of the mask has its slot |
| Magic.BuiltFromBelow | chess-core/src/magic.rs:84-94 | once every subset below a bound has its slot and every subset is below it, the row is built |
| Magic.FillRow | chess-core/src/magic.rs:84-94 | the loop over all subsets of the mask, from 0 back to 0, leaves every subset's slot holding the attacks of a subset with the same slot |
| Magic.InitAttacks | chess-core/src/magic.rs:79-114 | `init_rook_attacks` and `init_bishop_attacks` build the square's row over `rook_mask` or `bishop_mask` as written, with the square's magic number and shift |
| Magic.SliderMask | chess-core/src/magic.rs:116-151 | the mask the init loop uses: `rook_mask`, `bishop_mask` (exactly the squares `bishop_mask` sets), or the corrected bishop mask |
| Magic.SliderAttacks | chess-core/src/magic.rs:163-246 | `rook_attacks` and `bishop_attacks` give the ray-scan attacks of the occupancy |
| Magic.MaskedOccupancy | chess-core/src/magic.rs:60 | masking the occupancy leaves a subset of the mask with the same slot, holding exactly the occupied squares inside the mask |
| Magic.BuiltSlot | chess-core/src/magic.rs:61 | in a built row with a collision-free magic, the slot of a subset of the mask holds its attacks |
| Magic.LookupCorrect | chess-core/src/magic.rs:55-73 | in a built row with a collision-free magic, the slot of any occupancy holds the ray-scan attacks of the occupied squares inside the mask; for the rook table and the corrected bishop table, that is the attacks of the whole occupancy |
| Magic.SliderShift | chess-core/src/magic.rs:153-161 | the shift the init loop uses is 64 minus the mask's popcount, and 0 exactly when the mask is empty |
| Magic.MaskRelevant | chess-core/src/magic.rs:116-134 | for the rook mask and the corrected bishop mask, the attacks over the masked occupancy equal the attacks over the whole occupancy |
| Magic.EmptyMaskGood | chess-core/src/magic.rs:70 | with an empty mask the only subset is the empty board, so every magic number is collision-free |
| Magic.EmptyMaskLookup | chess-core/src/magic.rs:65-73 | where `bishop_mask` is empty, the built bishop table answers every occupancy with the empty-board attacks, whatever the magic number |
| Magic.BishopTableB1 | chess-core/src/magic.rs:65-73 | the bishop table as built, read on b1 with c2 occupied, reports d3, which the ray scan does not attack |
| Magic.IntendedBishopLookup | chess-core/src/magic.rs:65-73 | the corrected bishop table, built with a collision-free magic, gives the full ray-scan bishop attacks of any occupancy |
| Magic.ShiftedBelow | chess-core/src/magic.rs:60 | a 64-bit value shifted right by 64 minus `count` is below 2^count |
| MagicTables.NewRows | chess-core/src/magic.rs:43-44 | 64 distinct fresh rows of empty bitboards |
| MagicTables.AttackTables.constructor | chess-core/src/magic.rs:43-44 | every entry of both tables starts empty, and no two rows are the same array |
| MagicTables.InitSquare | chess-core/src/magic.rs:49-50 | builds the square's rook row over `rook_mask` and its bishop row over `bishop_mask`, each with the square's magic number |
| MagicTables.AttackTables.Init | chess-core/src/magic.rs:46-53 | after `init` every rook row and every bishop row is built over its mask as written |
| MagicTables.AttackTables.GetRookAttacks | chess-core/src/magic.rs:55-63 | returns the slot of the masked occupancy; once the tables are built and the magic is collision-free, that is the rook's ray-scan attacks |
| MagicTables.AttackTables.GetBishopAttacks | chess-core/src/magic.rs:65-73 | returns the slot of the occupancy masked by `bishop_mask`; once the tables are built and the magic is collision-free, that is the ray-scan bishop attacks of the occupied squares inside `bishop_mask`; where that mask is empty (b1, for one), it is the empty-board attacks whatever the magic |
| MagicTables.AttackTables.GetQueenAttacks | chess-core/src/magic.rs:75-77 | the union of the rook slot and the bishop slot, which is then the rook's attacks of the whole occupancy joined with the bishop's attacks of the occupancy inside `bishop_mask` |
| Subsets.NextSubset | chess-core/src/magic.rs:90 | `(occupancy - mask) & mask`, with wrap-around, stays inside the mask |
| Subsets.NextSubsetBits | chess-core/src/magic.rs:90 | the carry-rippler step sets the lowest mask bit missing from the occupancy, clears the mask bits below it and keeps those above |
| Subsets.NextSubsetSuccessor | chess-core/src/magic.rs:90 | from a subset other than the mask, the step gives a larger non-empty subset with no subset in between |
| Subsets.NoSubsetBetween | chess-core/src/magic.rs:90 | no subset of the mask lies strictly between a subset and its successor |
| Subsets.NextSubsetLast | chess-core/src/magic.rs:90-93 | the step from the full mask gives 0, which ends the init loop |
| Subsets.NextSubsetStep | chess-core/src/magic.rs:89-93 | either the step gives 0 and the current subset is the largest, or it gives the next larger subset |
| Subsets.SubsetsBelowMask | chess-core/src/magic.rs:90-93 | every subset of the mask is at most the mask, as a number |
| Subsets.WrappedDifferenceValue | chess-core/src/magic.rs:90 | the wrapped difference of a subset and its mask is the occupancy with the mask's holes filled, plus one |
| Subsets.Increment | chess-core/src/magic.rs:90 | adding one flips the trailing ones to zeros and the first zero to one |
| Subsets.DiffOrder | chess-core/src/magic.rs:90 | of two different bit strings, the one with the highest differing bit set is the larger |
| Subsets.ToNatInjective | chess-core/src/magic.rs:90 | two bit strings of the same length with the same value are equal |
| Rays.ScanRay | chess-core/src/magic_simple.rs:9-15 | one loop of the scan adds, to the attacks so far, the squares of the ray up to and including the first occupied one |
| Rays.GetRookAttacks | chess-core/src/magic_simple.rs:4-46 | the rook attacks are the four orthogonal rays, each stopped by its first blocker |
| Rays.GetBishopAttacks | chess-core/src/magic_simple.rs:48-89 | the bishop attacks are the four diagonal rays, each stopped by its first blocker |
| Rays.GetQueenAttacks | chess-core/src/magic_simple.rs:91-93 | the queen attacks are the rook attacks together with the bishop attacks |
| Rays.RayMember | chess-core/src/magic_simple.rs:9-15 | a square is on a ray exactly when it lies in the ray's direction and no square before it is occupied |
| Rays.ScanStep | chess-core/src/magic_simple.rs:9-15 | an occupied square ends the ray; an empty one is added and the scan goes on |
| Rays.RayStopsAtBlocker | chess-core/src/magic_simple.rs:12-14 | the first blocker is attacked and no square beyond it is |
| Rays.RayShape | chess-core/src/magic_simple.rs:9-15 | a ray square is not the start and lies the right number of steps along the direction |
| Rays.RookAttacksShape | chess-core/src/magic_simple.rs:4-46 | rook attacks share the rank or the file of the square and never include it |
| Rays.BishopAttacksShape | chess-core/src/magic_simple.rs:48-89 | bishop attacks lie on a diagonal of the square and never include it |
| Rays.RookEmptyBoard | chess-core/src/magic_simple.rs:4-46 | on an empty board a rook attacks exactly the other squares of its rank and file |
| Rays.BishopEmptyBoard | chess-core/src/magic_simple.rs:48-89 | on an empty board a bishop attacks exactly the other squares of its diagonals |
| Rays.RookAttacksLocal | chess-core/src/magic_simple.rs:4-46 | the rook attacks depend only on the occupancy of the square's rank and file |
| Rays.BishopAttacksLocal | chess-core/src/magic_simple.rs:48-89 | the bishop attacks depend only on the occupancy of the square's diagonals |
| Rays.RookEmptyExample | chess-core/src/magic_simple.rs:104-110 | a rook on a1 attacks b1 and a2 but not b2 on an empty board |
| Rays.RookBlockedExample | chess-core/src/magic_simple.rs:112-116 | with b1 occupied a rook on a1 attacks b1 but not c1 |
| Rays.BishopEmptyExample | chess-core/src/magic_simple.rs:120-125 | a bishop on a1 attacks b2 and not b1 on an empty board |
| Rays.BishopBlockedExample | chess-core/src/magic_simple.rs:127-131 | with b2 occupied a bishop on a1 attacks b2 but not c3 |
| Rays.B1DiagonalBlocked | chess-core/src/magic_simple.rs:48-89 | a bishop on b1 attacks d3 on an empty board but not with c2 occupied |
| Rays.RayFromLocal | chess-core/src/magic_simple.rs:9-15 | a ray depends only on the occupancy of its own squares |
| MoveGen.KnightIndex | chess-core/src/movegen.rs:200-227 | an offset is one of the eight knight offsets exactly when it is two squares one way and one the other, and then its index names it |
| MoveGen.KnightBitsElems | chess-core/src/movegen.rs:200-227 | after the first `i` offsets, the attacks are the on-board targets of those offsets |
| MoveGen.ComputeKnightAttacks | chess-core/src/movegen.rs:200-227 | the loop over the eight offsets, skipping those off the board, computes the knight's targets |
| MoveGen.KnightBitsJumps | chess-core/src/movegen.rs:200-227 | those targets are exactly the squares a knight's jump reaches |
| MoveGen.KnightAttacks | chess-core/src/movegen.rs:11-17 | a KNIGHT_ATTACKS entry holds exactly the squares a knight jump away |
| MoveGen.KingStepLemma | chess-core/src/movegen.rs:233-249 | one step of the two nested loops adds the neighbour at that offset when it is on the board and not the square itself |
| MoveGen.ComputeKingAttacks | chess-core/src/movegen.rs:230-252 | the nested loops over the offsets -1 to 1 compute exactly the eight neighbours on the board |
| MoveGen.KingAttacks | chess-core/src/movegen.rs:20-26 | a KING_ATTACKS entry holds exactly the squares one king step away |
| MoveGen.InitKnightAttacks | chess-core/src/movegen.rs:11-17 | the table holds the knight attacks of every square |
| MoveGen.InitKingAttacks | chess-core/src/movegen.rs:20-26 | the table holds the king attacks of every square |
| MoveGen.KnightTableExample | chess-core/src/movegen.rs:268-275 | a knight on b1 attacks d2, a3 and c3 but not a1 |
| MoveGen.KingTableExample | chess-core/src/movegen.rs:278-287 | a king on e1 attacks d1, f1, d2, e2 and f2 but not a1 |
| MoveGen.PawnSquares | chess-core/src/movegen.rs:102-162 | the index offsets ±8, ±16, ±7 and ±9 are the square ahead, two ahead and the two diagonals, when the file guard holds |
| MoveGen.WhitePawnIndex | chess-core/src/movegen.rs:107-132 | a white pawn targets the empty square ahead, the empty square two ahead from rank 2 with the square between empty, and a black piece on a forward diagonal |
| MoveGen.BlackPawnIndex | chess-core/src/movegen.rs:133-158 | a black pawn targets the same squares mirrored: ahead is down, the double push starts on rank 7, captures take white pieces |
| MoveGen.WhitePawnMoves | chess-core/src/movegen.rs:107-132 | the white branch sets exactly the white pawn targets |
| MoveGen.BlackPawnMoves | chess-core/src/movegen.rs:133-158 | the black branch sets exactly the black pawn targets |
| MoveGen.GeneratePawnMoves | chess-core/src/movegen.rs:102-162 | `generate_pawn_moves` sets exactly the pawn targets of the side |
| MoveGen.GenerateKnightMoves | chess-core/src/movegen.rs:165-167 | knight targets are the jumps not onto a piece of the same colour |
| MoveGen.GenerateKingMoves | chess-core/src/movegen.rs:195-197 | king targets are the steps not onto a piece of the same colour |
| MoveGen.GenerateBishopAttacks | chess-core/src/movegen.rs:175-177 | the bishop attacks over the whole occupancy |
| MoveGen.GenerateRookAttacks | chess-core/src/movegen.rs:185-187 | the rook attacks over the whole occupancy |
| MoveGen.GenerateBishopMoves | chess-core/src/movegen.rs:170-172 | bishop targets are its attacks less the squares of its own colour |
| MoveGen.GenerateRookMoves | chess-core/src/movegen.rs:180-182 | rook targets are its attacks less the squares of its own colour |
| MoveGen.GenerateQueenMoves | chess-core/src/movegen.rs:190-192 | queen targets are the rook and bishop attacks less the squares of its own colour |
| MoveGen.GeneratePieceMoves | chess-core/src/movegen.rs:79-99 | the targets of a piece type from a square never hold a piece of the mover's colour |
| MoveGen.IsPromotionRank | chess-core/src/movegen.rs:255-261 | a square is a promotion square exactly when it is on the opponent's back rank |
| MoveGen.BitsOf | chess-core/src/movegen.rs:170-192 | a bitboard holding exactly the squares of a set |
| MoveGen.PushTarget | chess-core/src/movegen.rs:47-67 | one target appends four promotions for a pawn reaching the last rank and one plain move otherwise |
| MoveGen.PushTargets | chess-core/src/movegen.rs:45-68 | the loop over the targets appends their moves in ascending target order |
| MoveGen.PieceTargets | chess-core/src/movegen.rs:44-45 | the targets of one piece, in ascending order |
| MoveGen.PushPieces | chess-core/src/movegen.rs:43-69 | the loop over the pieces of a type appends their moves in ascending order of origin |
| MoveGen.GenerateMoves | chess-core/src/movegen.rs:30-76 | `generate_moves` returns the move list `GeneratedMoves` gives, pieces by type then square, targets by square |
| MoveGen.PromotionsOrder | chess-core/src/movegen.rs:48-60 | the promotions come as knight, bishop, rook, queen |
| MoveGen.ExpandFacts | chess-core/src/movegen.rs:47-67 | a target's moves leave the origin for the target with the moving type, are never en passant or castling, and promote exactly on a pawn's last rank |
| MoveGen.GeneratedMovesMember | chess-core/src/movegen.rs:30-76 | a move is generated exactly when a piece of the side is on its origin, its target is among that piece's targets, and the move is one of the target's expansions |
| MoveGen.GeneratedMoveFacts | chess-core/src/movegen.rs:30-76 | a generated move moves a piece of the side to a square it reaches that holds none of its own pieces, is neither en passant nor castling, and promotes exactly on a pawn's last rank |
| MoveGen.GeneratedPromotionPiece | chess-core/src/movegen.rs:48-60 | a generated promotion names a piece other than a pawn or a king |
| MoveGen.GeneratedMoveDistinct | chess-core/src/movegen.rs:325-327 | on a consistent board a generated move never has the same origin and destination |
| MoveGen.PlainMoveGenerated | chess-core/src/movegen.rs:61-67 | every target of a piece that is not a pawn reaching its last rank gives a plain move |
| MoveGen.PromotionsGenerated | chess-core/src/movegen.rs:47-60 | a pawn reaching its last rank gives all four promotions and no plain move |
| MoveGen.PawnPushNotGenerated | chess-core/src/movegen.rs:47-60 | a pawn move to the last rank without a promotion is never generated |
| MoveGen.PieceTypesComplete | chess-core/src/movegen.rs:34-41 | the loop visits every piece type |
| MoveGen.GeneratedMovesOrdered | chess-core/src/movegen.rs:30-76 | the move list is sorted by piece type, then origin, then destination |
| MoveGen.FlatMapMember | chess-core/src/movegen.rs:43-69 | a move is in the concatenation exactly when some element contributes it |
| Evaluation.MaterialValue | chess-core/src/evaluate.rs:9-16 | every piece is worth between 100 (a pawn) and 20000 (a king) |
| Evaluation.MaterialScore | chess-core/src/evaluate.rs:80-99 | the loop over the six types sums, per type, the white count less the black count times the type's value |
| Evaluation.MaterialSwap | chess-core/src/evaluate.rs:80-99 | swapping the colours of all pieces negates the material score |
| Evaluation.MaterialTermSwap | chess-core/src/evaluate.rs:91-95 | swapping colours negates each type's term |
| Evaluation.MaterialTerms | chess-core/src/evaluate.rs:83-96 | the material score is the sum of the six types' terms |
| Evaluation.SwapColors | chess-core/src/evaluate.rs:80-99 | the board with every white piece made black and every black piece made white |
| Evaluation.LoneQueenMaterial | chess-core/src/evaluate.rs:244-256 | a board with one white queen and nothing else scores 900 |
| Evaluation.Table | chess-core/src/evaluate.rs:19-59 | each piece-square table has 64 entries |
| Evaluation.BlackMirrorsWhite | chess-core/src/evaluate.rs:139-153 | a black piece on a square reads the white entry of the square 63 minus it, and the other way round |
| Evaluation.SquareSumStep | chess-core/src/evaluate.rs:115-117 | adding one more square to the loop adds that square's table value |
| Evaluation.AddSquares | chess-core/src/evaluate.rs:114-117 | the inner white loop adds the table values of the squares of a bitboard |
| Evaluation.SubtractSquares | chess-core/src/evaluate.rs:129-132 | the inner black loop subtracts the mirrored table values of the squares of a bitboard |
| Evaluation.PieceSquareScore | chess-core/src/evaluate.rs:102-136 | the white table values summed over all white pieces, less the black ones over all black pieces |
| Evaluation.Evaluate | chess-core/src/evaluate.rs:62-77 | `evaluate` gives material plus piece-square score, negated when Black is to move |
| Evaluation.SidesDisagree | chess-core/src/evaluate.rs:72-74 | the same board scores the opposite for Black to move as for White to move |
| Evaluation.IsInsufficientMaterial | chess-core/src/evaluate.rs:156-209 | two occupied squares are always insufficient; three are insufficient exactly when a side with two pieces has exactly one bishop or one knight against a side with one; anything else is not |
| Evaluation.IsThreefoldRepetition | chess-core/src/evaluate.rs:212-226 | true exactly when there are at least six entries and one of them occurs three times |
| Search.MaxValue | chess-core/src/search.rs:139-141 | the larger of two values, one of them |
| Search.LeOrder | chess-core/src/search.rs:134-141 | the order on values, with the two infinities at the ends, is a total order |
| Search.NegProps | chess-core/src/search.rs:132 | negation reverses the order and undoes itself |
| Search.ClampNeg | chess-core/src/search.rs:132 | clamping a negated value to (alpha, beta) is the negation of clamping it to (-beta, -alpha) |
| Search.ClampStep | chess-core/src/search.rs:134-141 | a child scoring at least beta cuts off at beta; one inside the window raises alpha to it; one at or below alpha leaves the window |
| Search.OrderBy | chess-core/src/search.rs:115-124 | the sorted moves are the same moves, as many as before |
| Search.OrderByDescending | chess-core/src/search.rs:124 | the sorted moves come in non-increasing order of their score |
| Search.ScoredPairs | chess-core/src/search.rs:115-121 | each move is paired with its own score, in the original order |
| Search.Captures | chess-core/src/search.rs:167-171 | the filter keeps exactly the generated moves that are captures |
| Search.QBest | chess-core/src/search.rs:184-199 | the best capture value is never plus infinity |
| Search.BestIsMax | chess-core/src/search.rs:126-144 | the best child value bounds every child and is one of them, or there is no child |
| Search.QBestIsMax | chess-core/src/search.rs:184-199 | the best capture value bounds every capture's child and is one of them, or there is none |
| Search.BestSameMoves | chess-core/src/search.rs:124 | the best child value does not depend on the order of the moves |
| Search.QBestSameMoves | chess-core/src/search.rs:182 | the best capture value does not depend on the order of the captures |
| Search.QuiescenceSound | chess-core/src/search.rs:148-202 | quiescence search with alpha below beta returns the capture-only negamax value of the position clamped to (alpha, beta) |
| Search.QChildSound | chess-core/src/search.rs:190 | the negated child search agrees, clamped, with the child's value |
| Search.QLoopSound | chess-core/src/search.rs:184-201 | the loop over the captures returns the best capture value clamped to the window |
| Search.StandPatWindow | chess-core/src/search.rs:156-164 | raising alpha to the static evaluation is the same as taking the evaluation into the maximum |
| Search.AlphaBetaSound | chess-core/src/search.rs:94-145 | alpha-beta with alpha below beta agrees with the negamax value clamped to the window, and equals it outright at the horizon or on a live position |
| Search.ChildSound | chess-core/src/search.rs:132 | the negated child search agrees, clamped, with the child's negamax value |
| Search.AbLoopSound | chess-core/src/search.rs:126-144 | the loop over the moves returns the best child value clamped to the window |
| Search.QuiescenceStandPat | chess-core/src/search.rs:154-160 | an evaluation of at least beta returns beta at once, counting one quiescence node |
| Search.QuiescenceStart | chess-core/src/search.rs:154-182 | otherwise the loop runs over the ordered captures from the raised alpha, after counting one quiescence node |
| Search.QLoopSkip | chess-core/src/search.rs:185-188 | a capture that make_move refuses is skipped |
| Search.QLoopTake | chess-core/src/search.rs:190-198 | a capture scoring at least beta returns beta, else alpha rises to its score and the loop goes on |
| Search.QuiescenceSearch | chess-core/src/search.rs:148-202 | the method returns the score and the statistics `QuiescenceOf` gives |
| Search.AlphaBetaHorizon | chess-core/src/search.rs:101-106 | at depth 0 alpha-beta counts a node and returns the quiescence search |
| Search.AlphaBetaOver | chess-core/src/search.rs:108-110 | on a finished game alpha-beta counts a node and returns the game-over score |
| Search.AlphaBetaStart | chess-core/src/search.rs:112-126 | otherwise it counts a node and runs the loop over the ordered moves |
| Search.AbLoopSkip | chess-core/src/search.rs:127-130 | a move that make_move refuses is skipped |
| Search.AbLoopTake | chess-core/src/search.rs:132-141 | a move scoring at least beta counts a cutoff and returns beta, else alpha rises to its score and the loop goes on |
| Search.AlphaBeta | chess-core/src/search.rs:94-145 | the method returns the score and the statistics `AlphaBetaOf` gives |
| Search.SearchMoves | chess-core/src/search.rs:126-144 | the method's loop returns what the move loop gives |
| Search.TallyPlus | chess-core/src/search.rs:99 | adding two counts to the statistics one after the other adds their sum |
| Search.RootResults | chess-core/src/search.rs:67-78 | each root move yields the make_move error or the child's alpha-beta result over the full window |
| Search.FirstBestBound | chess-core/src/search.rs:79-82 | the best score is at least the start and every move's score |
| Search.FirstBestChoice | chess-core/src/search.rs:79-82 | the best move is the first one scoring strictly more than all before it and the start, or none when nothing beats the start |
| Search.RootLoopOutcome | chess-core/src/search.rs:67-83 | the root loop fails at the first move make_move refuses, and otherwise returns the first best move and score |
| Search.RootLoopTurn | chess-core/src/search.rs:67-83 | one turn of the root loop: an error ends it, a better score replaces the best, anything else only adds to the statistics |
| Search.SearchBestMove | chess-core/src/search.rs:47-91 | on a live position `search` fails exactly when make_move refuses some root move, with the first such error; otherwise it returns the first move with the highest root score at the requested depth, or no move with score `i32::MIN + 1` |
| Search.RootScoreNegamax | chess-core/src/search.rs:71-77 | a root move's score is minus the child's negamax value clamped to the full window, or minus the child's game-over score when the child is finished below depth 1 |
| Search.SearchLoop | chess-core/src/search.rs:61-90 | on a live position `search` is the root loop over the generated moves |
| Search.Search | chess-core/src/search.rs:47-91 | the method returns the result `SearchOf` gives |
| Search.SearchRoot | chess-core/src/search.rs:61-83 | the method's loop over the root moves returns what the root loop gives |
| Deepening.Searches | chess-core/src/search.rs:285-292 | the searches at depths 1 to `max_depth` |
| Deepening.DeepenStops | chess-core/src/search.rs:285-304 | the deepening loop returns the result of the first depth that fails or finds a mate score |
| Deepening.IterativeOutcome | chess-core/src/search.rs:278-307 | iterative deepening returns the search at the first depth that fails or whose score exceeds 10000 in magnitude |
| Deepening.IterativeStops | chess-core/src/search.rs:278-307 | iterative deepening with `max_depth` 0 is exactly the case that reports "No moves found" without any search stopping it |
| Deepening.IterativeDeepening | chess-core/src/search.rs:278-307 | the method returns the result `IterativeOf` gives |
| StableSort.SortDescPermutation | chess-core/src/search.rs:124 | sorting by score rearranges the scored moves without adding or dropping any |
| StableSort.SortDescDescending | chess-core/src/search.rs:124 | the sorted pairs have non-increasing scores |
| StableSort.SortDescStable | chess-core/src/search.rs:124 | pairs with equal scores keep their original order, as `sort_by` is stable |
| StableSort.InsertDescPermutation | chess-core/src/search.rs:124 | inserting one pair adds it and changes nothing else |
| StableSort.InsertDescDescending | chess-core/src/search.rs:124 | inserting into a descending list keeps it descending |
| StableSort.InsertKeepsOrder | chess-core/src/search.rs:124 | an inserted pair goes behind every pair of the same score |
| StableSort.FirstsPermutation | chess-core/src/search.rs:126 | permuted pairs hold the same moves |
| ChessSearch.PieceValueIsMaterial | chess-core/src/search.rs:266-275 | the search's piece values are the evaluation's |
| ChessSearch.PieceValue | chess-core/src/search.rs:266-275 | each value is the evaluation's material value, at least 100, and above 900 only for the king |
| ChessSearch.MostValuableVictimFirst | chess-core/src/search.rs:250-256 | unless a king captures, taking a more valuable victim scores higher whatever the attackers |
| ChessSearch.LeastValuableAttackerFirst | chess-core/src/search.rs:250-256 | for victims of equal value, the cheaper attacker scores higher, and only then |
| ChessSearch.KingCapturesLast | chess-core/src/search.rs:250-256 | a king capturing a piece other than a king scores below zero, every other attacker at least 100 |
| ChessSearch.CaptureScore | chess-core/src/search.rs:246-263 | with pieces on both squares MVV-LVA of the two; else 100 for en passant and 0 otherwise |
| ChessSearch.MoveScoreParts | chess-core/src/search.rs:219-243 | a quiet move scores 0, a capture its capture score, and a promotion adds the promoted piece's value |
| ChessSearch.MoveScore | chess-core/src/search.rs:219-243 | a quiet move that does not promote scores 0, and a quiet promotion to a knight, bishop, rook or queen scores that piece's value |
| ChessSearch.KingCaptureAfterQuiet | chess-core/src/search.rs:219-256 | a king capture without promotion is tried after every quiet move |
| ChessSearch.I32Of | chess-core/src/search.rs:208 | `as i32` on a `u32` keeps the value modulo 2^32 inside the `i32` range |
| ChessSearch.GameOverScores | chess-core/src/search.rs:205-216 | stalemate scores 0; a mate before move 10000 scores between -20000 and -10000, beyond the bound that stops iterative deepening; a later mate scores higher |
| ChessSearch.EvaluateGameOver | chess-core/src/search.rs:205-216 | a non-zero score means the side to move has a king and is checkmated; stalemate scores 0; a checkmate before move 20000 scores in [-20000, 0) |
| ChessSearch.ChessCapturesShrink | chess-core/src/search.rs:167-190 | every generated capture that make_move accepts leaves one piece fewer, so the quiescence search ends |
| ChessSearch.ChessGameOver | chess-core/src/position.rs:315-317 | the tree's game over is `is_game_over` |
| ChessSearch.SearchPosition | chess-core/src/search.rs:47-91 | `search` on a position is the generic search on the chess tree |
| ChessSearch.IterativeDeepeningPosition | chess-core/src/search.rs:278-307 | `iterative_deepening` on a position is the generic one on the chess tree |
| ChessMoves.Apply | chess-core/src/position.rs:240-281 | a successful move is played on a consistent board, as `make_move` plays it; on a consistent board a playable move succeeds whenever `make_move` does |
| ChessMoves.CaptureRemovesOne | chess-core/src/search.rs:167-190 | a generated capture that succeeds vacates its origin and leaves one piece fewer |
| ChessMoves.PlainCaptureShrinks | chess-core/src/position.rs:382-400 | a plain capture empties the origin and keeps the destination occupied |
| ChessMoves.GeneratedPlayable | chess-core/src/movegen.rs:30-76 | every generated move on a board with one piece per square meets what make_move needs not to panic, and is not castling |
| ChessMoves.GeneratedMovesApply | chess-core/src/position.rs:240-281 | every generated move on a consistent board with one piece per square is accepted by make_move |
| ChessMoves.GeneratedMover | chess-core/src/movegen.rs:42-44 | the piece on a generated move's origin is the side's piece of the moving type |
| ChessMoves.GeneratedDoublePush | chess-core/src/movegen.rs:30-76 | a generated two-rank pawn move starts on the side's pawn start rank, so the en passant index it leaves is on the board |
| ChessMoves.GeneratedEnPassantOnBoard | chess-core/src/position.rs:240-281 | making a generated move on a consistent board with one piece per square succeeds and leaves no off-board en passant index |

## Left out

- Integers: `i32` scores and evaluations are unbounded integers. The search window `i32::MIN + 1` to `i32::MAX - 1` and the negations stay in range; an evaluation overflowing `i32` is not modelled.
- `u32` clocks wrap at 2^32 (`Text.IncU32`), as in a release build. A debug build would panic instead.
- `ChessSearch.I32Of`: `fullmove_number as i32` is written out.
- Time, node limits and statistics: `SearchParams::time_limit_ms` and `nodes_limit` are never read by the source, and the model drops them. `SearchStats` is threaded through the search as a value, in place of `&mut`.
- The library sort: `sort_by` is modelled as a stable insertion sort (`StableSort.SortDesc`). The model proves that result's ordering, permutation and stability.
- Search.Search: requires `depth > 0` on a live position. In the source `params.depth - 1` underflows there: a debug build panics, and a release build searches to depth 2^32 - 1.
- Search.SearchRoot: the loop of `search` is split into `SearchRoot`, over the root moves, and `Search.SearchOf`, the value it is proved against.
- Game.Position.MakeMove: the model requires `Positions.Playable`. That precondition covers only the cases where the source panics rather than returning an error: no piece on the from-square, a castling rook missing, a promotion without a piece. An en passant capture onto the capturer's own first rank is modelled, not excluded (`Positions.EnPassantVictim`, `Positions.EnPassantVictimWrapped`): a release build wraps `to.rank() - 1` or `to.rank() + 1` in `u8` and masks the shift amount in `clear_square`, so the square at the other end of the file is cleared, where a debug build would panic on the overflow. A two-rank pawn move from the last rank is modelled, not excluded (`Positions.DoublePushTarget`, `Positions.DoublePushOffBoard`): the `u8` rank arithmetic wraps as in a release build, where a debug build would panic on the underflow from rank 1, and the en passant index left can be off the board. `ChessMoves.GeneratedPlayable` proves every generated move meets the precondition, and `ChessMoves.GeneratedDoublePush` proves a generated double push leaves an index on the board.
- Fen.FenRoundTrip: holds for an en passant square on the board. An off-board index, which only a two-rank pawn move from the last rank leaves, prints a FEN text that `from_fen` refuses (`Fen.FenRefusesOffBoardEp`).
- ChessMoves.Apply: an unplayable move is an `Err` here, where the source panics. A board whose derived bitboards (`occupied`, `white`, `black`, `empty`) disagree with its pieces is also an `Err` here, for every move, where `make_move` plays the move; only direct writes to `Board`'s `pub` fields can produce such a board, and every search from it skips all moves.
- Moves.FromAlgebraic: requires the first four characters to be ASCII. Slicing the text by bytes panics otherwise.
- Game.Position.FindKing, Game.Position.InCheck, Game.Position.IsCheckmate, Game.Position.IsStalemate: require a king of the side, as `find_king` panics (`expect("King not found")`) without one.
- ChessSearch.EvaluateGameOver: scores a position without a king of the side to move as 0. The source panics there.
- Iterative deepening is specified over the results of the searches at all depths up to `max_depth` (`Deepening.Searches`). The loop stops at the first that fails or that finds a mate score. Elapsed time is not checked: the source does not check it either.
- ChessSearch.MostValuableVictimFirst: holds only when no king makes the capture. A king's value of 20000 makes its captures score below zero (`ChessSearch.KingCapturesLast`).
- Magic.LookupCorrect, MagicTables.AttackTables.GetRookAttacks, MagicTables.AttackTables.GetBishopAttacks, MagicTables.AttackTables.GetQueenAttacks: the lookup equals the ray scan of the masked occupancy only for magic numbers without destructive collisions (`Magic.GoodMagic`). That property of the 128 constants is not proved; the tables are proved built for any magic number. Where `bishop_mask` is empty the bishop lookup is proved without it (`Magic.EmptyMaskLookup`).
- The bit patterns of `FILE_A`..`FILE_H`, `RANK_1`..`RANK_8`, `LIGHT_SQUARES` and `DARK_SQUARES` are written as their square patterns, for example `i % 8 == f`. Their hexadecimal values are not restated.
- `Display`/`fmt` implementations, `Default` impls, `Debug` derives and the `uci` crate are not part of this model. They only print or wire up the engine.
- `movegen.rs` uses `magic_simple`, so the move generator's slider moves are the ray scans of `Rays`. The tables of `magic.rs` are modelled on their own.
- The start-position tests: the model proves the piece placement, the bitboard counts and the occupancy facts. The test's count of 20 generated moves is not proved. `evaluate`'s start-position score being below 50 in magnitude is not proved either.
- The castling and en passant moves that `generate_moves` never produces are modelled in `make_move` but are not generated.

## Findings

| source | as written | input that shows it | evidently intended | confidence | as-written member | corrected member |
|---|---|---|---|---|---|---|
| chess-core/src/magic.rs:141-147 | `(1..7).zip(1..7)` walks only the squares (k, k), so the bishop mask holds only squares of the a1-h8 diagonal, and the bishop table built and read over it ignores most blockers | a bishop on b1: the mask is empty, so a blocker on c2 hashes like the empty board, and the table reports d3 attacked | the inner squares of all four diagonals through the square | high (not executed) | Magic.BishopMaskB1Empty, Magic.BishopMaskMissesBlocker, Magic.BishopTableB1 | Magic.IntendedBishopMaskHas, Magic.IntendedBishopMaskCount, Magic.BishopRelevant, Magic.IntendedBishopLookup |
| chess-core/src/position.rs:351-361 | the knight and king tests compare the attacker's own pieces against targets with the attacker's own colour masked out, so they never fire | a black king on e1, a white knight on d3 and no other white piece: `is_square_attacked(e1, White)` is false | any knight a jump away or king a step away attacks the square | high (not executed) | Positions.KnightKingTestsDead, Positions.KnightCheckMissed | Positions.IntendedSquareAttackedMeaning, Positions.KnightCheckIntended |
| chess-core/src/position.rs:268-272 | the capture test reads `piece_at(to)` after the move has put the mover there | any quiet knight move, for example g1-f3 from the start position: the halfmove clock reads 0 | a capture judged before the move, so a quiet piece move counts the clock up | high (not executed) | Positions.HalfmoveAlwaysZero | Positions.IntendedHalfmoveCounts |

The position model (`Game`, `Positions`) keeps `is_square_attacked` and the halfmove clock as written, since check, checkmate and the FEN text depend on them. The attack tables (`MagicTables`) are built and read over `bishop_mask` as written. The corrected definitions sit beside them with their own properties: the corrected bishop table is the `IntendedDiagonal` kind of `Magic.InitAttacks`, proved by `Magic.IntendedBishopLookup`.
