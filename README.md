# A verified model of the XadrezTerminalIA chess engine

XadrezTerminalIA is a terminal chess program with a computer opponent. This project models its engine in Dafny and proves properties of the model. The engine has four layers:

- **Pieces and moves.** The twelve-piece enum with its symbols and ordinal-based colours. The move record with its long-algebraic `parse`, `toString` and structural `equals`.
- **The board.** A class over an 8×8 array with castling flags, an en-passant target, a half-move clock, the side to move and a repetition map.
  - `makeMove` follows the FIDE Laws of Chess, articles 3.7 and 3.8: pawn moves, en passant, promotion, king moves and castling.
  - `isSquareAttacked` and `isInCheck` detect attacks.
  - `getGameResult` and the draw predicates apply articles 5.1, 5.2, 9.2 and 9.3 automatically.
  - `generateFEN` and `loadFromFEN` write and read the four-field Forsyth–Edwards Notation of section 16.1 of the PGN Standard.
- **The move generator.** Pseudo-legal moves per piece kind, filtered by king safety.
- **The search classes.** Five near-duplicate classes: `SearchEngine`, `AlphaBeta`, `AlphaBetaB`, `AlphaBetaC2` and `BetterSquares`. They contain:
  - material and piece-square evaluators;
  - terminal scoring with and without a mate-distance offset;
  - minimax, alpha-beta (with and without a mate cutoff), fail-hard quiescence, MVV-LVA and tiered move ordering;
  - principal-variation search and a bounded forced-check search;
  - the root loops and iterative deepening.

**How the model is built.**
- Value types (`Pieces`, `Moves`) and the rules over positions (`Positions`, `Generation`, `Rules`, `FenLoad`) are datatypes and functions.
- The board is the class `Boards.Board`. Its methods change the array and fields in place. Each is proved to produce the position a pure function of the old state describes.
- The evaluators (`Evaluation`), move ordering (`Ordering`) and game-result queries (`GameResults`) are functions with proved bounds, symmetries and permutation facts.
- The move generator is imperative (`MoveGen`). It is proved to return exactly the pure `Generation.LegalMoves`, whose properties are proved in `GenerationFacts`.
- The searches are written once over an abstract game (`Search.Game`): the positions, moves, scoring and move lists are parameters. `ChessSearch` instantiates that game for each of the five classes.
  - Recursive functions give each search's value (`Search`, `PrincipalVariation`, `ForcedChecks`, `Roots`, `Deepening`).
  - Imperative methods (`SearchMethods`, `RootMethods`) are proved to compute those values.
  - The lemmas relate the searches to each other and to minimax.

## Model

| member | source | states |
|---|---|---|
| Pieces.Ordinal | src/Jogo/Piece.java:4-8 | each of the twelve constructors has a distinct position below 12 in the declaration order that the colour tests compare against |
| Pieces.Symbol | src/Jogo/Piece.java:5-18 | a piece's symbol is an upper-case letter exactly when the piece is white, and a lower-case letter exactly when it is black |
| Pieces.IsWhite | src/Jogo/Piece.java:20-22 | the ordinal test holds for exactly WHITE_KING to WHITE_PAWN |
| Pieces.IsBlack | src/Jogo/Piece.java:24-26 | the ordinal test holds for exactly BLACK_KING to BLACK_PAWN, that is, exactly when `isWhite` does not |
| Pieces.Make | src/Jogo/Piece.java:4-8 | for every colour and kind there is a piece of that colour and kind |
| Pieces.Swap | src/Jogo/Piece.java:5-8 | the same kind in the other colour has the same symbol with its case changed |
| Pieces.SwapInvolution | src/Jogo/Piece.java:5-8 | changing colour twice gives the piece back |
| Pieces.SymbolInjective | src/Jogo/Piece.java:5-18 | `getSymbol` is injective over the twelve pieces |
| Pieces.ColourAndKindDetermine | src/Jogo/Piece.java:4-26 | a piece is determined by its colour and its kind |
| Moves.Chr | src/Jogo/Move.java:76-80 | the `(char)` cast keeps the number's low sixteen bits, truncating negative numbers in two's complement as Java does, and yields the character with that code whenever it is not a surrogate |
| Moves.PromotionOf | src/Jogo/Move.java:41-53 | a fifth character selects a piece exactly when it is one of QRBNqrbn, and then the piece whose symbol it is, a queen, rook, bishop or knight |
| Moves.Parse | src/Jogo/Move.java:35-55 | parsing fails exactly on texts shorter than four characters; otherwise files 'a'..'h' and ranks '1'..'8' land on columns and rows 0..7, and the promotion is read only from a text of exactly five characters (counted in scalar values) |
| Moves.ToString | src/Jogo/Move.java:74-86 | the text has four characters without a promotion and five with one, the fifth being the promotion's symbol |
| Moves.Equals | src/Jogo/Move.java:57-67 | `equals` holds exactly when all five fields agree |
| Moves.ParsePrinted | src/Jogo/Move.java:35-86 | parsing a printed move gives it back when its promotion is absent or a queen, rook, bishop or knight |
| Moves.PrintParsed | src/Jogo/Move.java:35-86 | printing a parsed four-character text, or a five-character one ending in a promotion letter, gives the text back when each character is a single UTF-16 unit |
| Moves.EqualsReflexiveSymmetric | src/Jogo/Move.java:57-67 | `equals` is reflexive and symmetric |
| Positions.StartGrid | src/Jogo/Board.java:62-76 | every square holds the start-position piece: the back ranks R N B Q K B N R on rows 0 and 7, pawns on rows 1 and 6, the rest empty |
| Positions.StartPosition | src/Jogo/Board.java:21-32 | the new board's repetition table counts its own FEN exactly once and nothing else |
| Positions.Apply | src/Jogo/Board.java:86-162 | `makeMove` on a move with both squares on the board: the moved position with its FEN counted once more; `Boards.Board.MakeMove` is proved to compute it in place and the `Positions.Apply*` lemmas state each of its parts |
| Positions.Moved | src/Jogo/Board.java:86-157 | every field `makeMove` changes before the repetition count: grid, rights, target, clock and side, as `Positions.ApplyPlacement`, `ApplyCastlingRights`, `ApplyEnPassant` and `ApplyCounters` state |
| Positions.Counted | src/Jogo/Board.java:159-161 | the repetition table with the new FEN's count one higher, the `merge` of `makeMove`, which `Boards.Board.CountCurrent` performs |
| Positions.GridAfter | src/Jogo/Board.java:119-148 | the grid after a move: source emptied, mover or promotion on the target, the en-passant victim and the castling rook moved, as `Positions.ApplyPlacement` and `GenerationFacts.GridAfterCell` state |
| Positions.RightsAfter | src/Jogo/Board.java:90-104 | the castling rights after a move, which only lose rights (`Positions.ApplyCastlingRights`) |
| Positions.TargetAfter | src/Jogo/Board.java:106-117 | the passed square of a double step, else (-1, -1) (`Positions.ApplyEnPassant`, `GenerationFacts.EnPassantAfter`) |
| Positions.ClockAfter | src/Jogo/Board.java:150-154 | the half-move clock, reset on a pawn move or capture and otherwise one higher (`Positions.ApplyCounters`) |
| Positions.ApplyCastlingRights | src/Jogo/Board.java:90-104 | castling rights can only be lost; a king move clears both of its colour's rights, a rook leaving a home corner clears that corner's right, and a move by any other piece leaves all four unchanged (a rook captured in its corner does not clear the right) |
| Positions.ApplyEnPassant | src/Jogo/Board.java:106-127 | a pawn's two-row step sets the target to the square passed over, which is on the board; every other move clears it; a pawn changing file onto an empty square empties the square beside it on its own row |
| Positions.ApplyCastlingRook | src/Jogo/Board.java:129-139 | a king stepping two files from column 4 moves the rook of its row from column 7 to 5 (king side) or from column 0 to 3 (queen side), leaving the corner empty |
| Positions.ApplyPlacement | src/Jogo/Board.java:141-148 | the source square is empty afterwards; the destination holds the promotion piece for a pawn that carries one and the moved piece otherwise; every square other than the move's own, the en-passant victim's and the castling rook's is unchanged |
| Positions.ApplyCounters | src/Jogo/Board.java:150-161 | the half-move clock restarts after a pawn changes row or anything is captured (en passant included) and counts up otherwise; the side to move flips; the new FEN's count rises by one and every other count stays |
| Positions.PlacementFrom | src/Jogo/Board.java:167-179 | the placement text from row r up is the text of the rows above it, a '/', then row r's own text: ranks are written from the eighth down |
| Positions.CastlingText | src/Jogo/Board.java:181-186 | the castling field is "-" exactly when no right is held |
| Positions.Fen | src/Jogo/Board.java:165-195 | `generateFEN`: placement, side, castling and en-passant fields, which `FenLoad.LoadFen` reads back and `FenLoad.FenIgnoresCounts` shows independent of the table; `Boards.Board.GenerateFen` computes it |
| Positions.Placement | src/Jogo/Board.java:167-179 | the placement field, ranks 8 to 1 joined by '/', which `FenLoad.ParseRanks` reads back and `Boards.Board.PlacementText` builds |
| Positions.RankText | src/Jogo/Board.java:168-177 | one rank's text, runs of empty squares as digits 1-8 and pieces as symbols (`FenLoad.RankTextChars`, `FenLoad.ParseRankText`) |
| Positions.EnPassantText | src/Jogo/Board.java:188-190 | the en-passant field, "-" or file and rank, which `FenLoad.EnPassantReadsBack` reads back |
| Positions.IsSquareAttacked | src/Jogo/Board.java:219-282 | `isSquareAttacked` by knight, pawn, slider or king, which `Boards.Board.SquareAttacked` computes on the array |
| Positions.FindKing | src/Jogo/Board.java:284-295 | the first king of the colour in row-major order, or (-1, -1) (`Positions.Locate`, `Boards.Board.FindPiece`) |
| Positions.IndexOf | src/Jogo/Board.java:286-294 | the scan stops at the first cell holding the piece, and returns -1 exactly when no cell holds it |
| Positions.Locate | src/Jogo/Board.java:284-295 | the king search returns a square holding the king, or (-1, -1) exactly when no square holds it |
| Rules.InCheck | src/Jogo/Board.java:284-296 | `isInCheck`: the king `FindKing` finds is attacked, false without a king (`Rules.NoKingNoCheck`, `Boards.Board.IsInCheck`) |
| Rules.IsCheckmate | src/Jogo/Board.java:205-209 | in check with no legal move, one of the four results `Rules.Result` separates (`GameResults.IsCheckmate`) |
| Rules.IsStalemate | src/Jogo/Board.java:211-215 | not in check and no legal move (`Rules.Result`, `GameResults.IsStalemate`) |
| Rules.DrawByFiftyMoves | src/Jogo/Board.java:197-199 | the clock has reached 100 half-moves (`GameResults.IsDrawByFiftyMoves`) |
| Rules.DrawByRepetition | src/Jogo/Board.java:201-203 | the current FEN is counted at least three times (`GameResults.IsDrawByRepetition`) |
| Rules.GameOver | src/Jogo/Board.java:309-311 | `isGameOver`: the result is not ONGOING, which `Rules.GameOverIff` equates with no legal move or a draw rule |
| Rules.Result | src/Jogo/Board.java:197-307 | white wins exactly when black to move is mated, black wins exactly when white to move is mated, a draw exactly when there is no mate but a stalemate, a hundred quiet half-moves or a third repetition, and the game goes on exactly when the side to move has a legal move and no draw rule fires |
| Rules.NoKingNoCheck | src/Jogo/Board.java:284-296 | a side with no king on the board is never in check |
| Rules.GameOverIff | src/Jogo/Board.java:206-311 | the game is over exactly when the side to move has no legal move or one of the two draw rules fires |
| FenLoad.TrimLeft | src/Jogo/Board.java:323 | the result is a suffix of the input, every character dropped is a blank (code up to the space), and the result does not start with one |
| FenLoad.TrimRight | src/Jogo/Board.java:323 | the result is a prefix of the input, every character dropped is a blank, and the result does not end with one |
| FenLoad.Trim | src/Jogo/Board.java:323 | a non-empty trimmed text starts and ends with a non-blank |
| FenLoad.TrimmedAlready | src/Jogo/Board.java:323 | a text that starts and ends with a non-blank is its own trim |
| FenLoad.RunEnd | src/Jogo/Board.java:323 | the run starting at i holds no `\s` character and ends at the end of the text or at one |
| FenLoad.Tokens | src/Jogo/Board.java:323 | splitting on runs of `\s` gives only non-empty fields |
| FenLoad.Fields | src/Jogo/Board.java:323 | `trim().split("\\s+")` gives the single empty field for an all-blank text and otherwise only non-empty fields |
| FenLoad.Chunks | src/Jogo/Board.java:329 | splitting at a separator always gives at least one piece |
| FenLoad.DropTrailingEmpty | src/Jogo/Board.java:329 | `split` drops exactly the empty pieces at the end and keeps the rest in order |
| FenLoad.FenCharToPiece | src/Jogo/Board.java:375-391 | a character names a piece exactly when it is one of PNBRQKpnbrqk, and then the piece whose symbol it is; any other character is the error case |
| FenLoad.SymbolReadsBack | src/Jogo/Board.java:375-391 | `fenCharToPiece(p.getSymbol())` is p for each of the twelve pieces |
| FenLoad.PlaceRank | src/Jogo/Board.java:337-343 | the inner loop of the placement over one rank, whose outcomes `FenLoad.PlaceRankOutcome` lists and which `FenLoad.ParseRankText` inverts; `Boards.Board.ReadRank` performs it |
| FenLoad.PlaceRanks | src/Jogo/Board.java:334-344 | the outer loop over the eight rank texts (`FenLoad.PlaceRanksFrom`, `FenLoad.PlaceRanksOutcome`, `FenLoad.ParseRanks`) |
| FenLoad.PlaceRanksFrom | src/Jogo/Board.java:334-344 | the outer loop reads row r from text 7 - r, and an error there stops the placement with the cells written so far |
| FenLoad.EmptyGrid | src/Jogo/Board.java:333 | the fresh grid is empty on every square |
| FenLoad.LoadPlaced | src/Jogo/Board.java:322-369 | once fields and ranks are split, an error in the placement keeps the partly written grid and every other field, and otherwise the flags are read and the table reset |
| FenLoad.PlaceRankOutcome | src/Jogo/Board.java:337-343 | reading a rank ends without error, with a piece past the last column, or with a character of that rank that is neither a digit nor a piece |
| FenLoad.PlaceRanksOutcome | src/Jogo/Board.java:334-344 | an error of the placement is an error of one of the ranks |
| FenLoad.FenIgnoresCounts | src/Jogo/Board.java:165-195 | the FEN does not depend on the repetition table |
| FenLoad.Load | src/Jogo/Board.java:322-369 | `loadFromFEN` on a board: its new value and exception, whose cases `FenLoad.LoadOutcome`, `LoadWipesGrid` and `LoadShortEnPassant` state and which `FenLoad.LoadFen` inverts on generated text; `Boards.Board.LoadFromFen` performs it |
| FenLoad.LoadFlags | src/Jogo/Board.java:346-363 | the side, castling and en-passant fields read after the placement (`FenLoad.FlagsReadBack`, `FenLoad.LoadShortEnPassant`, `Boards.Board.ReadFlags`) |
| FenLoad.LoadOutcome | src/Jogo/Board.java:322-369 | fewer than four fields, and a placement of other than eight ranks, are reported exactly in those cases and before anything changes; an unknown symbol comes from one of the ranks; a load without error leaves the clock at 0 and the new FEN counted once |
| FenLoad.LoadWipesGrid | src/Jogo/Board.java:333-343 | the load is not atomic: a lowest rank starting with an unknown symbol fails with the grid already emptied and the other fields kept |
| FenLoad.LoadShortEnPassant | src/Jogo/Board.java:356-363 | a one-character en-passant field other than "-" fails after grid, side, castling rights and column were set, with row, clock and table kept |
| FenLoad.RankTextChars | src/Jogo/Board.java:167-179 | a rank's text holds only digits 1-8 and piece letters, and is not empty |
| FenLoad.PlaceEmptyRun | src/Jogo/Board.java:338-339 | a trailing empty-run digit moves the column to 8 and writes nothing |
| FenLoad.PlacePiece | src/Jogo/Board.java:337-343 | an empty-run digit then a piece letter skips the run and stores the piece |
| FenLoad.ParseRankText | src/Jogo/Board.java:334-344 | reading back the text `generateFEN` writes for a row restores that row, without error and without touching other rows |
| FenLoad.Ranks | src/Jogo/Board.java:167-179 | there is one rank text per whole row |
| FenLoad.ParseRanks | src/Jogo/Board.java:334-344 | reading the rank texts of rows r to 7 into a grid holding the rows below r restores the whole grid without error |
| FenLoad.PlacementSplits | src/Jogo/Board.java:329 | the placement field `generateFEN` writes splits at '/' into exactly its eight rank texts |
| FenLoad.CastlingReadsBack | src/Jogo/Board.java:350-354 | the castling field written for four rights contains each of K, Q, k, q exactly when the right is held |
| FenLoad.FieldsOfFen | src/Jogo/Board.java:323 | the four fields `generateFEN` joins with single spaces split back into exactly those four fields |
| FenLoad.EnPassantReadsBack | src/Jogo/Board.java:356-363 | the en-passant field is "-" exactly when there is no target, and otherwise two characters that read back as the target's column and row |
| FenLoad.LoadFen | src/Jogo/Board.java:165-369 | `loadFromFEN(generateFEN())` on any board restores grid, side, castling rights and en-passant target (none or on the board), resets the clock and counts the FEN once |
| FenLoad.FlagsReadBack | src/Jogo/Board.java:346-363 | the side, castling and en-passant fields written by `generateFEN` read back as the position's own |
| Boards.MovedFields | src/Jogo/Board.java:86-157 | a board whose every field is the one `makeMove` computes, before it counts the FEN, is the moved position |
| Boards.FirstFound | src/Jogo/Board.java:286-294 | the first square in row-major order holding the piece is the one the king search returns |
| Boards.Board.Write | src/Jogo/Board.java:126 | one array store changes exactly that cell of the board's value |
| Boards.Board.SetupStartPosition | src/Jogo/Board.java:62-76 | the array holds exactly the start grid afterwards |
| Boards.Board.constructor | src/Jogo/Board.java:21-32 | a new board is the start position: all rights, no target, white to move, clock 0, its FEN counted once |
| Boards.Board.StartFields | src/Jogo/Board.java:24-31 | the scalar fields and the table are those of the start position |
| Boards.Board.Copy | src/Jogo/Board.java:35-50 | the copy has a fresh array and the same value as the original |
| Boards.Board.UpdateCastlingRights | src/Jogo/Board.java:90-104 | the four rights become those the pure model of `makeMove` prescribes |
| Boards.Board.UpdateEnPassantTarget | src/Jogo/Board.java:106-117 | the target becomes the square a two-row pawn step passes over, else (-1, -1) |
| Boards.Board.MovePieces | src/Jogo/Board.java:119-148 | the array becomes the grid the pure model prescribes, and a piece is reported captured exactly when the move captures, en passant included |
| Boards.Board.MakeMove | src/Jogo/Board.java:86-162 | the board's new value is `Apply` of the old one, whose effects `Positions.Apply*` state, and the array is updated in place |
| Boards.Board.Advance | src/Jogo/Board.java:86-157 | everything but the repetition table becomes the moved position |
| Boards.Board.UpdateClock | src/Jogo/Board.java:150-154 | the clock restarts after a pawn changes row or a capture and otherwise counts up by one |
| Boards.Board.CountCurrent | src/Jogo/Board.java:159-161 | the current FEN's count rises by one |
| Boards.Board.AppendRank | src/Jogo/Board.java:168-177 | the loop over one row appends exactly that row's rank text |
| Boards.Board.PlacementText | src/Jogo/Board.java:166-179 | the loop over rows 7 down to 0 builds the placement field |
| Boards.Board.GenerateFen | src/Jogo/Board.java:165-195 | the builder yields exactly `Fen` of the board's value, whose round trip `FenLoad.LoadFen` proves |
| Boards.Board.LoadFromFen | src/Jogo/Board.java:322-369 | the board's new value and the exception raised are exactly those of `Load`, whose outcomes `FenLoad.LoadOutcome` and `FenLoad.LoadFen` state |
| Boards.Board.ResetHistory | src/Jogo/Board.java:366-368 | the table afterwards counts the current FEN once and nothing else |
| Boards.Board.PlaceAll | src/Jogo/Board.java:333-344 | a fresh array filled rank by rank, last text first, ending at the first error |
| Boards.Board.ReadRank | src/Jogo/Board.java:336-343 | reading one text into row r writes exactly the cells `PlaceRank` prescribes and raises its error |
| Boards.Board.ReadFlags | src/Jogo/Board.java:346-367 | side, castling rights and en-passant square are read from their fields, failing on a one-character en-passant field other than "-" (counted in scalar values) |
| Boards.Board.SquareAttacked | src/Jogo/Board.java:219-282 | the scan answers true exactly when a knight, pawn, orthogonal or diagonal slider, or king of the attacking colour attacks the square |
| Boards.Board.StepScan | src/Jogo/Board.java:220-228 | true exactly when some offset lands on the board on the given piece |
| Boards.Board.PawnScan | src/Jogo/Board.java:229-237 | true exactly when a pawn of the attacking colour stands on the row behind the square, one column to either side |
| Boards.Board.FirstOnRay | src/Jogo/Board.java:242-252 | the walk returns the first occupied square along the ray, or nothing when it leaves the board |
| Boards.Board.SliderScan | src/Jogo/Board.java:238-269 | true exactly when along some direction the first piece met is of the attacking colour and of one of the sliding kinds |
| Boards.Board.FindPiece | src/Jogo/Board.java:286-294 | the double loop returns the first square in row-major order holding the piece, or (-1, -1) |
| Boards.Board.IsInCheck | src/Jogo/Board.java:284-296 | true exactly when the side's first king exists and is attacked by the other side |
| Generation.Jumps | src/ai/MoveGenerator.java:69-77 | each knight or king step starts on the piece's square, lands on the board on one of the offsets, on an empty or enemy square, and promotes nothing |
| Generation.RayMoves | src/ai/MoveGenerator.java:79-90 | each sliding move starts on the piece's square, promotes nothing and lands on an empty or enemy square |
| Generation.RayStops | src/ai/MoveGenerator.java:82-88 | a ray passes only empty squares, and an enemy met first along it is the last square entered |
| Generation.Slides | src/ai/MoveGenerator.java:79-90 | every sliding move starts on the piece's square, lands on the board on an empty or enemy square and promotes nothing |
| Generation.Castles | src/ai/MoveGenerator.java:102-125 | castling moves start on the king's square and stay on the board |
| Generation.Advances | src/ai/MoveGenerator.java:135-152 | the pawn's advances start on its square and stay on the board |
| Generation.Capture | src/ai/MoveGenerator.java:153-173 | a diagonal capture starts on the pawn's square and stays on the board |
| Generation.EnPassants | src/ai/MoveGenerator.java:174-186 | en-passant moves start on the pawn's square and stay on the board |
| Generation.PawnMoves | src/ai/MoveGenerator.java:129-187 | every pawn move starts on the pawn's square and stays on the board |
| Generation.GenerableReady | src/ai/MoveGenerator.java:28-40 | every piece of the generated colour can be expanded without an index error |
| Generation.PieceMoves | src/ai/MoveGenerator.java:33-40 | every move of a piece starts on its square and stays on the board |
| Generation.SquareMoves | src/ai/MoveGenerator.java:29-40 | a square yields moves only when it holds a piece of the requested colour |
| Generation.Pseudo | src/ai/MoveGenerator.java:27-41 | every pseudo-legal move is on the board and moves a piece of the requested colour |
| Generation.KingSafe | src/ai/MoveGenerator.java:45-61 | the legality test: after the move the mover's first king is not attacked, which `MoveGen.KeepsKingSafe` computes on a copy and `GenerationFacts.LegalLeavesKingSafe` states of every legal move |
| Generation.Filter | src/ai/MoveGenerator.java:43-64 | the filter keeps exactly the candidates after which the mover's king is not attacked |
| Generation.LegalMoves | src/ai/MoveGenerator.java:26-67 | every legal move is on the board, moves a piece of the requested colour and leaves its king unattacked |
| GenerationFacts.AdvanceShape | src/ai/MoveGenerator.java:135-152 | an advance goes one row forward onto an empty square, or two from the start row over two empty squares, and promotes only on the last rank |
| GenerationFacts.CaptureShape | src/ai/MoveGenerator.java:153-173 | a pawn capture goes one row forward and one file aside onto an enemy piece, promoting only on the last rank |
| GenerationFacts.EnPassantShape | src/ai/MoveGenerator.java:174-186 | an en-passant move goes one row forward and one file aside onto the target square |
| GenerationFacts.PawnMoveShape | src/ai/MoveGenerator.java:129-187 | every pawn move is an advance onto empty squares, a diagonal capture of an enemy, or an en-passant move onto the target, and promotes only on the last rank to a queen, rook, bishop or knight of its colour |
| GenerationFacts.PawnToFanOut | src/ai/MoveGenerator.java:137-145 | a promotion to one square comes with the other three kinds |
| GenerationFacts.AdvanceFanOut | src/ai/MoveGenerator.java:136-148 | an advancing promotion comes with the other three kinds |
| GenerationFacts.CaptureFanOut | src/ai/MoveGenerator.java:158-171 | a capturing promotion comes with the other three kinds |
| GenerationFacts.PromotionFanOut | src/ai/MoveGenerator.java:129-187 | whenever a pawn may promote on a square it may promote there to each of queen, rook, bishop and knight |
| GenerationFacts.CastlingConditions | src/ai/MoveGenerator.java:92-125 | a king move of two files is a castling from column 4 of the home row, the king not in check, the right held, the squares between empty and the squares crossed not attacked |
| GenerationFacts.CastlingGenerated | src/ai/MoveGenerator.java:102-125 | conversely, when all those conditions hold the castling move is generated |
| GenerationFacts.PseudoMember | src/ai/MoveGenerator.java:27-41 | every pseudo-legal move comes from one visited square's own list |
| GenerationFacts.LegalIsPseudo | src/ai/MoveGenerator.java:43-64 | a legal move is one of the pseudo-legal candidates |
| GenerationFacts.SquareMember | src/ai/MoveGenerator.java:28-40 | a move on a square's list starts there and is a move of the piece of the requested colour standing there |
| GenerationFacts.LegalIsPieceMove | src/ai/MoveGenerator.java:26-67 | a legal move is a move its piece's own generator makes |
| GenerationFacts.LegalLeavesKingSafe | src/ai/MoveGenerator.java:43-64 | after a legal move the mover's first king, if any, is not attacked by the other side |
| GenerationFacts.GridAfterCell | src/Jogo/Board.java:119-148 | after a move a cell is empty, holds the landing piece, keeps its content, or holds the rook castling brought over |
| GenerationFacts.LegalMoverFacts | src/ai/MoveGenerator.java:26-67 | a legal move in a position that arises in play moves a piece of the mover's colour and, for a pawn, has the pawn shape |
| GenerationFacts.PieceMoverFacts | src/ai/MoveGenerator.java:33-40 | a move a piece's own generator makes has those facts |
| GenerationFacts.LastRankAfter | src/ai/MoveGenerator.java:137-148 | no such move leaves a pawn of either colour on its last rank |
| GenerationFacts.EnPassantAfter | src/Jogo/Board.java:106-117 | after such a move the en-passant target is absent or on row 2 or 5 with a real column |
| GenerationFacts.LegalPreservesSound | src/ai/MoveGenerator.java:26-67 | playing a legal move keeps a position that arises in play in that state: no pawn on its last rank, the target absent or on row 2 or 5 |
| MoveGen.AddSteps | src/ai/MoveGenerator.java:69-77 | the offset loop appends exactly the knight (or king-step) moves the pure generator prescribes, in offset order |
| MoveGen.AddRay | src/ai/MoveGenerator.java:81-88 | the walk along one direction appends exactly that ray's moves, whose shape `Generation.RayStops` states |
| MoveGen.AddSliding | src/ai/MoveGenerator.java:79-90 | the direction loop appends exactly the sliding moves, direction by direction |
| MoveGen.AddKingMoves | src/ai/MoveGenerator.java:92-127 | the king's eight steps, then its castlings, are appended in that order |
| MoveGen.AddCastles | src/ai/MoveGenerator.java:102-125 | the castling moves are exactly those whose conditions `GenerationFacts.CastlingConditions` lists, king side first |
| MoveGen.KingSideClear | src/ai/MoveGenerator.java:108-114 | true exactly when the king-side right is held, columns 5 and 6 are empty and neither is attacked |
| MoveGen.QueenSideClear | src/ai/MoveGenerator.java:116-124 | true exactly when the queen-side right is held, columns 1 to 3 are empty and columns 3 and 2 are not attacked |
| MoveGen.AddPawnTo | src/ai/MoveGenerator.java:137-148 | on row 7 or 0 the four promotions are appended queen first, elsewhere one plain move |
| MoveGen.AddPawnMoves | src/ai/MoveGenerator.java:129-187 | appends exactly the pawn's moves: advances, the capture to the left, the capture to the right, en passant |
| MoveGen.AddCaptures | src/ai/MoveGenerator.java:154-173 | the loop over -1 and 1 appends the two diagonal captures in that order |
| MoveGen.AddAdvances | src/ai/MoveGenerator.java:135-152 | appends the single advance onto an empty square, then the double advance from the start row |
| MoveGen.AddCapture | src/ai/MoveGenerator.java:155-172 | appends the capture of an enemy piece one file aside, with its promotions on the last rank |
| MoveGen.AddEnPassants | src/ai/MoveGenerator.java:174-186 | appends the moves onto the target square from an adjacent file when the target is on the row in front |
| MoveGen.AddPieceMoves | src/ai/MoveGenerator.java:33-40 | the switch appends the moves of the piece's kind |
| MoveGen.PseudoMoves | src/ai/MoveGenerator.java:27-41 | the square loop builds the pseudo-legal list in row-major order, whose members `GenerationFacts.PseudoMember` characterises |
| MoveGen.KeepsKingSafe | src/ai/MoveGenerator.java:45-61 | a copy plays the move and the test answers whether the mover's first king is unattacked, leaving the board itself unchanged |
| MoveGen.GenerateLegalMoves | src/ai/MoveGenerator.java:26-67 | the result is exactly the legal-move list, whose members `Generation.LegalMoves` and `GenerationFacts.LegalPreservesSound` characterise |
| Evaluation.MaterialValue | src/ai/SearchEngine.java:611-624 | the signed material value of a piece, which `Evaluation.SwapValues` shows negated by a colour swap |
| Evaluation.PieceValue | src/ai/BetterSquares.java:458-478 | the colour-blind `pieceValue`, the absolute material value with the king at 0 (`Evaluation.PieceValueIsUnsignedMaterial`) |
| Evaluation.PieceValueIsUnsignedMaterial | src/ai/BetterSquares.java:458-478 | `pieceValue` is the size of the material value the material `evaluate` uses, except that it gives a king 0, and is never negative |
| Evaluation.SwapValues | src/ai/SearchEngine.java:611-624 | the other colour's piece of the same kind has the negated material value and the same `pieceValue` |
| Evaluation.TableWithin | src/ai/BetterSquares.java:23-101 | a table of eight rows with entries within half a pawn is within half a pawn |
| Evaluation.PawnTableWithin | src/ai/BetterSquares.java:23-32 | the pawn table is 8 by 8 with entries in [-50, 50] |
| Evaluation.KnightTableWithin | src/ai/BetterSquares.java:34-43 | the knight table is 8 by 8 with entries in [-50, 50] |
| Evaluation.BishopTableWithin | src/ai/BetterSquares.java:45-54 | the bishop table is 8 by 8 with entries in [-50, 50] |
| Evaluation.RookTableWithin | src/ai/BetterSquares.java:57-66 | the rook table is 8 by 8 with entries in [-50, 50] |
| Evaluation.QueenTableWithin | src/ai/BetterSquares.java:69-78 | the queen table is 8 by 8 with entries in [-50, 50] |
| Evaluation.KingMiddleTableWithin | src/ai/BetterSquares.java:80-89 | the middle-game king table is 8 by 8 with entries in [-50, 50] |
| Evaluation.KingEndTableWithin | src/ai/BetterSquares.java:92-101 | the endgame king table is 8 by 8 with entries in [-50, 50] |
| Evaluation.TablesWithin | src/ai/BetterSquares.java:527-545 | whichever table a piece kind reads, it is 8 by 8 and no bonus exceeds half a pawn either way |
| Evaluation.Entry | src/ai/BetterSquares.java:527-545 | every square bonus lies in [-50, 50] |
| Evaluation.Endgame | src/ai/BetterSquares.java:503-513 | the endgame test, true exactly when no queen is on the board (`Evaluation.EndgameCells`, `Evaluation.EndgameMirror`) |
| Evaluation.EndgameCells | src/ai/BetterSquares.java:503-513 | the early-exit queen scan finds an endgame exactly when no square holds a queen of either colour |
| Evaluation.CellBound | src/ai/BetterSquares.java:516-549 | no single cell adds more than a king's value either way, under either evaluator |
| Evaluation.RowBound | src/ai/BetterSquares.java:516-549 | n cells of a row add at most n kings either way |
| Evaluation.ScoreBound | src/ai/BetterSquares.java:516-549 | k whole rows add at most 8k kings either way |
| Evaluation.Eval | src/ai/BetterSquares.java:500-553 | both evaluators over the 64 cells, bounded by 64 kings (`Evaluation.EvalBounded`), colour-symmetric (`Evaluation.EvalMirror`), 0 at the start (`Evaluation.StartBalanced`); `Evaluation.EvaluateMaterial` and `EvaluatePositional` compute it |
| Evaluation.EvalBounded | src/ai/SearchEngine.java:604-630 | both evaluators stay within 64 kings of zero, far inside the 32-bit range and below the mate score |
| Evaluation.Mirror | src/ai/BetterSquares.java:529-542 | the mirrored board holds on each square the other-coloured piece of the square reflected across the middle rank |
| Evaluation.GridExt | src/Jogo/Board.java:11 | a grid is determined by its 64 cells |
| Evaluation.CellMirror | src/ai/BetterSquares.java:516-549 | a cell of the mirrored board adds the negation of the reflected cell, because black pieces read the tables at row 7 - r |
| Evaluation.RowMirror | src/ai/BetterSquares.java:516-549 | a row of the mirrored board adds the negation of the reflected row |
| Evaluation.ScoreRows | src/ai/BetterSquares.java:516-517 | the score of all eight rows is the sum of the rows' scores |
| Evaluation.EndgameMirror | src/ai/BetterSquares.java:503-513 | mirroring keeps the queens, so the endgame test gives the same answer on the mirrored grid |
| Evaluation.EvalMirror | src/ai/BetterSquares.java:500-553 | both evaluators are colour-symmetric: the mirrored position scores the negation |
| Evaluation.StartCellMirror | src/Jogo/Board.java:62-76 | the start position is its own mirror image, square by square |
| Evaluation.StartBalanced | src/ai/SearchEngine.java:604-630 | both evaluators score the start position 0 |
| Evaluation.EvaluateMaterial | src/ai/SearchEngine.java:604-630 | the double loop sums the signed material values of all pieces, kings at 20000, which `Evaluation.EvalMirror` and `Evaluation.EvalBounded` characterise |
| Evaluation.EvaluatePositional | src/ai/BetterSquares.java:500-553 | the queen scan, then the double loop summing `pieceValue` plus the square bonus, positive for white and negative for black |
| GameResults.IsCheckmate | src/Jogo/Board.java:205-209 | true exactly when the side to move is in check and has no legal move |
| GameResults.IsStalemate | src/Jogo/Board.java:211-215 | true exactly when the side to move is not in check and has no legal move |
| GameResults.IsDrawByFiftyMoves | src/Jogo/Board.java:197-199 | true exactly when the clock has reached 100 half-moves |
| GameResults.IsDrawByRepetition | src/Jogo/Board.java:201-203 | true exactly when the current FEN has been counted at least three times |
| GameResults.GetGameResult | src/Jogo/Board.java:298-307 | the classification `Rules.Result` gives, whose four cases `Rules.Result` states as equivalences |
| GameResults.IsGameOver | src/Jogo/Board.java:309-311 | true exactly when the result is not ongoing, that is (`Rules.GameOverIff`) no legal move or a draw rule |
| Ordering.IsCapture | src/ai/AlphaBetaC2.java:291-301 | `isCapture`, which `Ordering.CaptureMeaning` shows to mean a capture, an en-passant capture or a promotion on legal moves; `Ordering.IsCaptureOn` computes it on the board |
| Ordering.MvvLva | src/ai/AlphaBetaC2.java:303-309 | `mvvLvaScore`, within a queen of zero and positive exactly when the victim outweighs the mover (`Ordering.MvvLvaRange`, `Ordering.MvvLvaOn`) |
| Ordering.GivesCheck | src/ai/AlphaBetaC2.java:256-260 | the check test of the orderings and the tactical filter: after the move the replying side is in check (`ChessSearch.Tactical`) |
| Ordering.MvvLvaRange | src/ai/AlphaBetaC2.java:303-309 | the MVV-LVA score lies within a queen of zero and, when both squares are occupied, is positive exactly when the victim is worth more than the mover |
| Ordering.CaptureMeaning | src/ai/AlphaBetaC2.java:291-301 | for a legal move in a position that arises in play, `isCapture` holds exactly when the move takes a piece, takes en passant or promotes |
| Ordering.MoverCapture | src/ai/AlphaBetaC2.java:291-301 | the same for any move with the generator's facts: the en-passant test of `isCapture` agrees with the board's |
| Ordering.ChecksFirstKey | src/ai/AlphaBetaC2.java:282-288 | `AlphaBetaC2`'s sort key, checks first, then captures by MVV-LVA (`Ordering.OrderMoves`) |
| Ordering.TierKey | src/ai/BetterSquares.java:410-434 | `BetterSquares`' comparator key, whose tiers `Ordering.TiersOrdered` orders: promotions, captures and pawn pushes, checks, the rest |
| Ordering.SortKey | src/ai/BetterSquares.java:410-434 | the ascending key of each ordering, which `Ordering.SortKeyOn` computes on a copy of the board |
| Ordering.TiersOrdered | src/ai/BetterSquares.java:409-435 | a move of a higher tier always has a larger key: promotions, then captures together with quiet pawn pushes (a poor capture can score below a push), then checks, then the rest |
| Ordering.StableSort | src/ai/AlphaBetaC2.java:282 | `Collections.sort` by key: a permutation (`Ordering.StableSortPermutes`), ascending (`Ordering.StableSortSorted`) and stable (`Ordering.StableSortStable`) |
| Ordering.InsertPermutes | src/ai/AlphaBetaC2.java:282 | inserting adds exactly that entry |
| Ordering.InsertPermutesMoves | src/ai/AlphaBetaC2.java:282 | inserting adds exactly that entry's move |
| Ordering.InsertSorted | src/ai/AlphaBetaC2.java:282 | inserting into a list sorted by key keeps it sorted |
| Ordering.InsertStable | src/ai/AlphaBetaC2.java:282 | inserting keeps the relative order of equal keys, the new entry first |
| Ordering.StableSortPermutes | src/ai/AlphaBetaC2.java:282 | `Collections.sort` returns a permutation of its input |
| Ordering.StableSortPermutesMoves | src/ai/AlphaBetaC2.java:282 | the sorted list holds the same moves, each as often |
| Ordering.StableSortSorted | src/ai/AlphaBetaC2.java:282 | the sorted list is in ascending key order |
| Ordering.StableSortStable | src/ai/AlphaBetaC2.java:282 | the sort is stable: the entries with any one key keep their order |
| Ordering.MovesOf | src/ai/AlphaBetaC2.java:282 | the moves of a keyed list, position by position |
| Ordering.KeyedMoves | src/ai/AlphaBetaC2.java:282-288 | each move is paired with its comparator key, position by position |
| Ordering.Order | src/ai/AlphaBetaC2.java:281-289 | the list `orderMoves` leaves, a permutation of its input (`Ordering.OrderPermutes`) sorted stably by the key; `Ordering.OrderMoves` computes it |
| Ordering.OrderPermutes | src/ai/BetterSquares.java:409-435 | ordering only permutes: the same moves, each as often |
| Ordering.IsCaptureOn | src/ai/BetterSquares.java:438-448 | the board test is `isCapture` on the board's value, whose meaning `Ordering.CaptureMeaning` states |
| Ordering.MvvLvaOn | src/ai/BetterSquares.java:450-456 | the board score is `mvvLvaScore` on the board's value, whose range `Ordering.MvvLvaRange` states |
| Ordering.SortKeyOn | src/ai/BetterSquares.java:410-434 | the comparator plays the move on a copy and returns the key of the chosen ordering, leaving the board unchanged |
| Ordering.OrderMoves | src/ai/AlphaBetaC2.java:281-289 | the moves paired with their keys and stably sorted, which `Ordering.OrderPermutes`, `Ordering.StableSortSorted` and `Ordering.StableSortStable` characterise |
| Search.Minimax | src/ai/SearchEngine.java:309-337 | `minimax`, bounded by the bound plus the depth (`SearchFacts.MinimaxBound`) and equal to full-window alpha-beta (`SearchFacts.FullWindowEqualsMinimax`); `SearchMethods.MinimaxSearch` computes it |
| Search.AlphaBeta | src/ai/SearchEngine.java:228-266 | `alphabeta`, which agrees with `Search.Minimax` inside its window (`SearchFacts.AlphaBetaClamp`) and with the mate cutoff off mate scores (`SearchFacts.MateCutoffAgreesWithMinimax`); `SearchMethods.AlphaBetaSearch` computes it |
| Search.Quiescence | src/ai/AlphaBetaC2.java:241-278 | fail-hard `quiescence`, equal to `Search.QRef` clamped to the window (`SearchFacts.QuiescenceClamp`); `SearchMethods.QuiescenceSearch` computes it |
| Search.QRef | src/ai/AlphaBetaC2.java:241-278 | the unwindowed value quiescence stands for: stand pat or the best tactical line, bounded (`SearchFacts.QRefBound`) and the reference `SearchFacts.QuiescenceClamp` compares the search to |
| SearchFacts.BestMonotone | src/ai/SearchEngine.java:324-335 | the running best of `minimax` only improves for its side as more children are searched |
| SearchFacts.BestNext | src/ai/SearchEngine.java:325-334 | one more child combines the best so far with that child's minimax value, by max for white and min for black |
| SearchFacts.BestStep | src/ai/SearchEngine.java:325-334 | one more child never worsens the running best for the node's side |
| SearchFacts.QRefOverMonotone | src/ai/AlphaBetaC2.java:241-278 | the reference value of quiescence only improves for its side as more tactical moves are considered |
| SearchFacts.QuiescenceClamp | src/ai/AlphaBetaC2.java:241-278 | fail-hard quiescence returns, on a position that is not over, exactly the window-free value (stand pat or the best tactical line) forced into the window, and agrees with it inside the window in every case |
| SearchFacts.QLoopClamp | src/ai/AlphaBetaC2.java:264-278 | the loop over the tactical moves, started with the window raised by stand pat, ends at the reference value forced into the original window |
| SearchFacts.AlphaBetaClamp | src/ai/SearchEngine.java:228-266 | alpha-beta agrees with minimax inside the window it is given; with the mate cutoff, inside the window narrowed to the mate scores |
| SearchFacts.ABLoopClampMax | src/ai/SearchEngine.java:241-252 | the maximising child loop, cutoffs included, ends at a value that agrees with the node's minimax value inside the window |
| SearchFacts.ABLoopClampMin | src/ai/SearchEngine.java:253-264 | the minimising child loop, cutoffs included, ends at a value that agrees with the node's minimax value inside the window |
| SearchFacts.QRefBound | src/ai/AlphaBetaC2.java:241-278 | the reference value of quiescence stays within the bound on evaluations and terminal scores |
| SearchFacts.QRefOverBound | src/ai/AlphaBetaC2.java:264-277 | stand pat combined with any number of tactical lines stays within that bound |
| SearchFacts.MinimaxBound | src/ai/SearchEngine.java:309-337 | minimax values stay within the bound plus the depth: a node with children takes one of their values and never returns its `MIN_VALUE`/`MAX_VALUE` start value |
| SearchFacts.BestBound | src/ai/SearchEngine.java:324-336 | the best of one or more children stays within the bound plus the depth |
| SearchFacts.FullWindowEqualsMinimax | src/ai/SearchEngine.java:228-337 | `alphabeta` called with the full window (MIN_VALUE, MAX_VALUE) returns exactly the `minimax` value at every depth, for every game whose scores stay off the sentinels |
| SearchFacts.MateCutoffAgreesWithMinimax | src/ai/AlphaBetaB.java:106-145 | with the mate cutoff and the full window, alpha-beta returns the minimax value whenever that is not a mate score, and a mate score for a side exactly when minimax does |
| Selection.Select | src/ai/SearchEngine.java:280-303 | the root loops' strict-improvement choice: the first move with the best score (`Selection.SelectFirstBest`), unchanged by adding the depth (`Selection.SelectShift`) |
| Selection.SelectFirstBest | src/ai/AlphaBetaC2.java:60-88 | a root loop that replaces its pick only on a strictly better score ends with nothing exactly when no score beats the starting value (and then keeps that value); otherwise its pick holds the best score, beats the start, and every earlier entry scores strictly worse, so it is the first best move |
| Selection.SelectPrefix | src/ai/AlphaBetaC2.java:64-84 | the loop's state after k+1 moves is its state after k moves updated by the (k+1)-th score alone, so a loop stopped early holds the pick over the moves it saw |
| Selection.SelectShift | src/ai/SearchEngine.java:107-125 | adding the same constant (the depth added at the timed root) to every score, when every score beats its sentinel, leaves the chosen move unchanged and shifts the chosen value by that constant |
| PrincipalVariation.AlphaBetaPV | src/ai/AlphaBetaC2.java:112-152 | `alphaBetaWithPV`: the score of `Search.AlphaBeta` (`PrincipalVariation.PVScore`) with a playable line (`PrincipalVariation.PVIsLine`); `SearchMethods.AlphaBetaPVSearch` computes it |
| PrincipalVariation.PVScore | src/ai/AlphaBetaC2.java:112-152 | the score returned with a principal variation is exactly the score of the plain alpha-beta search over the same window, depth and side |
| PrincipalVariation.PVLoopScore | src/ai/AlphaBetaC2.java:131-150 | the move loop that also records the variation reaches the same score as the plain alpha-beta move loop from the same window |
| PrincipalVariation.PVIsLine | src/ai/BetterSquares.java:194-228 | the variation returned is a playable line: every move is one the search tries at the node it reaches, the sides alternate starting with the side to move, and it holds at most depth moves; a leaf, a finished game or a side without moves returns an empty line, and an interior node returns either the untouched sentinel with an empty line or, for some move it tried, that child's score with the move in front of the child's line |
| PrincipalVariation.PVLoopLine | src/ai/AlphaBetaC2.java:131-150 | starting from a kept variation that is a playable line of at most depth moves and is the sentinel or some child's result behind its move, the move loop ends with such a variation too: each improvement replaces it by a move tried at this node followed by the child's line, with the child's score |
| ForcedChecks.CheckSearch | src/ai/AlphaBetaC2.java:157-200 | `forcedCheckSequenceWithPV` in either orientation: bounded (`ForcedChecks.CheckBound`), the defender's first best defence (`ForcedChecks.DefenderChooses`), a line of legal moves (`ForcedChecks.CheckLines`); `SearchMethods.CheckSearchMethod` computes it |
| ForcedChecks.Defence | src/ai/BetterSquares.java:260-323 | the worth of one defence, bounded (`ForcedChecks.DefenceBound`), the engine's first best reply (`ForcedChecks.EngineChooses`), with the line shape of `ForcedChecks.DefenceLines` |
| ForcedChecks.Reply | src/ai/BetterSquares.java:289-313 | the worth of one reply, bounded (`ForcedChecks.ReplyBound`) and starting its line (`ForcedChecks.ReplyLines`) |
| ForcedChecks.Scores | src/ai/AlphaBetaC2.java:168-197 | the scores the defence loop compares are, position by position, the scores of the results it walks |
| ForcedChecks.Defences | src/ai/AlphaBetaC2.java:169-197 | one result per legal defence, in the order the generator lists the defender's moves, each the worth of that defence |
| ForcedChecks.Replies | src/ai/AlphaBetaC2.java:181-192 | one result per legal reply of the engine after a defence, in the generator's order, each the worth of that reply |
| ForcedChecks.CheckBound | src/ai/AlphaBetaC2.java:157-200 | when terminal scores and evaluations lie within a bound, so does every forced-check result: a defence or reply loop over at least one move never returns its Integer.MAX_VALUE or MIN_VALUE sentinel |
| ForcedChecks.DefenceBound | src/ai/BetterSquares.java:260-323 | the worth of each defence (terminal, stalemate-or-mate, or best reply) lies within the bound |
| ForcedChecks.ReplyBound | src/ai/BetterSquares.java:289-313 | the worth of each reply (terminal, deeper forced check, or static evaluation) lies within the bound |
| ForcedChecks.ChosenBound | src/ai/AlphaBetaC2.java:168-197 | a loop over bounded results, at least one, always picks one of them (never keeps the sentinel) and so returns a bounded score |
| ForcedChecks.ChosenFirstBest | src/ai/AlphaBetaC2.java:180-192 | such a loop returns the first result whose score is best for the side choosing: none scores strictly better and every earlier one strictly worse |
| ForcedChecks.DefenderChooses | src/ai/AlphaBetaC2.java:157-200 | when the defender is in check, the game is not over and it has moves, the search returns the first defence best for the defender as oriented (smallest score in the source's orientation) |
| ForcedChecks.EngineChooses | src/ai/AlphaBetaC2.java:170-197 | a defence after which the engine has replies is worth the first reply best for the engine, and its line is that reply's line (behind the defence in the guarded version) |
| ForcedChecks.CheckLines | src/ai/BetterSquares.java:242-328 | the line returned is, in the version that records defences, a sequence of legal moves alternating from the defender with at most two moves per remaining check; in the version without them, the engine's moves alone, each answering some legal defence, at most one per remaining check |
| ForcedChecks.DefenceLines | src/ai/BetterSquares.java:260-323 | the same line shape and length bound for the result of every single defence |
| ForcedChecks.ReplyLines | src/ai/BetterSquares.java:289-313 | the same for every reply: it starts with the engine's legal reply, at most 2·rem−1 moves when defences are recorded, at most rem otherwise |
| ForcedChecks.ForcedCheck | src/ai/AlphaBetaC2.java:157-200 | the forced-check search oriented by the engine's colour, the evidently intended one, whose optimality for the defender `ForcedChecks.DefenderPlaysForItsColour` proves; not the code as written (`ForcedChecks.BlackCheckMisjudged`) |
| ForcedChecks.DefenderPlaysForItsColour | src/ai/AlphaBetaC2.java:157-200 | with the loops oriented by the engine's colour, no legal defence scores better for the defender than the result, whichever colour the engine plays |
| ForcedChecks.BlackCheckMisjudged | src/ai/AlphaBetaC2.java:168-197 | on a five-position game with black as the engine, the search as written returns 3 although the defender's second move is worth 4 and leaves black only that; oriented by the engine's colour the search returns 4 |
| ForcedChecks.ExampleShaped | src/ai/AlphaBetaC2.java:157-200 | the five-position example game has the moves, checks and evaluations the counterexample relies on |
| ForcedChecks.ExampleDefences | src/ai/AlphaBetaC2.java:169-197 | in any game of that shape, the two defences at the root are worth 3 and 4, each with black's single reply as its line |
| ForcedChecks.ExampleDefence | src/ai/AlphaBetaC2.java:170-197 | in such a game, the defence to position 1 is worth 3 and the one to position 2 is worth 4, each black's only reply |
| ChessSearch.ScoreTerminal | src/ai/AlphaBetaC2.java:335-347 | `scoreTerminal`, a mate score exactly on checkmates and 0 on draws (`ChessSearch.TerminalMeaning`), preferring nearer mates with the depth bonus (`ChessSearch.NearerMateScoresBetter`) |
| ChessSearch.TerminalMeaning | src/ai/AlphaBetaC2.java:335-347 | a terminal score reaches the mate score for white exactly when black is checkmated, reaches minus the mate score exactly when white is, is 0 for every other result, and is at most the mate score plus the remaining depth (the mate score alone where no depth is added, as in `SearchEngine`) |
| ChessSearch.NearerMateScoresBetter | src/ai/AlphaBeta.java:350-362 | with the depth added, a mate found with more depth remaining, that is nearer the root, scores strictly better for the winner than the same mate found deeper |
| ChessSearch.Children | src/ai/AlphaBetaC2.java:121-126 | the moves a node searches: the legal moves, ordered (`ChessSearch.ChildrenPermute`), each on the board and leading to a sound position (`ChessSearch.ChildFacts`) |
| ChessSearch.Tactics | src/ai/AlphaBetaC2.java:254-263 | the tactical moves of quiescence: exactly the legal captures and checks (`ChessSearch.Tactical`), each sound (`ChessSearch.TacticFacts`) |
| ChessSearch.Chess | src/ai/AlphaBetaC2.java:112-152 | the game one search class plays: its children, tactics, evaluation and terminal scores, bounded by the mate score (`ChessSearch.ChessBounded`) |
| ChessSearch.ChildFacts | src/ai/AlphaBetaC2.java:121-126 | every move a search node tries is a legal move of the side to move, on the board, and leads to a sound position again |
| ChessSearch.ChildrenPermute | src/ai/AlphaBetaC2.java:281-289 | ordering the legal moves before the loop neither adds nor drops a move: the moves tried are a permutation of the legal moves |
| ChessSearch.Tactical | src/ai/AlphaBetaC2.java:254-262 | quiescence keeps exactly the legal moves that capture or give check: every kept move is one of them and every such move is kept |
| ChessSearch.TacticFacts | src/ai/AlphaBetaC2.java:254-263 | every move quiescence tries after ordering is legal, leaves a sound position, and captures or gives check |
| ChessSearch.ChessBounded | src/ai/AlphaBetaC2.java:335-347 | every search's game is bounded by the mate score: terminal scores are within it plus the remaining depth, and static evaluations within it |
| Roots.MinimaxRoot | src/ai/SearchEngine.java:275-303 | `findBestMoveMinimax`: null exactly without a move, else the first best move (`Roots.MinimaxRootFirstBest`); `RootMethods.MinimaxRootSearch` computes it |
| Roots.AlphaBetaRoot | src/ai/SearchEngine.java:191-216 | `findBestMoveAlphaBeta`, which picks the minimax root's move (`Roots.AlphaBetaRootIsMinimaxRoot`); `RootMethods.AlphaBetaRootSearch` computes it |
| Roots.InsideSentinels | src/ai/SearchEngine.java:280-303 | when every score lies strictly inside Integer.MIN_VALUE and MAX_VALUE, a root loop starting from its side's sentinel picks nothing exactly when there are no moves, and otherwise picks the first move with the best score |
| Roots.MinimaxRootFirstBest | src/ai/SearchEngine.java:275-303 | `findBestMoveMinimax` returns null exactly when the engine has no legal move, and otherwise the first legal move whose minimax value at depth−1 is best for the engine: none is strictly better and every earlier one strictly worse |
| Roots.AlphaBetaRootLoopAgrees | src/ai/SearchEngine.java:199-214 | the root loop of `findBestMoveAlphaBeta`, which narrows the window by the best score so far, keeps as its pick the minimax root's pick over the moves searched so far, and so ends on the minimax root's pick |
| Roots.AlphaBetaRootIsMinimaxRoot | src/ai/SearchEngine.java:191-216 | without a mate cutoff, `findBestMoveAlphaBeta` returns the same move as `findBestMoveMinimax` at the same depth |
| Roots.WorstCase | src/ai/SearchEngine.java:364-387 | the engine's worst case after a root move: the sentinel or some reply's evaluation (`Roots.WorstCaseIsReply`) |
| Roots.Depth2 | src/ai/SearchEngine.java:351-403 | `findBestMoveDepth2`: the first move with the best worst case (`Roots.Depth2FirstBest`); `RootMethods.Depth2Search` computes it |
| Roots.WorstCaseIsReply | src/ai/SearchEngine.java:364-387 | after a root move the worst case is the opponent's sentinel when it has no reply, otherwise the evaluation of one of its replies, and no reply evaluates better for the opponent |
| Roots.Depth2FirstBest | src/ai/SearchEngine.java:351-403 | `findBestMoveDepth2` (and `findBestBlackMoveDepth2`, its black case) returns null exactly without a legal move, otherwise the first root move whose worst case is best for the engine; a root move the opponent cannot answer keeps the opponent's sentinel as its worst case |
| Roots.Depth5Maximises | src/ai/SearchEngine.java:495-567 | at every ply of `findBestBlackMoveDepth5`, whichever side is to move, the value is at least that of every continuation and equal to one of them (or Integer.MIN_VALUE when none is counted): black's own replies are maximised as white's are |
| Roots.BlackDepth5 | src/ai/SearchEngine.java:472-579 | `findBestBlackMoveDepth5`: black's first move of smallest value (`Roots.BlackDepth5FirstBest`, `Roots.Depth5Maximises`); `RootMethods.BlackDepth5Search` computes it |
| Roots.BlackDepth5FirstBest | src/ai/SearchEngine.java:472-579 | with values below Integer.MAX_VALUE, `findBestBlackMoveDepth5` returns null exactly when black has no legal move, and otherwise black's first root move of smallest value |
| Deepening.Deepen | src/ai/SearchEngine.java:28-63 | iterative deepening with an early stop, whose rounds and result `Deepening.DeepenResult` states and which `Deepening.DeepenAgree` shows depends only on the picks |
| Deepening.MinimaxTimed | src/ai/SearchEngine.java:28-63 | `findBestMoveMinimaxTimed`: the minimax root at depths 1, 2, 3, … as the clock allows; `RootMethods.MinimaxTimedSearch` computes it |
| Deepening.TimedPick | src/ai/SearchEngine.java:109-131 | one depth of `SearchEngine`'s timed alpha-beta root with the depth added to each score, the minimax root's pick (`Deepening.TimedPickIsMinimaxRoot`) |
| Deepening.AlphaBetaTimed | src/ai/SearchEngine.java:98-141 | `SearchEngine.findBestMoveAlphaBetaTimed`, the same move as `Deepening.MinimaxTimed` (`Deepening.AlphaBetaTimedIsMinimaxTimed`); `RootMethods.AlphaBetaTimedSearch` computes it |
| Deepening.FullPick | src/ai/AlphaBetaB.java:51-93 | one full-window depth of the root of `AlphaBeta` and `AlphaBetaB`: without the mate cutoff the minimax root's pick over the same game (`Deepening.FullPickIsMinimaxRoot`); with the cutoff, as in `AlphaBetaB`, the minimax pick only when no root value is a mate score, and a mate flag exactly when some root value is a mate for the engine (`Deepening.MateFoundMeansMinimaxMate`) |
| Deepening.AlphaBetaBTimed | src/ai/AlphaBetaB.java:36-104 | `AlphaBetaB.findBestMoveAlphaBetaTimed`, stopping after the first depth that finds a mate (`Deepening.AlphaBetaBStopsAtMate`); `RootMethods.AlphaBetaBTimedSearch` computes it |
| Deepening.AlphaBetaPlainTimed | src/ai/AlphaBeta.java:34-77 | `AlphaBeta.findBestMoveAlphaBetaTimed`, the same move as the timed minimax root over the same game, with `AlphaBeta`'s depth-offset terminal scores (`Deepening.AlphaBetaPlainTimedIsMinimaxTimed`); `RootMethods.AlphaBetaPlainTimedSearch` computes it |
| Deepening.DeepenResult | src/ai/SearchEngine.java:28-63 | iterative deepening searches depths until the clock's rounds run out or a depth stops it (no earlier depth stops it); it returns the last searched depth's pick when that depth picks a move, keeps the first legal move when no depth was searched, and always returns either that move or some depth's pick |
| Deepening.DeepenAgree | src/ai/SearchEngine.java:98-141 | two deepening loops whose depths pick the same moves return the same move, whatever the clock allows |
| Deepening.DeepenOdd | src/ai/AlphaBetaC2.java:45-108 | over the odd depths 1, 3, 5, … the loop searches at least one depth, no earlier odd depth stops it, the last searched one stops it unless the clock ran out, and the result is that depth's pick when it has one |
| Deepening.TimedPickIsMinimaxRoot | src/ai/SearchEngine.java:107-131 | adding the depth to every root score, as `findBestMoveAlphaBetaTimed` does, changes no pick: each depth picks the move `findBestMoveMinimax` picks at that depth |
| Deepening.AlphaBetaTimedIsMinimaxTimed | src/ai/SearchEngine.java:98-141 | `findBestMoveAlphaBetaTimed` of `SearchEngine` returns the same move as `findBestMoveMinimaxTimed` for every number of depths the clock allows |
| Deepening.MateFoundMeansMinimaxMate | src/ai/AlphaBetaB.java:53-98 | in `AlphaBetaB` a depth reports a mate for the engine exactly when some root move's minimax value is one, and a depth where no root move's minimax value is a mate score picks the minimax root's move |
| Deepening.AlphaBetaBStopsAtMate | src/ai/AlphaBetaB.java:36-104 | `AlphaBetaB`'s deepening ends after the first depth that finds a mate for the engine, or when the clock runs out, and returns that depth's pick when it has one |
| Deepening.FirstMate | src/ai/AlphaBetaC2.java:81-84 | the first root score from a given move on that is a mate for the engine (or the number of moves when none is), with no mate before it |
| Deepening.SelectStop | src/ai/AlphaBetaC2.java:64-85 | the root loop that breaks on a mate for the engine: the full choice over the moves up to the first mate (`Deepening.SelectStopIsSelect`, `Deepening.SelectStopMate`) |
| Deepening.SelectStopIsSelect | src/ai/AlphaBetaC2.java:64-85 | the root loop that breaks on a mate score makes the same choice as the full loop over the moves up to and including the first mate: stopping early only drops later moves |
| Deepening.SelectStopMate | src/ai/AlphaBetaC2.java:77-84 | starting from a value that is no mate, the root loop ends holding a mate for the engine exactly when some root move scores one |
| Deepening.RootResult | src/ai/AlphaBetaC2.java:66-72 | a root move's result: the forced-check search as written when the move gives check, else alpha-beta with its line; `RootMethods.RootResultSearch` computes it |
| Deepening.CheckingPick | src/ai/AlphaBetaC2.java:60-90 | one depth of the `AlphaBetaC2` and `BetterSquares` root, the first best move up to the first mate (`Deepening.CheckingPickFirstBest`); `RootMethods.CheckingPickSearch` computes it |
| Deepening.AlphaBetaC2Timed | src/ai/AlphaBetaC2.java:45-108 | `AlphaBetaC2.findBestMoveAlphaBetaTimed` over depths 1, 3, 5, …, stopping at a mate (`Deepening.CheckingTimedStops`); `RootMethods.AlphaBetaC2TimedSearch` computes it |
| Deepening.BetterSquaresTimed | src/ai/BetterSquares.java:127-189 | `BetterSquares.findBestMoveAlphaBetaTimed`, the same deepening with depths 1 and 3 always searched (`Deepening.CheckingTimedStops`); `RootMethods.BetterSquaresTimedSearch` computes it |
| Deepening.CheckingPickFirstBest | src/ai/BetterSquares.java:140-175 | one depth of the root of `AlphaBetaC2` and `BetterSquares`, where moves that give check are scored by the forced-check search as the code writes it (smallest defence, largest reply, whatever the engine's colour) and the others by alpha-beta with a full window, picks the first best move over the moves up to the first mate, and its score is a mate for the engine exactly when some root move's score is |
| Deepening.CheckingTimedStops | src/ai/AlphaBetaC2.java:45-108 | the deepening over depths 1, 3, 5, … ends after the first depth whose pick scores a mate for the engine, or when the clock runs out, and returns that depth's pick when it has one |
| Deepening.FullPickIsMinimaxRoot | src/ai/AlphaBeta.java:45-70 | without a mate cutoff, one depth of the full-window root (each root move scored by alpha-beta over the full int window, the first strictly best kept) picks the minimax root's move over the same game |
| Deepening.AlphaBetaPlainTimedIsMinimaxTimed | src/ai/AlphaBeta.java:34-77 | `AlphaBeta.findBestMoveAlphaBetaTimed` returns, for every number of depths the clock allows, the move of the timed minimax root over the same game, that is with `AlphaBeta`'s depth-offset terminal scores; it is not `SearchEngine.findBestMoveMinimaxTimed`, whose mate scores carry no offset |
| RootMethods.MinimaxRootSearch | src/ai/SearchEngine.java:275-303 | the imperative root loop returns exactly the minimax root's pick, hence (by `Roots.MinimaxRootFirstBest`) null without a legal move and otherwise the first move of best minimax value |
| RootMethods.AlphaBetaRootSearch | src/ai/SearchEngine.java:191-216 | the imperative narrowing root loop returns the alpha-beta root's pick, which `Roots.AlphaBetaRootIsMinimaxRoot` shows is the minimax root's move |
| RootMethods.Depth2Search | src/ai/SearchEngine.java:351-403 | the two nested loops return the two-ply pick: null without a legal move, else the first root move whose worst case over the opponent's replies is best for the engine |
| RootMethods.Depth5Accumulate | src/ai/SearchEngine.java:495-567 | the nested ply loops fold every counted value below a root move into the running maximum: the result is the larger of the incoming value and the maximum over all continuations |
| RootMethods.BlackDepth5Search | src/ai/SearchEngine.java:472-579 | the imperative five-ply search for black returns black's first root move of smallest value, as `Roots.BlackDepth5FirstBest` characterises it |
| RootMethods.MinimaxRound | src/ai/SearchEngine.java:37-60 | one depth of `findBestMoveMinimaxTimed` advances the deepening by exactly one round: its pick, when there is one, replaces the move kept |
| RootMethods.MinimaxDeepening | src/ai/SearchEngine.java:36-61 | the depth loop returns the deepening over depths 1, 2, 3, … for as many rounds as the clock allows, starting from the first legal move |
| RootMethods.MinimaxTimedSearch | src/ai/SearchEngine.java:28-63 | `findBestMoveMinimaxTimed` returns null without a legal move and otherwise the deepening's move, so by `Deepening.DeepenResult` the last completed depth's minimax pick |
| RootMethods.TimedPickSearch | src/ai/SearchEngine.java:109-131 | one depth of `SearchEngine.findBestMoveAlphaBetaTimed`, scoring each root move by full-window alpha-beta plus the depth, picks the move `Deepening.TimedPickIsMinimaxRoot` relates to the minimax root |
| RootMethods.TimedRound | src/ai/SearchEngine.java:108-135 | one depth of that search advances the deepening by exactly one round |
| RootMethods.TimedDeepening | src/ai/SearchEngine.java:107-139 | its depth loop returns the deepening over depths 1, 2, 3, … from the first legal move |
| RootMethods.AlphaBetaTimedSearch | src/ai/SearchEngine.java:98-141 | `SearchEngine.findBestMoveAlphaBetaTimed` returns the timed alpha-beta root's move, equal to the timed minimax root's by `Deepening.AlphaBetaTimedIsMinimaxTimed` |
| RootMethods.FullPickSearch | src/ai/AlphaBetaB.java:51-93 | one depth of `AlphaBetaB` returns the first strictly best move by full-window value, and raises the mate flag exactly when some root move's value is a mate for the engine |
| RootMethods.FullRound | src/ai/AlphaBetaB.java:51-98 | one depth advances the deepening by one round and reports a stop exactly when that depth found a mate |
| RootMethods.FullDeepening | src/ai/AlphaBetaB.java:44-99 | the depth loop returns the deepening that stops after the first depth finding a mate or when the rounds run out |
| RootMethods.AlphaBetaBTimedSearch | src/ai/AlphaBetaB.java:36-103 | `AlphaBetaB.findBestMoveAlphaBetaTimed` returns null without a legal move and otherwise the move `Deepening.AlphaBetaBStopsAtMate` describes |
| RootMethods.RootResultSearch | src/ai/AlphaBetaC2.java:66-72 | a root move that gives check is scored by the forced-check search three checks deep, oriented as written (the defender keeps the smallest score, the engine the largest), any other by alpha-beta with a line, one ply shallower and with a full window |
| RootMethods.CheckingPickLoop | src/ai/AlphaBetaC2.java:64-85 | the root loop that keeps a strictly better score with its move and breaks on a mate for the engine ends with the pick and value of the stopping choice, which `Deepening.SelectStopIsSelect` relates to the full choice |
| RootMethods.CheckingPickSearch | src/ai/AlphaBetaC2.java:60-90 | one depth of the `AlphaBetaC2` root returns the move and score `Deepening.CheckingPickFirstBest` characterises |
| RootMethods.CheckingTimedSearch | src/ai/BetterSquares.java:136-184 | the deepening over depths 1, 3, 5, … returns the move of the deepening that stops after the first depth whose pick scores a mate for the engine |
| RootMethods.AlphaBetaC2TimedSearch | src/ai/AlphaBetaC2.java:45-108 | `AlphaBetaC2.findBestMoveAlphaBetaTimed` returns null without a legal move and otherwise the move `Deepening.CheckingTimedStops` describes, with forced-check lines that omit the defences and the forced-check loops oriented as written |
| RootMethods.BetterSquaresTimedSearch | src/ai/BetterSquares.java:127-189 | `BetterSquares.findBestMoveAlphaBetaTimed` is the same deepening with defences recorded in the lines, and depths 1 and 3 searched whatever the clock says |
| RootMethods.PlainRound | src/ai/AlphaBeta.java:44-73 | one depth of `AlphaBeta.findBestMoveAlphaBetaTimed` advances the deepening by exactly one round: its full-window pick, when there is one, replaces the move kept |
| RootMethods.PlainDeepening | src/ai/AlphaBeta.java:43-75 | its depth loop returns the deepening over depths 1, 2, 3, … from the first legal move |
| RootMethods.AlphaBetaPlainTimedSearch | src/ai/AlphaBeta.java:34-77 | `AlphaBeta.findBestMoveAlphaBetaTimed` returns null without a legal move and otherwise the move `Deepening.AlphaBetaPlainTimedIsMinimaxTimed` equates with the timed minimax root's |
| SearchMethods.MinimaxSearch | src/ai/SearchEngine.java:309-337 | the imperative `minimax` returns the minimax value of the reference search, which `SearchFacts.FullWindowEqualsMinimax` ties to full-window alpha-beta |
| SearchMethods.QuiescenceSearch | src/ai/AlphaBetaC2.java:241-278 | the imperative `quiescence` (stand pat, then captures and checks, the window narrowed by each score, a cutoff returning the bound) returns the quiescence value of the model, clamped into the window by `SearchFacts.QuiescenceClamp` |
| SearchMethods.AlphaBetaSearch | src/ai/SearchEngine.java:228-266 | the imperative `alphabeta` loop, with its cutoffs (and the mate break of `AlphaBetaB`), returns the alpha-beta value of the model, which agrees with minimax inside the window |
| SearchMethods.AlphaBetaPVSearch | src/ai/AlphaBetaC2.java:112-152 | the imperative `alphabetaTimedWithPV` returns the model's result: its score is plain alpha-beta's (`PrincipalVariation.PVScore`) and its line a playable line (`PrincipalVariation.PVIsLine`) |
| SearchMethods.CheckSearchMethod | src/ai/AlphaBetaC2.java:157-200 | the imperative `forcedCheckSequenceWithPV` returns the forced-check result of the model, with the bounds and line shapes proved in `ForcedChecks` |
| SearchMethods.DefencesLoop | src/ai/AlphaBetaC2.java:168-197 | the loop over the defences ends on the first defence result best for the defender, or the sentinel with an empty line when there is none |
| SearchMethods.DefenceMethod | src/ai/BetterSquares.java:260-323 | one defence is scored as the model's defence: terminal when it ends the game (recording the defence), terminal when the engine has no reply, else the best reply |
| SearchMethods.RepliesLoop | src/ai/AlphaBetaC2.java:180-192 | the loop over the engine's replies ends on the first reply result best for the engine, or the sentinel when there is none |
| SearchMethods.ReplyMethod | src/ai/BetterSquares.java:289-313 | one reply is scored as the model's reply: terminal when it ends the game, the forced-check search one check further when it gives check, the static evaluation otherwise, the reply put in front of the line |

## Left out

- The clock. `System.nanoTime` and the timeout exception are not modelled. Iterative deepening takes the number of depths the clock lets it complete (`rounds`). A depth cut short leaves the kept move unchanged, as the exception does.
- Console logging. Every `System.out` line in the search classes is side output only.
- `Main`, `Simulator` and `ConsoleUI`. They are the tournament driver and the interactive terminal front-end: I/O only.
- `GuardarAlphabetaC2QUEESTABOMMASEMPATA.java`. Every line of it is commented out.
- The commented-out root and `alphabeta` at `src/ai/AlphaBetaB.java:161-236`. They are dead code.
- `Move.hashCode`. It depends on the library's `Objects.hash`; only `equals` is modelled.
- 32-bit integer overflow. Scores are mathematical integers. `Integer.MIN_VALUE` and `MAX_VALUE` appear only as sentinel constants. The lemmas bound every score by the mate score plus the depth, far inside the int range, so `MATE_SCORE + depth` and the `+ depth` of the timed root never wrap.
- Java's `(char)` cast onto a surrogate. `Moves.Chr` keeps the low sixteen bits of a code as Java does, so an off-board column 8 prints as `i` and a code of 0x10000 as U+0000 in both. A code whose low sixteen bits fall in 0xD800 to 0xDFFF becomes `?`, where Java emits a lone surrogate, because a Dafny `char` cannot hold one. This affects two places only: `Move.toString` (`Moves.ToString`) and the en-passant field of `generateFEN` (`Positions.EnPassantText`, `src/Jogo/Board.java:188-190`). On-board coordinates never reach those codes.
- UTF-16 strings. Java's `length`, `charAt` and `toCharArray` count UTF-16 code units; a Dafny `string` counts Unicode scalar values, so a character outside the Basic Multilingual Plane is one element here and two units in Java. Texts made only of characters below U+10000 behave the same in both. The members below differ on other texts.
- Moves.Parse: lengths and indices count scalar values. `Move.parse` of U+1F600 followed by `ab` sees four units in Java and returns a move from column 55260, row 56783, where the model has three characters and returns `IndexOutOfBounds`; on U+1F600 followed by `a1b` Java reads a black-bishop promotion and the model four other coordinates.
- Moves.PrintParsed: stated for texts whose characters are single UTF-16 units, the texts on which the model's character count is Java's.
- FenLoad.LoadFlags: the en-passant field's length is counted in scalar values. An en-passant field holding only U+1F600 has two units in Java, which sets column 55260 and row 56783, resets the clock and counts the FEN without an exception; the model reports `EnPassantTooShort`.
- FenLoad.LoadShortEnPassant: its one-character field is one scalar value; a single character above U+FFFF is two units in Java and loads without error, so the lemma describes a failure Java has only for characters below U+10000.
- Boards.Board.ReadFlags: reads the en-passant field as `FenLoad.LoadFlags` does, counting scalar values.
- Termination of quiescence. The source's quiescence has no depth bound. The model's takes a `fuel` count, and a node reached with no fuel left searches no further tactical move.
- Off-board moves in `makeMove`. Java's `makeMove` throws `ArrayIndexOutOfBoundsException` for a move whose source or target lies off the board. `Positions.Apply` and `Boards.Board.MakeMove` require both squares on the board instead; the searches only play generated moves, which are on the board, and the search game plays an off-board move as no change.
- Board copies in the searches. The searches work on position values: `Positions.Apply` stands for `new Board(b)` followed by `makeMove`. `Boards.Board.MakeMove` is proved to compute `Apply`, and `Boards.Board.Copy` to copy the value.
- Pawns on their last rank. The generator would index outside the grid there and throw. Every operation that generates moves requires that no pawn of the moving colour stands on its last rank (`Generation.Generable`).
- Unusual en-passant targets. `Generation.Generable` also requires that an en-passant row on the board comes with a column on the board; with a column of -1 or 8 next to a pawn, the Java generator would add a capture off the grid and throw. The search games (`ChessSearch.Chess`) do not require `Generation.Sound`: they treat a position that is not `Sound` as over, with score 0 and no moves. That covers a pawn on its last rank and an en-passant target that is neither absent (-1, -1) nor on row 2 or 5 with a column on the board. The Java searches such a position like any other, so the model's search value for it differs.
- FenLoad.PlaceRank: only the ASCII digits `0` to `9` count as digits. Java's `Character.isDigit` at `src/Jogo/Board.java:338` also accepts every other Unicode decimal digit and then advances the column by the code minus `'0'` (1587 for U+0663), which the model reads as an unknown symbol instead. Likewise a character above U+FFFF in a rank is one unknown symbol (`UnknownSymbol` carrying U+1F600), where Java's `toCharArray` reports the high surrogate first (`'\uD83D'`); the error kind is the same, the symbol it carries differs.
- FenLoad.PlaceRankOutcome: its outcome for a rank holding a non-ASCII decimal digit is the unknown-symbol error, not Java's column skip (see `FenLoad.PlaceRank`).
- Boards.Board.ReadRank: reads a rank as `FenLoad.PlaceRank` does: ASCII digits only, and one element per scalar value.
- Boards.Board.LoadFromFen: inherits the ASCII-only digit test of `FenLoad.PlaceRank` for the placement field, and the scalar-value counting of `FenLoad.LoadFlags` and `FenLoad.PlaceRank` for the en-passant and placement fields.
- The root's printed principal variation. `bestPV` and `currentPV` at the roots of `AlphaBetaC2` and `BetterSquares` are only printed, never returned. The root returns the move only; the lines of the searches below it are modelled.
- A depth of zero at a root. With depth 0, `depth - 1` is negative and the Java recursion never reaches its depth-0 leaf. The root functions and methods therefore require a positive depth.
- Roots.BlackDepth5FirstBest: stated only for root values below `Integer.MAX_VALUE`. The source never picks a root of that value, since it cannot beat the sentinel, and returns null when every root has it. The lemma leaves that case unstated.

## Findings

| source | as written | input that shows it | evidently intended | confidence | as-written member | corrected member |
|---|---|---|---|---|---|---|
| src/ai/AlphaBetaC2.java:168-197 | The forced-check search always keeps the smallest defence score and the largest reply score, whichever colour the engine plays; the same holds in `src/ai/BetterSquares.java:259-323`. | Black is the engine and white, in check, defends to a position where black's only reply scores 3, or to one where it scores 4. The search returns 3, as if white played for black. | The defender plays for its own colour: a white defender keeps the largest score and a black one the smallest, so the example is worth 4. | high; proved on the model, not executed | ForcedChecks.BlackCheckMisjudged | ForcedChecks.DefenderPlaysForItsColour |

The roots of `AlphaBetaC2` and `BetterSquares` (`Deepening.RootResult`, `RootMethods.RootResultSearch`) call the forced-check search as the code writes it, so every root row above describes the program as it is. The corrected orientation is `ForcedChecks.ForcedCheck`, about which `ForcedChecks.DefenderPlaysForItsColour` is proved.
