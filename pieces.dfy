/** The twelve board occupants of `Jogo.Piece`, in the enum's declaration order,
    with their FEN symbols and the ordinal-based colour tests. */
module Pieces {

  datatype Piece =
    | WhiteKing | WhiteQueen | WhiteRook | WhiteBishop | WhiteKnight | WhitePawn
    | BlackKing | BlackQueen | BlackRook | BlackBishop | BlackKnight | BlackPawn

  /** The six kinds, used to talk about a piece independently of its colour. */
  datatype Kind = King | Queen | Rook | Bishop | Knight | Pawn

  /** Position of the constructor in the enum list (Java's `ordinal()`). */
  function Ordinal(p: Piece): (n: nat)
    ensures n < 12
  {
    match p
    case WhiteKing => 0
    case WhiteQueen => 1
    case WhiteRook => 2
    case WhiteBishop => 3
    case WhiteKnight => 4
    case WhitePawn => 5
    case BlackKing => 6
    case BlackQueen => 7
    case BlackRook => 8
    case BlackBishop => 9
    case BlackKnight => 10
    case BlackPawn => 11
  }

  /** The character given to each constructor; upper case for white. */
  function Symbol(p: Piece): (s: char)
    ensures IsWhite(p) <==> 'A' <= s <= 'Z'
    ensures IsBlack(p) <==> 'a' <= s <= 'z'
  {
    match p
    case WhiteKing => 'K'
    case WhiteQueen => 'Q'
    case WhiteRook => 'R'
    case WhiteBishop => 'B'
    case WhiteKnight => 'N'
    case WhitePawn => 'P'
    case BlackKing => 'k'
    case BlackQueen => 'q'
    case BlackRook => 'r'
    case BlackBishop => 'b'
    case BlackKnight => 'n'
    case BlackPawn => 'p'
  }

  /** White is decided by position in the enum: at or before WHITE_PAWN. */
  predicate IsWhite(p: Piece): (w: bool)
    ensures w <==> p in {WhiteKing, WhiteQueen, WhiteRook, WhiteBishop, WhiteKnight, WhitePawn}
  {
    Ordinal(p) <= Ordinal(WhitePawn)
  }

  /** Black is decided by position in the enum: at or after BLACK_KING. */
  predicate IsBlack(p: Piece): (b: bool)
    ensures b <==> p in {BlackKing, BlackQueen, BlackRook, BlackBishop, BlackKnight, BlackPawn}
    ensures b <==> !IsWhite(p)
  {
    Ordinal(p) >= Ordinal(BlackKing)
  }

  function KindOf(p: Piece): Kind
  {
    match p
    case WhiteKing | BlackKing => King
    case WhiteQueen | BlackQueen => Queen
    case WhiteRook | BlackRook => Rook
    case WhiteBishop | BlackBishop => Bishop
    case WhiteKnight | BlackKnight => Knight
    case WhitePawn | BlackPawn => Pawn
  }

  /** The piece of the given colour and kind. */
  function Make(white: bool, k: Kind): (p: Piece)
    ensures IsWhite(p) == white && KindOf(p) == k
  {
    match k
    case King => if white then WhiteKing else BlackKing
    case Queen => if white then WhiteQueen else BlackQueen
    case Rook => if white then WhiteRook else BlackRook
    case Bishop => if white then WhiteBishop else BlackBishop
    case Knight => if white then WhiteKnight else BlackKnight
    case Pawn => if white then WhitePawn else BlackPawn
  }

  /** ASCII case change, as used between the two colours' symbols. */
  function OtherCase(ch: char): char
  {
    if 'A' <= ch <= 'Z' then (ch as int + 32) as char
    else if 'a' <= ch <= 'z' then (ch as int - 32) as char
    else ch
  }

  /** The same kind in the other colour. */
  function Swap(p: Piece): (q: Piece)
    ensures KindOf(q) == KindOf(p) && IsWhite(q) != IsWhite(p)
    ensures Symbol(q) == OtherCase(Symbol(p))
  {
    Make(!IsWhite(p), KindOf(p))
  }

  /** Swapping colour twice gives the piece back. */
  lemma SwapInvolution(p: Piece)
    ensures Swap(Swap(p)) == p
  {
  }

  /** Distinct pieces have distinct symbols. */
  lemma SymbolInjective(p: Piece, q: Piece)
    ensures Symbol(p) == Symbol(q) ==> p == q
  {
  }

  /** A piece is identified by its colour and kind. */
  lemma ColourAndKindDetermine(p: Piece)
    ensures Make(IsWhite(p), KindOf(p)) == p
  {
  }
}
