/** `Jogo.Move`: from/to coordinates and an optional promotion piece, with the
    long-algebraic parser, the printer and structural equality. */
module Moves {
  import opened Wrappers
  import opened Pieces

  /** Java's four final int fields and the nullable promotion. */
  datatype Move = Move(fromRow: int, fromCol: int, toRow: int, toCol: int, promotion: Option<Piece>)

  /** The exception `parse` raises: `charAt` past the end of a short string. */
  datatype ParseError = IndexOutOfBounds

  /** The sixteen-bit codes of a Java `char` that a Dafny `char` can also
      hold: 0 to 0xFFFF outside the surrogate range. */
  predicate CharCode(k: int)
  {
    0 <= k < 0xD800 || 0xE000 <= k < 0x1_0000
  }

  /** Java's `(char) k`: the low sixteen bits of k (Dafny's `%` is Euclidean,
      so for a negative k this is the two's-complement truncation too).  A
      surrogate, which a Dafny `char` cannot hold, becomes '?'. */
  function Chr(k: int): (ch: char)
    ensures CharCode(k % 0x1_0000) ==> ch as int == k % 0x1_0000
    ensures CharCode(k) ==> ch as int == k
  {
    var u := k % 0x1_0000;
    if CharCode(u) then u as char else '?'
  }

  /** The piece a fifth character selects; any other character selects none. */
  function PromotionOf(ch: char): (r: Option<Piece>)
    ensures r.Some? <==> ch in "QRBNqrbn"
    ensures r.Some? ==> Symbol(r.value) == ch && KindOf(r.value) in {Queen, Rook, Bishop, Knight}
  {
    match ch
    case 'Q' => Some(WhiteQueen)
    case 'R' => Some(WhiteRook)
    case 'B' => Some(WhiteBishop)
    case 'N' => Some(WhiteKnight)
    case 'q' => Some(BlackQueen)
    case 'r' => Some(BlackRook)
    case 'b' => Some(BlackBishop)
    case 'n' => Some(BlackKnight)
    case _ => None
  }

  /** `Move.parse`: files from 'a' and ranks from '1', with no range check; the
      fifth character is looked at only when the text has exactly five. */
  function Parse(s: string): (r: Result<Move, ParseError>)
    ensures r.Err? <==> |s| < 4
    ensures r.Ok? ==> r.value.promotion == (if |s| == 5 then PromotionOf(s[4]) else None)
    ensures r.Ok? && 'a' <= s[0] <= 'h' && '1' <= s[1] <= '8' ==>
              0 <= r.value.fromCol < 8 && 0 <= r.value.fromRow < 8
    ensures r.Ok? && 'a' <= s[2] <= 'h' && '1' <= s[3] <= '8' ==>
              0 <= r.value.toCol < 8 && 0 <= r.value.toRow < 8
  {
    if |s| < 4 then Err(IndexOutOfBounds)
    else
      Ok(Move(s[1] as int - '1' as int, s[0] as int - 'a' as int,
              s[3] as int - '1' as int, s[2] as int - 'a' as int,
              if |s| == 5 then PromotionOf(s[4]) else None))
  }

  /** `Move.toString`: four characters, plus the promotion's symbol if any. */
  function ToString(m: Move): (s: string)
    ensures |s| == if m.promotion.None? then 4 else 5
    ensures m.promotion.Some? ==> s[4] == Symbol(m.promotion.value)
  {
    var s := [Chr('a' as int + m.fromCol), Chr('1' as int + m.fromRow),
              Chr('a' as int + m.toCol), Chr('1' as int + m.toRow)];
    if m.promotion.Some? then s + [Symbol(m.promotion.value)] else s
  }

  /** `Move.equals` on two moves: all five fields compared. */
  predicate Equals(a: Move, b: Move): (e: bool)
    ensures e <==> a == b
  {
    && a.fromRow == b.fromRow && a.fromCol == b.fromCol
    && a.toRow == b.toRow && a.toCol == b.toCol
    && a.promotion == b.promotion
  }

  /** Coordinates whose printed characters are single non-surrogate UTF-16
      units: every on-board move, and every move `Parse` produced from a text
      of such units. */
  predicate Printable(m: Move)
  {
    && CharCode('a' as int + m.fromCol) && CharCode('1' as int + m.fromRow)
    && CharCode('a' as int + m.toCol) && CharCode('1' as int + m.toRow)
  }

  /** Printing then parsing gives the move back when the promotion is absent or
      one of the four pieces the parser knows. */
  lemma ParsePrinted(m: Move)
    requires Printable(m)
    requires m.promotion.None? || KindOf(m.promotion.value) in {Queen, Rook, Bishop, Knight}
    ensures Parse(ToString(m)) == Ok(m)
  {
    var s := ToString(m);
    if m.promotion.Some? {
      var p := m.promotion.value;
      assert PromotionOf(Symbol(p)) == Some(p) by {
        match p
        case WhiteQueen =>
        case WhiteRook =>
        case WhiteBishop =>
        case WhiteKnight =>
        case BlackQueen =>
        case BlackRook =>
        case BlackBishop =>
        case BlackKnight =>
      }
    }
  }

  /** Parsing then printing gives the text back when it has four characters, or
      five ending in a promotion letter, each a single UTF-16 unit. */
  lemma PrintParsed(s: string)
    requires |s| == 4 || (|s| == 5 && s[4] in "QRBNqrbn")
    requires forall i | 0 <= i < |s| :: s[i] as int < 0x1_0000
    ensures Parse(s).Ok? && ToString(Parse(s).value) == s
  {
    var t := ToString(Parse(s).value);
    assert |t| == |s|;
    forall i | 0 <= i < |s| ensures t[i] == s[i] {
      assert CharCode(s[i] as int);
    }
  }

  /** Structural equality is reflexive and symmetric. */
  lemma EqualsReflexiveSymmetric(a: Move, b: Move)
    ensures Equals(a, a)
    ensures Equals(a, b) == Equals(b, a)
  {
  }
}
