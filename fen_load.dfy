/** The reading side of the reduced FEN: `loadFromFEN`, `fenCharToPiece`, and
    the library string operations they use (`String.trim`, splitting on `\s+`
    and on '/'), with the round trip from `generateFEN`. */
module FenLoad {
  import opened Wrappers
  import opened Pieces
  import opened Moves
  import opened Positions

  /** The exceptions `loadFromFEN` can end in. */
  datatype LoadError =
    | TooFewFields            // fewer than four fields
    | WrongRankCount          // a placement with other than eight ranks
    | UnknownSymbol(symbol: char) // a placement character that is neither a digit nor a piece
    | ColumnOutOfRange        // a piece placed past the eighth column
    | EnPassantTooShort       // an en-passant field of one character other than "-"

  // ---------------------------------------------------------------- strings

  /** The characters `String.trim` removes: every code up to the space. */
  predicate Blank(ch: char)
  {
    ch <= ' '
  }

  /** The characters of the regular-expression class `\s`. */
  predicate Separator(ch: char)
  {
    ch == ' ' || ch == '\t' || ch == '\n' || ch == '\U{000B}' || ch == '\U{000C}' || ch == '\r'
  }

  function TrimLeft(s: string): (t: string)
    ensures |t| <= |s| && t == s[|s| - |t|..]
    ensures |t| > 0 ==> !Blank(t[0])
    ensures forall i | 0 <= i < |s| - |t| :: Blank(s[i])
    decreases |s|
  {
    if |s| > 0 && Blank(s[0]) then TrimLeft(s[1..]) else s
  }

  function TrimRight(s: string): (t: string)
    ensures |t| <= |s| && t == s[..|t|]
    ensures |t| > 0 ==> !Blank(t[|t| - 1])
    ensures forall i | |t| <= i < |s| :: Blank(s[i])
    decreases |s|
  {
    if |s| > 0 && Blank(s[|s| - 1]) then TrimRight(s[..|s| - 1]) else s
  }

  /** `String.trim`: the string without its leading and trailing blanks. */
  function Trim(s: string): (t: string)
    ensures |t| > 0 ==> !Blank(t[0]) && !Blank(t[|t| - 1])
  {
    TrimRight(TrimLeft(s))
  }

  /** A string that starts and ends with a non-blank is its own trim. */
  lemma TrimmedAlready(s: string)
    requires |s| > 0 && !Blank(s[0]) && !Blank(s[|s| - 1])
    ensures Trim(s) == s
  {
    assert TrimLeft(s) == s;
  }

  /** The end of the run of non-separators that starts at i. */
  function RunEnd(s: string, i: int): (n: int)
    requires 0 <= i <= |s|
    ensures i <= n <= |s|
    ensures n < |s| ==> Separator(s[n])
    ensures forall j | i <= j < n :: !Separator(s[j])
    decreases |s| - i
  {
    if i == |s| || Separator(s[i]) then i else RunEnd(s, i + 1)
  }

  /** The maximal runs of non-separators, left to right. */
  function Tokens(s: string): (ts: seq<string>)
    ensures forall k | 0 <= k < |ts| :: |ts[k]| > 0
    decreases |s|
  {
    if s == [] then []
    else if Separator(s[0]) then Tokens(s[1..])
    else
      var n := RunEnd(s, 0);
      [s[..n]] + Tokens(s[n..])
  }

  /** `trim().split("\\s+")`: an all-blank text gives one empty field (no
      match leaves the string whole); otherwise a trimmed text neither starts
      nor ends with a separator, so the fields are its runs. */
  function Fields(s: string): (fs: seq<string>)
    ensures fs == [""] || forall k | 0 <= k < |fs| :: |fs[k]| > 0
  {
    var t := Trim(s);
    if |t| == 0 then [""] else Tokens(t)
  }

  /** The pieces between separators, empty ones included. */
  function Chunks(s: string, sep: char): (ps: seq<string>)
    ensures |ps| >= 1
    decreases |s|
  {
    if s == [] then [[]]
    else
      var rest := Chunks(s[1..], sep);
      if s[0] == sep then [[]] + rest else [[s[0]] + rest[0]] + rest[1..]
  }

  function DropTrailingEmpty(ps: seq<string>): (qs: seq<string>)
    ensures |qs| <= |ps| && qs == ps[..|qs|]
    ensures |qs| > 0 ==> qs[|qs| - 1] != []
    ensures forall k | |qs| <= k < |ps| :: ps[k] == []
    decreases |ps|
  {
    if |ps| > 0 && ps[|ps| - 1] == [] then DropTrailingEmpty(ps[..|ps| - 1]) else ps
  }

  /** `split("/")`: the whole string when it holds no '/', otherwise the
      pieces between slashes without the empty ones at the end. */
  function SplitSlash(s: string): seq<string>
  {
    if '/' !in s then [s] else DropTrailingEmpty(Chunks(s, '/'))
  }

  // ---------------------------------------------------------------- placement

  /** `fenCharToPiece`: the piece whose symbol is `ch`; none for any other character. */
  function FenCharToPiece(ch: char): (r: Option<Piece>)
    ensures r.Some? <==> ch in "PNBRQKpnbrqk"
    ensures r.Some? ==> Symbol(r.value) == ch
  {
    match ch
    case 'P' => Some(WhitePawn)
    case 'N' => Some(WhiteKnight)
    case 'B' => Some(WhiteBishop)
    case 'R' => Some(WhiteRook)
    case 'Q' => Some(WhiteQueen)
    case 'K' => Some(WhiteKing)
    case 'p' => Some(BlackPawn)
    case 'n' => Some(BlackKnight)
    case 'b' => Some(BlackBishop)
    case 'r' => Some(BlackRook)
    case 'q' => Some(BlackQueen)
    case 'k' => Some(BlackKing)
    case _ => None
  }

  /** Every piece's symbol reads back as that piece. */
  lemma SymbolReadsBack(p: Piece)
    ensures FenCharToPiece(Symbol(p)) == Some(p)
  {
  }

  predicate IsDigit(ch: char)
  {
    '0' <= ch <= '9'
  }

  /** The inner loop of the placement: the rest of one rank's text read into
      row r from column c on.  A digit skips columns, a piece is stored and
      moves one column on; reading stops at the first error, with the cells
      written so far kept. */
  function PlaceRank(g: Grid, r: int, rank: string, c: int): (Grid, Option<LoadError>)
    requires 0 <= r < 8 && c >= 0
    decreases |rank|
  {
    if rank == [] then (g, None)
    else
      var ch := rank[0];
      if IsDigit(ch) then PlaceRank(g, r, rank[1..], c + (ch as int - '0' as int))
      else match FenCharToPiece(ch)
        case None => (g, Some(UnknownSymbol(ch)))
        case Some(piece) =>
          if c < 8 then PlaceRank(Put(g, r, c, Some(piece)), r, rank[1..], c + 1)
          else (g, Some(ColumnOutOfRange))
  }

  /** The outer loop of the placement: the texts fill the top |ranks| rows,
      the last text the lowest of them, and reading stops at the first
      error. */
  function PlaceRanks(g: Grid, ranks: seq<string>): (Grid, Option<LoadError>)
    requires |ranks| <= 8
    decreases |ranks|
  {
    if ranks == [] then (g, None)
    else
      var (h, e) := PlaceRank(g, 8 - |ranks|, ranks[|ranks| - 1], 0);
      if e.Some? then (h, e) else PlaceRanks(h, ranks[..|ranks| - 1])
  }

  /** One step of the outer loop: row r read from the last text without
      error, then the texts above it. */
  lemma PlaceRanksStep(g: Grid, ranks: seq<string>, r: int, text: string, above: seq<string>)
    requires 0 <= r < 8 && |ranks| == 8 - r
    requires ranks[|ranks| - 1] == text && ranks[..|ranks| - 1] == above
    requires PlaceRank(g, r, text, 0).1 == None
    ensures PlaceRanks(g, ranks) == PlaceRanks(PlaceRank(g, r, text, 0).0, above)
  {
  }

  /** One pass of `loadFromFEN`'s outer loop over the texts of rows r to 7:
      row r's text is read first, and an error there ends the placement. */
  lemma PlaceRanksFrom(g: Grid, ranks: seq<string>, r: int)
    requires |ranks| == 8 && 0 <= r < 8
    ensures var (h, e) := PlaceRank(g, r, ranks[7 - r], 0);
      PlaceRanks(g, ranks[..8 - r]) == if e.Some? then (h, e) else PlaceRanks(h, ranks[..7 - r])
  {
    var rs := ranks[..8 - r];
    assert rs[|rs| - 1] == ranks[7 - r] && rs[..|rs| - 1] == ranks[..7 - r];
  }

  /** The fresh `new Piece[8][8]`: every cell empty. */
  function EmptyGrid(): (g: Grid)
    ensures forall r, c | OnBoard(r, c) :: At(g, r, c) == None
  {
    seq(64, i => None)
  }

  // ---------------------------------------------------------------- loadFromFEN

  /** `loadFromFEN` on the board `p`: the board it leaves and the exception
      it ends in, if any.  The checks on the field and rank counts come before
      any change; the grid is replaced before its ranks are read, so an error
      in a rank leaves the cells written so far; a one-character en-passant
      field other than "-" sets the column and then fails. */
  function Load(p: Position, fen: string): (Position, Option<LoadError>)
  {
    var parts := Fields(fen);
    if |parts| < 4 then (p, Some(TooFewFields))
    else
      var ranks := SplitSlash(parts[0]);
      if |ranks| != 8 then (p, Some(WrongRankCount))
      else
        var placed := PlaceRanks(EmptyGrid(), ranks);
        if placed.1.Some? then (p.(grid := placed.0), placed.1)
        else
          var flagged := LoadFlags(p, placed.0, parts[1], parts[2], parts[3]);
          if flagged.1.Some? then flagged else Reset(flagged.0)
  }

  /** The part of `loadFromFEN` after the placement: the side to move, the
      castling rights and the en-passant square from their fields, and on
      success the clock at 0 and an empty table. */
  function LoadFlags(p: Position, g: Grid, side: string, cast: string, ep: string): (Position, Option<LoadError>)
    requires |ep| > 0
  {
    var white := side == "w";
    var col := ep[0] as int - 'a' as int;
    if ep == "-" then
      (Position(g, -1, -1, 'K' in cast, 'Q' in cast, 'k' in cast, 'q' in cast, white, 0, map[]), None)
    else if |ep| < 2 then
      (Position(g, p.enPassantRow, col, 'K' in cast, 'Q' in cast, 'k' in cast, 'q' in cast, white,
                p.halfmoveClock, p.repetitionCounts), Some(EnPassantTooShort))
    else
      (Position(g, ep[1] as int - '1' as int, col, 'K' in cast, 'Q' in cast, 'k' in cast, 'q' in cast,
                white, 0, map[]), None)
  }

  /** `loadFromFEN` once its fields and ranks have been split and the
      placement has given grid g and outcome e. */
  lemma LoadPlaced(p: Position, fen: string, parts: seq<string>, ranks: seq<string>, g: Grid, e: Option<LoadError>)
    requires parts == Fields(fen) && |parts| >= 4
    requires ranks == SplitSlash(parts[0]) && |ranks| == 8
    requires PlaceRanks(EmptyGrid(), ranks) == (g, e)
    ensures |parts[3]| > 0
    ensures e.Some? ==> Load(p, fen) == (p.(grid := g), e)
    ensures e.None? ==>
      var f := LoadFlags(p.(grid := g), g, parts[1], parts[2], parts[3]);
      Load(p, fen) == if f.1.Some? then f else Reset(f.0)
  {
  }

  /** The end of a successful load: the table holding only the new FEN, once. */
  function Reset(q: Position): (Position, Option<LoadError>)
  {
    (q.(repetitionCounts := map[Fen(q) := 1]), None)
  }

  // ---------------------------------------------------------------- errors

  /** The errors reading a rank can end in: an unknown symbol that occurs in
      the text and is neither a digit nor a piece, or a piece past the last
      column. */
  predicate RankError(e: Option<LoadError>, text: string)
  {
    e.None? || e == Some(ColumnOutOfRange)
    || (e.Some? && e.value.UnknownSymbol? && e.value.symbol in text
        && !IsDigit(e.value.symbol) && FenCharToPiece(e.value.symbol).None?)
  }

  lemma {:induction false} PlaceRankOutcome(g: Grid, r: int, rank: string, c: int)
    requires 0 <= r < 8 && c >= 0
    ensures RankError(PlaceRank(g, r, rank, c).1, rank)
    decreases |rank|
  {
    if rank != [] {
      var ch := rank[0];
      if IsDigit(ch) {
        PlaceRankOutcome(g, r, rank[1..], c + (ch as int - '0' as int));
      } else if FenCharToPiece(ch).Some? && c < 8 {
        PlaceRankOutcome(Put(g, r, c, FenCharToPiece(ch)), r, rank[1..], c + 1);
      }
    }
  }

  lemma {:induction false} PlaceRanksOutcome(g: Grid, ranks: seq<string>)
    requires |ranks| <= 8
    ensures var e := PlaceRanks(g, ranks).1;
      e.None? || exists k | 0 <= k < |ranks| :: e.Some? && RankError(e, ranks[k])
    decreases |ranks|
  {
    if ranks != [] {
      var n := |ranks| - 1;
      var (h, e) := PlaceRank(g, 8 - |ranks|, ranks[n], 0);
      PlaceRankOutcome(g, 8 - |ranks|, ranks[n], 0);
      if e.None? {
        PlaceRanksOutcome(h, ranks[..n]);
        var e' := PlaceRanks(h, ranks[..n]).1;
        if e'.Some? {
          var k :| 0 <= k < n && RankError(e', ranks[..n][k]);
          assert ranks[..n][k] == ranks[k];
        }
      }
    }
  }

  /** The FEN does not depend on the repetition table. */
  lemma FenIgnoresCounts(q: Position, counts: map<string, int>)
    ensures Fen(q.(repetitionCounts := counts)) == Fen(q)
  {
  }

  /** The outcome of `loadFromFEN`: too few fields and a wrong rank count are
      reported before anything changes; an unknown symbol comes from one of
      the ranks; a load without error leaves the clock at 0 and the new FEN
      counted once. */
  lemma LoadOutcome(p: Position, fen: string)
    ensures var (q, e) := Load(p, fen); var parts := Fields(fen);
      && (e == Some(TooFewFields) <==> |parts| < 4)
      && (e == Some(WrongRankCount) <==> |parts| >= 4 && |SplitSlash(parts[0])| != 8)
      && (e == Some(TooFewFields) || e == Some(WrongRankCount) ==> q == p)
      && (e.Some? && e.value.UnknownSymbol? ==>
            exists k | 0 <= k < 8 :: RankError(e, SplitSlash(parts[0])[k]))
      && (e.None? ==> q.halfmoveClock == 0 && q.repetitionCounts == map[Fen(q) := 1])
  {
    var parts := Fields(fen);
    if |parts| < 4 {
      assert Load(p, fen) == (p, Some(TooFewFields));
    } else if |SplitSlash(parts[0])| != 8 {
      assert Load(p, fen) == (p, Some(WrongRankCount));
    } else {
      var ranks := SplitSlash(parts[0]);
      var (g, e) := PlaceRanks(EmptyGrid(), ranks);
      LoadPlaced(p, fen, parts, ranks, g, e);
      PlaceRanksOutcome(EmptyGrid(), ranks);
      if e.None? {
        var f := LoadFlags(p.(grid := g), g, parts[1], parts[2], parts[3]);
        assert f.1 == None || f.1 == Some(EnPassantTooShort);
        if f.1.None? {
          var q := Reset(f.0).0;
          assert Fen(q) == Fen(f.0) by {
            FenIgnoresCounts(f.0, map[Fen(f.0) := 1]);
          }
        }
      }
    }
  }

  /** `loadFromFEN` is not atomic: a placement whose lowest rank starts with
      an unknown symbol fails after the grid was replaced by an empty one, so
      every piece of the board is lost while the other fields are kept. */
  lemma LoadWipesGrid(p: Position, fen: string, ch: char)
    requires |Fields(fen)| >= 4 && |SplitSlash(Fields(fen)[0])| == 8
    requires var text := SplitSlash(Fields(fen)[0])[7]; |text| > 0 && text[0] == ch
    requires !IsDigit(ch) && FenCharToPiece(ch).None?
    ensures Load(p, fen) == (p.(grid := EmptyGrid()), Some(UnknownSymbol(ch)))
  {
    var ranks := SplitSlash(Fields(fen)[0]);
    assert PlaceRank(EmptyGrid(), 0, ranks[7], 0) == (EmptyGrid(), Some(UnknownSymbol(ch)));
  }

  /** A one-character en-passant field other than "-" fails after the grid,
      the side, the castling rights and the en-passant column were set, with
      the row, the clock and the table kept. */
  lemma LoadShortEnPassant(p: Position, fen: string, g: Grid)
    requires |Fields(fen)| >= 4 && |SplitSlash(Fields(fen)[0])| == 8
    requires PlaceRanks(EmptyGrid(), SplitSlash(Fields(fen)[0])) == (g, None)
    requires var ep := Fields(fen)[3]; |ep| == 1 && ep != "-"
    ensures var parts := Fields(fen); var (q, e) := Load(p, fen);
      && e == Some(EnPassantTooShort)
      && q.grid == g && q.whiteToMove == (parts[1] == "w")
      && q.whiteCastleKing == ('K' in parts[2]) && q.whiteCastleQueen == ('Q' in parts[2])
      && q.blackCastleKing == ('k' in parts[2]) && q.blackCastleQueen == ('q' in parts[2])
      && q.enPassantCol == parts[3][0] as int - 'a' as int
      && q.enPassantRow == p.enPassantRow && q.halfmoveClock == p.halfmoveClock
      && q.repetitionCounts == p.repetitionCounts
  {
  }

  // ---------------------------------------------------------------- round trip

  /** Two grids that agree on every square are the same grid. */
  lemma GridsEqual(a: Grid, b: Grid)
    requires forall r, c | OnBoard(r, c) :: At(a, r, c) == At(b, r, c)
    ensures a == b
  {
    forall i | 0 <= i < 64
      ensures a[i] == b[i]
    {
      assert At(a, i / 8, i % 8) == a[i];
    }
  }

  /** The range the characters of a rank's text lie in: digits 1-8 and
      letters, all after '/' and after every blank. */
  predicate RankChar(ch: char)
  {
    '1' <= ch <= 'z'
  }

  lemma SymbolIsRankChar(p: Piece)
    ensures RankChar(Symbol(p)) && !IsDigit(Symbol(p))
  {
    SymbolReadsBack(p);
  }

  /** A rank's text holds digits 1-8 and piece symbols only, and is not empty
      as long as a cell or a pending empty run is left to write. */
  lemma {:induction false} RankTextChars(cells: seq<Square>, emp: int)
    requires 0 <= emp && emp + |cells| <= 8
    ensures forall i | 0 <= i < |RankText(cells, emp)| :: RankChar(RankText(cells, emp)[i])
    ensures |cells| > 0 || emp > 0 ==> |RankText(cells, emp)| > 0
    decreases |cells|
  {
    if cells == [] {
    } else if cells[0].None? {
      RankTextChars(cells[1..], emp + 1);
    } else {
      SymbolIsRankChar(cells[0].value);
      RankTextChars(cells[1..], 0);
    }
  }

  /** Reading a pending empty run at the end of a rank reaches column 8
      and changes nothing. */
  lemma PlaceEmptyRun(h: Grid, r: int, emp: int)
    requires 0 <= r < 8 && 0 <= emp <= 8
    ensures PlaceRank(h, r, EmptyRun(emp), 8 - emp) == (h, None)
  {
    if emp > 0 {
      var t := [Digit(emp)];
      assert t[1..] == [];
      assert PlaceRank(h, r, t, 8 - emp) == PlaceRank(h, r, [], 8);
    }
  }

  /** Reading a pending empty run and then a piece symbol skips the run and
      stores the piece. */
  lemma PlacePiece(h: Grid, r: int, c: int, emp: int, piece: Piece, tail: string)
    requires 0 <= r < 8 && 0 <= emp <= c < 8
    ensures PlaceRank(h, r, EmptyRun(emp) + [Symbol(piece)] + tail, c - emp)
         == PlaceRank(Put(h, r, c, Some(piece)), r, tail, c + 1)
  {
    var u := [Symbol(piece)] + tail;
    assert PlaceRank(h, r, u, c) == PlaceRank(Put(h, r, c, Some(piece)), r, tail, c + 1) by {
      assert u[0] == Symbol(piece) && u[1..] == tail;
      SymbolReadsBack(piece);
      SymbolIsRankChar(piece);
    }
    if emp > 0 {
      var t := [Digit(emp)] + u;
      assert EmptyRun(emp) + [Symbol(piece)] + tail == t;
      assert t[0] == Digit(emp) && t[1..] == u;
      assert PlaceRank(h, r, t, c - emp) == PlaceRank(h, r, u, c);
    } else {
      assert EmptyRun(emp) + [Symbol(piece)] + tail == u;
    }
  }

  /** Reading back the text of row r from column c on, with `emp` empty cells
      pending, into a grid whose row r is still empty from column c - emp:
      no error, row r from there on as in g, every other cell kept. */
  lemma {:induction false} ParseRankText(g: Grid, h: Grid, r: int, c: int, emp: int)
    requires 0 <= r < 8 && 0 <= emp <= c <= 8
    requires forall c' | c - emp <= c' < c :: At(g, r, c') == None
    requires forall c' | c - emp <= c' < 8 :: At(h, r, c') == None
    ensures PlaceRank(h, r, RankText(Row(g, r)[c..], emp), c - emp).1 == None
    ensures forall r', c' | OnBoard(r', c') ::
      At(PlaceRank(h, r, RankText(Row(g, r)[c..], emp), c - emp).0, r', c')
        == if r' == r && c' >= c - emp then At(g, r', c') else At(h, r', c')
    decreases 8 - c
  {
    var cells := Row(g, r)[c..];
    if c == 8 {
      assert cells == [];
      PlaceEmptyRun(h, r, emp);
    } else {
      assert cells[0] == At(g, r, c) && cells[1..] == Row(g, r)[c + 1..];
      if At(g, r, c).None? {
        ParseRankText(g, h, r, c + 1, emp + 1);
      } else {
        var piece := At(g, r, c).value;
        var h' := Put(h, r, c, Some(piece));
        ParseRankText(g, h', r, c + 1, 0);
        PlacePiece(h, r, c, emp, piece, RankText(Row(g, r)[c + 1..], 0));
      }
    }
  }

  /** The texts of the whole rows in `cells`, the highest row first. */
  function Ranks(cells: seq<Square>): (ts: seq<string>)
    requires |cells| % 8 == 0
    ensures |ts| == |cells| / 8
    decreases |cells|
  {
    if cells == [] then [] else Ranks(cells[8..]) + [RankText(cells[..8], 0)]
  }

  /** The texts of rows r to 7: those of the rows above r, then row r's. */
  lemma RanksSplit(g: Grid, r: int)
    requires 0 <= r < 8
    ensures var ranks := Ranks(g[8 * r..]);
      |ranks| == 8 - r && ranks[|ranks| - 1] == RankText(Row(g, r), 0)
      && ranks[..|ranks| - 1] == Ranks(g[8 * (r + 1)..])
  {
    var cells := g[8 * r..];
    assert cells[..8] == Row(g, r) && cells[8..] == g[8 * (r + 1)..];
    assert Ranks(cells) == Ranks(cells[8..]) + [RankText(cells[..8], 0)];
  }

  /** Reading the texts of rows r to 7 of g into a grid holding g's rows
      below r and nothing from row r up gives g back, without error. */
  lemma {:induction false} ParseRanks(g: Grid, h: Grid, r: int)
    requires 0 <= r <= 8
    requires forall r', c' | OnBoard(r', c') :: At(h, r', c') == if r' < r then At(g, r', c') else None
    ensures PlaceRanks(h, Ranks(g[8 * r..])) == (g, None)
    decreases 8 - r
  {
    var cells := g[8 * r..];
    if r == 8 {
      assert cells == [];
      GridsEqual(h, g);
    } else {
      var row := Row(g, r);
      var above := Ranks(g[8 * (r + 1)..]);
      RanksSplit(g, r);
      var placed := PlaceRank(h, r, RankText(row, 0), 0);
      assert placed.1 == None && forall r', c' | OnBoard(r', c') ::
          At(placed.0, r', c') == if r' < r + 1 then At(g, r', c') else None by {
        assert row[0..] == row;
        ParseRankText(g, h, r, 0, 0);
      }
      ParseRanks(g, placed.0, r + 1);
      PlaceRanksStep(h, Ranks(cells), r, RankText(row, 0), above);
    }
  }

  /** Splitting at one separator splits the two sides independently. */
  lemma {:induction false} ChunksSplit(a: string, b: string, sep: char)
    ensures Chunks(a + [sep] + b, sep) == Chunks(a, sep) + Chunks(b, sep)
    decreases |a|
  {
    var s := a + [sep] + b;
    if a == [] {
      assert s == [sep] + b && s[1..] == b;
    } else {
      assert s[0] == a[0];
      assert s[1..] == a[1..] + [sep] + b;
      ChunksSplit(a[1..], b, sep);
    }
  }

  /** A string without the separator is one piece. */
  lemma {:induction false} ChunksWhole(a: string, sep: char)
    requires sep !in a
    ensures Chunks(a, sep) == [a]
    decreases |a|
  {
    if a != [] {
      ChunksWhole(a[1..], sep);
      assert a == [a[0]] + a[1..];
    }
  }

  /** A rank's text is one piece when split at '/', and is not empty. */
  lemma RankTextWhole(cells: seq<Square>)
    requires |cells| == 8
    ensures Chunks(RankText(cells, 0), '/') == [RankText(cells, 0)] && RankText(cells, 0) != []
  {
    RankTextChars(cells, 0);
    assert '/' !in RankText(cells, 0);
    ChunksWhole(RankText(cells, 0), '/');
  }

  /** The placement of one or more whole rows splits at '/' into their texts. */
  lemma {:induction false} PlacementChunks(cells: seq<Square>)
    requires |cells| % 8 == 0 && |cells| >= 8
    ensures Chunks(Placement(cells), '/') == Ranks(cells)
    decreases |cells|
  {
    var t := RankText(cells[..8], 0);
    RankTextWhole(cells[..8]);
    assert Ranks(cells) == Ranks(cells[8..]) + [t];
    if |cells| == 8 {
      assert cells[..8] == cells && cells[8..] == [];
    } else {
      PlacementChunks(cells[8..]);
      ChunksSplit(Placement(cells[8..]), t, '/');
      assert Placement(cells) == Placement(cells[8..]) + ['/'] + t;
    }
  }

  /** The placement field splits at '/' into the eight rank texts. */
  lemma PlacementSplits(g: Grid)
    ensures SplitSlash(Placement(g)) == Ranks(g)
  {
    PlacementChunks(g);
    assert '/' in Placement(g) by {
      assert Placement(g)[|Placement(g[8..])|] == '/';
    }
    assert DropTrailingEmpty(Ranks(g)) == Ranks(g) by {
      RankTextWhole(g[..8]);
    }
  }

  /** The characters of the placement field. */
  lemma {:induction false} PlacementChars(cells: seq<Square>)
    requires |cells| % 8 == 0
    ensures forall i | 0 <= i < |Placement(cells)| :: '/' <= Placement(cells)[i] <= 'z'
    ensures |cells| > 0 ==> |Placement(cells)| > 0
    decreases |cells|
  {
    if |cells| <= 8 {
      RankTextChars(cells, 0);
    } else {
      PlacementChars(cells[8..]);
      RankTextChars(cells[..8], 0);
    }
  }

  lemma TokensJoin(a: string, b: string)
    requires |a| > 0 && forall i | 0 <= i < |a| :: !Separator(a[i])
    ensures Tokens(a + [' '] + b) == [a] + Tokens(b)
  {
    var s := a + [' '] + b;
    assert s[0] == a[0];
    assert s[|a|] == ' ';
    var n := RunEnd(s, 0);
    assert n == |a|;
    assert s[..n] == a;
    assert s[n..] == [' '] + b;
    assert ([' '] + b)[1..] == b;
  }

  /** A non-empty run without separators is a single field. */
  lemma TokensWhole(a: string)
    requires |a| > 0 && forall i | 0 <= i < |a| :: !Separator(a[i])
    ensures Tokens(a) == [a]
  {
    assert RunEnd(a, 0) == |a|;
    assert a[..|a|] == a && a[|a|..] == [];
  }

  /** The castling field as a string of letters, one per right held. */
  function CastlingLetters(wk: bool, wq: bool, bk: bool, bq: bool): string
  {
    (if wk then "K" else "") + (if wq then "Q" else "") + (if bk then "k" else "") + (if bq then "q" else "")
  }

  lemma CastlingIsLetters(wk: bool, wq: bool, bk: bool, bq: bool)
    ensures var s := CastlingLetters(wk, wq, bk, bq);
      CastlingText(wk, wq, bk, bq) == if |s| > 0 then s else "-"
  {
  }

  /** The castling field names each right held by its letter, and is "-"
      when none is held. */
  lemma CastlingReadsBack(wk: bool, wq: bool, bk: bool, bq: bool)
    ensures var s := CastlingText(wk, wq, bk, bq);
      ('K' in s <==> wk) && ('Q' in s <==> wq) && ('k' in s <==> bk) && ('q' in s <==> bq)
  {
    CastlingIsLetters(wk, wq, bk, bq);
  }

  /** A run that is not empty and holds no separator and no blank. */
  predicate Word(a: string)
  {
    |a| > 0 && forall i | 0 <= i < |a| :: !Separator(a[i]) && !Blank(a[i])
  }

  /** Four words joined as `generateFEN` joins its fields are read back as
      those four fields. */
  lemma FieldsOfFen(a: string, white: bool, c: string, d: string)
    requires Word(a) && Word(c) && Word(d)
    ensures Fields(a + (if white then " w " else " b ") + c + " " + d) == [a, if white then "w" else "b", c, d]
  {
    var side := if white then "w" else "b";
    var fen := a + (if white then " w " else " b ") + c + " " + d;
    TokensOfFen(a, side, c, d);
    assert fen == a + [' '] + (side + [' '] + (c + [' '] + d));
    assert Trim(fen) == fen by {
      assert fen[0] == a[0] && fen[|fen| - 1] == d[|d| - 1];
      TrimmedAlready(fen);
    }
  }

  /** Four runs joined by single spaces are the four tokens. */
  lemma TokensOfFen(a: string, b: string, c: string, d: string)
    requires Word(a) && Word(b) && Word(c) && Word(d)
    ensures Tokens(a + [' '] + (b + [' '] + (c + [' '] + d))) == [a, b, c, d]
  {
    TokensWhole(d);
    TokensJoin(c, d);
    TokensJoin(b, c + [' '] + d);
    TokensJoin(a, b + [' '] + (c + [' '] + d));
  }

  lemma PlacementIsWord(g: Grid)
    ensures Word(Placement(g))
  {
    PlacementChars(g);
  }

  lemma CastlingIsWord(wk: bool, wq: bool, bk: bool, bq: bool)
    ensures Word(CastlingText(wk, wq, bk, bq))
  {
    CastlingIsLetters(wk, wq, bk, bq);
    var s := CastlingLetters(wk, wq, bk, bq);
    assert forall i | 0 <= i < |s| :: 'K' <= s[i] <= 'q';
  }

  /** The en-passant field, for no target or a target on the board, is a
      word that reads back as that target. */
  lemma EnPassantReadsBack(row: int, col: int)
    requires (row == -1 && col == -1) || OnBoard(row, col)
    ensures var ep := EnPassantText(row, col);
      && Word(ep)
      && (ep == "-" <==> row == -1)
      && (row != -1 ==> |ep| == 2 && ep[0] as int - 'a' as int == col && ep[1] as int - '1' as int == row)
  {
  }

  /** `loadFromFEN(generateFEN())` restores the grid, the side to move, the
      four castling rights and the en-passant square (when it is none or on
      the board), resets the clock to 0 and leaves the FEN counted once; it
      does so whatever the board held before. */
  lemma LoadFen(p: Position, before: Position)
    requires (p.enPassantRow == -1 && p.enPassantCol == -1) || OnBoard(p.enPassantRow, p.enPassantCol)
    ensures Load(before, Fen(p)) == (p.(halfmoveClock := 0, repetitionCounts := map[Fen(p) := 1]), None)
  {
    var g := p.grid;
    var wk, wq, bk, bq := p.whiteCastleKing, p.whiteCastleQueen, p.blackCastleKing, p.blackCastleQueen;
    var placement := Placement(g);
    var side := if p.whiteToMove then "w" else "b";
    var cast := CastlingText(wk, wq, bk, bq);
    var ep := EnPassantText(p.enPassantRow, p.enPassantCol);
    var fen := Fen(p);
    assert Fields(fen) == [placement, side, cast, ep] by {
      assert fen == placement + (if p.whiteToMove then " w " else " b ") + cast + " " + ep;
      PlacementIsWord(g);
      CastlingIsWord(wk, wq, bk, bq);
      EnPassantReadsBack(p.enPassantRow, p.enPassantCol);
      FieldsOfFen(placement, p.whiteToMove, cast, ep);
    }
    assert |SplitSlash(placement)| == 8 && PlaceRanks(EmptyGrid(), SplitSlash(placement)) == (g, None) by {
      PlacementSplits(g);
      ParseRanks(g, EmptyGrid(), 0);
      assert g[8 * 0..] == g;
    }
    FlagsReadBack(before, p);
    LoadSteps(before, fen, placement, side, cast, ep, g);
    FlagsReadBack(before, p);
    var q := p.(halfmoveClock := 0, repetitionCounts := map[]);
    assert Reset(q) == (p.(halfmoveClock := 0, repetitionCounts := map[fen := 1]), None) by {
      assert Fen(q) == fen;
    }
  }

  /** `loadFromFEN` on four fields whose placement reads without error and
      whose flags read without error. */
  lemma LoadSteps(before: Position, fen: string, a: string, side: string, cast: string, ep: string, g: Grid)
    requires Fields(fen) == [a, side, cast, ep] && |ep| > 0
    requires |SplitSlash(a)| == 8 && PlaceRanks(EmptyGrid(), SplitSlash(a)) == (g, None)
    requires LoadFlags(before, g, side, cast, ep).1 == None
    ensures Load(before, fen) == Reset(LoadFlags(before, g, side, cast, ep).0)
  {
  }

  /** The side, castling and en-passant fields of a FEN read back as the
      position's own, with the clock reset. */
  lemma FlagsReadBack(before: Position, p: Position)
    requires (p.enPassantRow == -1 && p.enPassantCol == -1) || OnBoard(p.enPassantRow, p.enPassantCol)
    ensures var wk, wq, bk, bq := p.whiteCastleKing, p.whiteCastleQueen, p.blackCastleKing, p.blackCastleQueen;
      LoadFlags(before, p.grid, if p.whiteToMove then "w" else "b", CastlingText(wk, wq, bk, bq),
                EnPassantText(p.enPassantRow, p.enPassantCol))
        == (p.(halfmoveClock := 0, repetitionCounts := map[]), None)
  {
    var wk, wq, bk, bq := p.whiteCastleKing, p.whiteCastleQueen, p.blackCastleKing, p.blackCastleQueen;
    var side := if p.whiteToMove then "w" else "b";
    var cast := CastlingText(wk, wq, bk, bq);
    var ep := EnPassantText(p.enPassantRow, p.enPassantCol);
    assert (side == "w") == p.whiteToMove by {
      assert "b"[0] != "w"[0];
    }
    assert ('K' in cast) == wk && ('Q' in cast) == wq && ('k' in cast) == bk && ('q' in cast) == bq by {
      CastlingReadsBack(wk, wq, bk, bq);
    }
    var q := p.(halfmoveClock := 0, repetitionCounts := map[]);
    if p.enPassantRow == -1 {
      assert ep == "-" by {
        EnPassantReadsBack(p.enPassantRow, p.enPassantCol);
      }
      assert Position(p.grid, -1, -1, wk, wq, bk, bq, p.whiteToMove, 0, map[]) == q;
    } else {
      assert ep != "-" && |ep| == 2 && ep[0] as int - 'a' as int == p.enPassantCol
          && ep[1] as int - '1' as int == p.enPassantRow by {
        EnPassantReadsBack(p.enPassantRow, p.enPassantCol);
      }
      assert Position(p.grid, p.enPassantRow, p.enPassantCol, wk, wq, bk, bq, p.whiteToMove, 0, map[]) == q;
    }
  }

}
