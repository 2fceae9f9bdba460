/** Move ordering of `AlphaBetaC2` and `BetterSquares`: the capture test, the
    MVV-LVA score, the two sort keys and `Collections.sort`, a stable sort,
    here an insertion sort proved sorted, a permutation and stable. */
module Ordering {
  import opened Wrappers
  import opened Pieces
  import opened Moves
  import opened Positions
  import opened Generation
  import opened Evaluation
  import opened Boards
  import opened GenerationFacts
  import Rules

  // ------------------------------------------------------------ capture, MVV-LVA

  /** `isCapture`: the destination is occupied, or a pawn changes file onto
      the en-passant target, or the move promotes. */
  predicate IsCapture(p: Position, m: Move)
    requires OnBoardMove(m)
  {
    || At(p.grid, m.toRow, m.toCol).Some?
    || (IsPawn(At(p.grid, m.fromRow, m.fromCol)) && m.fromCol != m.toCol
        && p.enPassantRow == m.toRow && p.enPassantCol == m.toCol)
    || m.promotion.Some?
  }

  /** `mvvLvaScore`: the victim's value minus the mover's, an empty square
      counting 0. */
  function MvvLva(p: Position, m: Move): int
    requires OnBoardMove(m)
  {
    var victim := At(p.grid, m.toRow, m.toCol);
    var mover := At(p.grid, m.fromRow, m.fromCol);
    (if victim.Some? then PieceValue(victim.value) else 0) - (if mover.Some? then PieceValue(mover.value) else 0)
  }

  /** The score lies within a queen of zero, and is positive exactly when
      the victim is worth more than the mover. */
  lemma MvvLvaRange(p: Position, m: Move)
    requires OnBoardMove(m)
    ensures -QueenValue <= MvvLva(p, m) <= QueenValue
    ensures var victim, mover := At(p.grid, m.toRow, m.toCol), At(p.grid, m.fromRow, m.fromCol);
      victim.Some? && mover.Some? ==>
        (MvvLva(p, m) > 0 <==> PieceValue(victim.value) > PieceValue(mover.value))
  {
  }

  /** For a legal move, `isCapture` is the test "takes a piece or promotes":
      the destination is occupied, or the pawn takes en passant (it changes
      file onto an empty square), or the move promotes.  The en-passant
      comparison is redundant for such moves: a pawn only changes file onto
      an empty square when that square is the en-passant target. */
  lemma CaptureMeaning(p: Position, white: bool, m: Move)
    requires Sound(p) && m in LegalMoves(p, white)
    ensures IsCapture(p, m) <==>
              (At(p.grid, m.toRow, m.toCol).Some? || EnPassantCapture(p.grid, m) || m.promotion.Some?)
  {
    LegalMoverFacts(p, white, m);
    MoverCapture(p, white, m);
  }

  lemma MoverCapture(p: Position, white: bool, m: Move)
    requires MoverFacts(p, white, m)
    ensures IsCapture(p, m) <==>
              (At(p.grid, m.toRow, m.toCol).Some? || EnPassantCapture(p.grid, m) || m.promotion.Some?)
  {
    if EnPassantCapture(p.grid, m) {
      assert PawnShaped(p, m.fromRow, m.fromCol, white, m);
    }
  }

  /** The move gives check: on the board after it, the side to reply
      (`!maxing`) is in check. */
  predicate GivesCheck(p: Position, m: Move, maxing: bool)
    requires OnBoardMove(m)
  {
    Rules.InCheck(Apply(p, m).grid, !maxing)
  }

  // ------------------------------------------------------------ the keys

  /** Which `orderMoves`: none (the searches that do not sort), the
      check-then-MVV-LVA key of `AlphaBetaC2`, or the five tiers of
      `BetterSquares`. */
  datatype Ordering = Unordered | ChecksFirst | Tiered

  /** `AlphaBetaC2`'s key, sorted ascending: minus 10000 for a check plus the
      MVV-LVA score of a capture. */
  function ChecksFirstKey(p: Position, m: Move, maxing: bool): int
    requires OnBoardMove(m)
  {
    -((if GivesCheck(p, m, maxing) then 10_000 else 0) + (if IsCapture(p, m) then MvvLva(p, m) else 0))
  }

  /** `BetterSquares`' key, sorted descending: promotions, then captures by
      MVV-LVA, then pawn pushes, then checks, then the rest. */
  function TierKey(p: Position, m: Move, maxing: bool): int
    requires OnBoardMove(m)
  {
    if m.promotion.Some? then MaxValue
    else if IsCapture(p, m) then 1000 + MvvLva(p, m)
    else if IsPawn(At(p.grid, m.fromRow, m.fromCol)) && m.fromCol == m.toCol then 200
    else if GivesCheck(p, m, maxing) then 50
    else 0
  }

  /** The tiers, strongest first: a promotion; a capture or a quiet pawn
      push; a check; anything else. */
  function Tier(p: Position, m: Move, maxing: bool): nat
    requires OnBoardMove(m)
  {
    if m.promotion.Some? then 3
    else if IsCapture(p, m) || (IsPawn(At(p.grid, m.fromRow, m.fromCol)) && m.fromCol == m.toCol) then 2
    else if GivesCheck(p, m, maxing) then 1
    else 0
  }

  /** A move of a higher tier always sorts first: a promotion before every
      other move, a capture or pawn push before every check, and a check
      before the rest. */
  lemma TiersOrdered(p: Position, m1: Move, m2: Move, maxing: bool)
    requires OnBoardMove(m1) && OnBoardMove(m2)
    requires Tier(p, m1, maxing) > Tier(p, m2, maxing)
    ensures TierKey(p, m1, maxing) > TierKey(p, m2, maxing)
  {
    MvvLvaRange(p, m1);
    MvvLvaRange(p, m2);
  }

  /** The ascending key each ordering sorts by (the descending tiers
      negated, which a stable sort treats identically). */
  function SortKey(o: Ordering, p: Position, m: Move, maxing: bool): int
    requires OnBoardMove(m)
  {
    match o
    case Unordered => 0
    case ChecksFirst => ChecksFirstKey(p, m, maxing)
    case Tiered => -TierKey(p, m, maxing)
  }

  // ------------------------------------------------------------ stable sort

  type Keyed = (Move, int)

  predicate SortedByKey(xs: seq<Keyed>)
  {
    forall i, j | 0 <= i < j < |xs| :: xs[i].1 <= xs[j].1
  }

  /** The entries with key k, in order. */
  function WithKey(xs: seq<Keyed>, k: int): seq<Keyed>
  {
    if |xs| == 0 then [] else (if xs[0].1 == k then [xs[0]] else []) + WithKey(xs[1..], k)
  }

  /** Puts x in front of the first entry whose key is not smaller. */
  function Insert(x: Keyed, ys: seq<Keyed>): seq<Keyed>
  {
    if |ys| == 0 || x.1 <= ys[0].1 then [x] + ys else [ys[0]] + Insert(x, ys[1..])
  }

  /** `Collections.sort` by key: stable, so entries with equal keys keep
      their order. */
  function StableSort(xs: seq<Keyed>): seq<Keyed>
  {
    if |xs| == 0 then [] else Insert(xs[0], StableSort(xs[1..]))
  }

  lemma {:induction false} InsertPermutes(x: Keyed, ys: seq<Keyed>)
    ensures multiset(Insert(x, ys)) == multiset(ys) + multiset{x}
    decreases |ys|
  {
    if |ys| > 0 && x.1 > ys[0].1 {
      InsertPermutes(x, ys[1..]);
      assert ys == [ys[0]] + ys[1..];
    }
  }

  lemma {:induction false} InsertPermutesMoves(x: Keyed, ys: seq<Keyed>)
    ensures multiset(MovesOf(Insert(x, ys))) == multiset(MovesOf(ys)) + multiset{x.0}
    decreases |ys|
  {
    if |ys| > 0 && x.1 > ys[0].1 {
      InsertPermutesMoves(x, ys[1..]);
      assert ([ys[0]] + Insert(x, ys[1..]))[1..] == Insert(x, ys[1..]);
    } else {
      assert ([x] + ys)[1..] == ys;
    }
  }

  lemma {:induction false} InsertSorted(x: Keyed, ys: seq<Keyed>)
    requires SortedByKey(ys)
    ensures SortedByKey(Insert(x, ys))
    decreases |ys|
  {
    if |ys| > 0 && x.1 > ys[0].1 {
      var rest := Insert(x, ys[1..]);
      InsertSorted(x, ys[1..]);
      InsertPermutes(x, ys[1..]);
      var r := Insert(x, ys);
      assert r == [ys[0]] + rest;
      forall j | 0 < j < |r|
        ensures r[0].1 <= r[j].1
      {
        assert r[j] in multiset(rest);
        assert r[j] == x || r[j] in multiset(ys[1..]);
      }
    }
  }

  lemma {:induction false} InsertStable(x: Keyed, ys: seq<Keyed>, k: int)
    ensures WithKey(Insert(x, ys), k) == WithKey([x] + ys, k)
    decreases |ys|
  {
    if |ys| > 0 && x.1 > ys[0].1 {
      var rest := Insert(x, ys[1..]);
      InsertStable(x, ys[1..], k);
      var r := Insert(x, ys);
      assert r == [ys[0]] + rest;
      assert r[1..] == rest && ([x] + ys)[1..] == ys && ([x] + ys[1..])[1..] == ys[1..];
      assert ([ys[0]] + ([x] + ys[1..]))[1..] == [x] + ys[1..];
    }
  }

  /** The sort returns its input permuted, in ascending key order, and with
      the entries of each key in their original order. */
  lemma {:induction false} StableSortPermutes(xs: seq<Keyed>)
    ensures multiset(StableSort(xs)) == multiset(xs)
  {
    if |xs| > 0 {
      StableSortPermutes(xs[1..]);
      InsertPermutes(xs[0], StableSort(xs[1..]));
      assert xs == [xs[0]] + xs[1..];
    }
  }

  lemma {:induction false} StableSortPermutesMoves(xs: seq<Keyed>)
    ensures multiset(MovesOf(StableSort(xs))) == multiset(MovesOf(xs))
  {
    if |xs| > 0 {
      StableSortPermutesMoves(xs[1..]);
      InsertPermutesMoves(xs[0], StableSort(xs[1..]));
      calc {
        multiset(MovesOf(xs));
        multiset([xs[0].0] + MovesOf(xs[1..]));
        multiset(MovesOf(xs[1..])) + multiset{xs[0].0};
      }
    }
  }

  lemma {:induction false} StableSortSorted(xs: seq<Keyed>)
    ensures SortedByKey(StableSort(xs))
  {
    if |xs| > 0 {
      StableSortSorted(xs[1..]);
      InsertSorted(xs[0], StableSort(xs[1..]));
    }
  }

  lemma {:induction false} StableSortStable(xs: seq<Keyed>, k: int)
    ensures WithKey(StableSort(xs), k) == WithKey(xs, k)
  {
    if |xs| > 0 {
      var rest := StableSort(xs[1..]);
      StableSortStable(xs[1..], k);
      InsertStable(xs[0], rest, k);
      assert ([xs[0]] + rest)[1..] == rest;
    }
  }

  function MovesOf(xs: seq<Keyed>): (ms: seq<Move>)
    ensures |ms| == |xs| && forall i | 0 <= i < |xs| :: ms[i] == xs[i].0
  {
    if |xs| == 0 then [] else [xs[0].0] + MovesOf(xs[1..])
  }

  /** Each move paired with its key. */
  function KeyedMoves(o: Ordering, p: Position, ms: seq<Move>, maxing: bool): (xs: seq<Keyed>)
    requires forall m | m in ms :: OnBoardMove(m)
    ensures |xs| == |ms|
  {
    seq(|ms|, i requires 0 <= i < |ms| => (ms[i], SortKey(o, p, ms[i], maxing)))
  }

  /** The list `orderMoves` leaves: unchanged for the searches that do not
      sort, otherwise stably sorted by the key. */
  function Order(o: Ordering, p: Position, ms: seq<Move>, maxing: bool): seq<Move>
    requires forall m | m in ms :: OnBoardMove(m)
  {
    if o == Unordered then ms else MovesOf(StableSort(KeyedMoves(o, p, ms, maxing)))
  }

  /** Ordering only permutes: the same moves, each as often. */
  lemma OrderPermutes(o: Ordering, p: Position, ms: seq<Move>, maxing: bool)
    requires forall m | m in ms :: OnBoardMove(m)
    ensures multiset(Order(o, p, ms, maxing)) == multiset(ms)
  {
    if o != Unordered {
      var xs := KeyedMoves(o, p, ms, maxing);
      StableSortPermutesMoves(xs);
      assert MovesOf(xs) == ms;
    }
  }

  // ------------------------------------------------------------ on the board

  /** `isCapture` on a board. */
  method IsCaptureOn(b: Board, m: Move) returns (capture: bool)
    requires b.Valid() && OnBoardMove(m)
    ensures capture == IsCapture(b.State(), m)
  {
    if b.grid[m.toRow, m.toCol].Some? {
      return true;
    }
    var pc := b.grid[m.fromRow, m.fromCol];
    if IsPawn(pc) && m.fromCol != m.toCol && b.enPassantRow == m.toRow && b.enPassantCol == m.toCol {
      return true;
    }
    return m.promotion.Some?;
  }

  /** `mvvLvaScore` on a board. */
  method MvvLvaOn(b: Board, m: Move) returns (score: int)
    requires b.Valid() && OnBoardMove(m)
    ensures score == MvvLva(b.State(), m)
  {
    var vic := b.grid[m.toRow, m.toCol];
    var mov := b.grid[m.fromRow, m.fromCol];
    var vv := if vic.Some? then PieceValue(vic.value) else 0;
    var mv := if mov.Some? then PieceValue(mov.value) else 0;
    score := vv - mv;
  }

  /** The comparator's key for one move: the move is played on a copy of
      the board, the check test reads the copy, the rest the original. */
  method SortKeyOn(o: Ordering, b: Board, m: Move, maxing: bool) returns (key: int)
    requires b.Valid() && OnBoardMove(m) && o != Unordered
    ensures key == SortKey(o, b.State(), m, maxing)
  {
    var next := new Board.Copy(b);
    next.MakeMove(m);
    var check := next.IsInCheck(!maxing);
    var capture := IsCaptureOn(b, m);
    var mvv := MvvLvaOn(b, m);
    if o == ChecksFirst {
      key := -((if check then 10_000 else 0) + (if capture then mvv else 0));
    } else {
      var tier;
      if m.promotion.Some? {
        tier := MaxValue;
      } else if capture {
        tier := 1000 + mvv;
      } else if IsPawn(b.grid[m.fromRow, m.fromCol]) && m.fromCol == m.toCol {
        tier := 200;
      } else if check {
        tier := 50;
      } else {
        tier := 0;
      }
      key := -tier;
    }
  }

  /** `orderMoves`: each move paired with its key, then the stable sort. */
  method OrderMoves(o: Ordering, b: Board, moves: seq<Move>, maxing: bool) returns (sorted: seq<Move>)
    requires b.Valid() && o != Unordered && forall m | m in moves :: OnBoardMove(m)
    ensures sorted == Order(o, b.State(), moves, maxing)
  {
    var keyed: seq<Keyed> := [];
    for i := 0 to |moves|
      invariant |keyed| == i
      invariant forall j | 0 <= j < i :: keyed[j] == (moves[j], SortKey(o, b.State(), moves[j], maxing))
    {
      var key := SortKeyOn(o, b, moves[i], maxing);
      keyed := keyed + [(moves[i], key)];
    }
    assert keyed == KeyedMoves(o, b.State(), moves, maxing);
    sorted := MovesOf(StableSort(keyed));
  }
}
