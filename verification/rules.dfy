/**
 * The move-legality engine: a pure function of a board, the player to move,
 * a start square and an end square. Friendly fire is rejected first, then the
 * moving piece's kind selects a shape predicate, and the sliding pieces
 * (rook, bishop, queen) also need the squares strictly between the two
 * endpoints to be empty.
 */
module Rules {
  import opened Pieces

  /** `board_size`: the board is always Size by Size. */
  const Size: nat := 8

  /** Row-major cells; row 0 is black's back rank, row 7 white's. */
  type Board = seq<seq<Cell>>

  predicate IsBoard(b: Board) {
    |b| == Size && forall r :: 0 <= r < Size ==> |b[r]| == Size
  }

  predicate InBoard(r: int, c: int) {
    0 <= r < Size && 0 <= c < Size
  }

  function Abs(x: int): nat {
    if x < 0 then -x else x
  }

  /** `x` lies strictly between `a` and `b`, in either order. */
  predicate Strictly(a: int, x: int, b: int) {
    a < x < b || b < x < a
  }

  /** Two boards are equal when they agree on every square. */
  lemma BoardsEqual(a: Board, b: Board)
    requires IsBoard(a) && IsBoard(b)
    requires forall r, c :: InBoard(r, c) ==> a[r][c] == b[r][c]
    ensures a == b
  {
    forall r | 0 <= r < Size
      ensures a[r] == b[r]
    {
      assert forall c :: 0 <= c < Size ==> a[r][c] == b[r][c];
    }
  }

  // ---------------------------------------------------------------------------
  // Shape predicates

  /** `can_move_rook`: same row or same column. */
  predicate CanMoveRook(sr: int, sc: int, er: int, ec: int) {
    sr == er || sc == ec
  }

  /** `can_move_knight`: an L of two and one. */
  predicate CanMoveKnight(sr: int, sc: int, er: int, ec: int) {
    (Abs(sr - er) == 2 && Abs(sc - ec) == 1) || (Abs(sr - er) == 1 && Abs(sc - ec) == 2)
  }

  /** `can_move_bishop`: as many rows as columns. */
  predicate CanMoveBishop(sr: int, sc: int, er: int, ec: int) {
    Abs(sr - er) == Abs(sc - ec)
  }

  /** `can_move_king`: at most one row and one column. */
  predicate CanMoveKing(sr: int, sc: int, er: int, ec: int) {
    Abs(sr - er) <= 1 && Abs(sc - ec) <= 1
  }

  /** The pawn's home rank, tested on the case of its code: row 6 upper case, row 1 lower case. */
  predicate OnHomeRank(sr: int, mp: Piece) {
    (sr == 6 && IsUpper(Letter(mp))) || (sr == 1 && IsLower(Letter(mp)))
  }

  /**
   * `can_move_pawn`: `mp` is the moving pawn, `tp` the target cell. A straight
   * move needs an empty target and is one step, or two steps from the home
   * rank over an empty square; a diagonal step needs an occupied target.
   */
  predicate CanMovePawn(b: Board, sr: int, sc: int, er: int, ec: int, mp: Piece, tp: Cell)
    requires IsBoard(b) && InBoard(sr, sc) && InBoard(er, ec)
  {
    var d := PawnDir(mp);
    if sc == ec && tp.Empty? && er - sr == d then true
    else if sc == ec && tp.Empty? && OnHomeRank(sr, mp) && er - sr == 2 * d
            && b[sr + d][sc].Empty? && tp.Empty? then true
    else Abs(ec - sc) == 1 && er - sr == d && tp.Occupied?
  }

  // ---------------------------------------------------------------------------
  // Path obstruction

  /** The coordinate `k` steps from `from` towards `to`; a tie steps downwards, like `-1` in the source. */
  function Toward(from: int, to: int, k: int): int {
    if to > from then from + k else from - k
  }

  /**
   * What `path_clear` computes. Along a row or a column: every square strictly
   * between the endpoints is empty. Otherwise the walk takes one diagonal step
   * at a time and stops as soon as it reaches the end row or the end column.
   */
  ghost predicate PathClear(b: Board, sr: int, sc: int, er: int, ec: int)
    requires IsBoard(b) && InBoard(sr, sc) && InBoard(er, ec)
  {
    if sr == er then
      forall c :: Strictly(sc, c, ec) ==> b[sr][c].Empty?
    else if sc == ec then
      forall r :: Strictly(sr, r, er) ==> b[r][sc].Empty?
    else
      forall k :: 0 < k < Abs(er - sr) && k < Abs(ec - sc) ==> b[Toward(sr, er, k)][Toward(sc, ec, k)].Empty?
  }

  /** Square (r, c) lies strictly inside the rank, file or diagonal segment from (sr, sc) to (er, ec). */
  predicate Between(sr: int, sc: int, er: int, ec: int, r: int, c: int) {
    || (r == sr == er && Strictly(sc, c, ec))
    || (c == sc == ec && Strictly(sr, r, er))
    || (Abs(r - sr) == Abs(c - sc) && Strictly(sr, r, er) && Strictly(sc, c, ec))
  }

  /**
   * For a straight or diagonal move, `path_clear` holds exactly when every
   * square strictly between the endpoints is empty.
   */
  lemma {:induction false} PathClearMeaning(b: Board, sr: int, sc: int, er: int, ec: int)
    requires IsBoard(b) && InBoard(sr, sc) && InBoard(er, ec)
    requires CanMoveRook(sr, sc, er, ec) || CanMoveBishop(sr, sc, er, ec)
    ensures PathClear(b, sr, sc, er, ec) <==>
            forall r, c :: InBoard(r, c) && Between(sr, sc, er, ec, r, c) ==> b[r][c].Empty?
  {
    if sr != er && sc != ec {
      if PathClear(b, sr, sc, er, ec) {
        forall r, c | InBoard(r, c) && Between(sr, sc, er, ec, r, c)
          ensures b[r][c].Empty?
        {
          var k := Abs(r - sr);
          assert r == Toward(sr, er, k) && c == Toward(sc, ec, k);
        }
      } else {
        var k :| 0 < k < Abs(er - sr) && k < Abs(ec - sc) && !b[Toward(sr, er, k)][Toward(sc, ec, k)].Empty?;
        assert Between(sr, sc, er, ec, Toward(sr, er, k), Toward(sc, ec, k));
      }
    }
  }

  /**
   * `path_clear` never looks at its endpoints: boards that differ only there
   * give the same answer, for every pair of squares.
   */
  lemma PathClearIgnoresEndpoints(b: Board, b': Board, sr: int, sc: int, er: int, ec: int)
    requires IsBoard(b) && IsBoard(b') && InBoard(sr, sc) && InBoard(er, ec)
    requires forall r, c :: InBoard(r, c) && (r, c) != (sr, sc) && (r, c) != (er, ec) ==> b[r][c] == b'[r][c]
    ensures PathClear(b, sr, sc, er, ec) == PathClear(b', sr, sc, er, ec)
  {
  }

  // ---------------------------------------------------------------------------
  // The verdict

  /** The target cell holds a piece of the player to move. */
  predicate Friendly(cell: Cell, player: Color) {
    cell.Occupied? && IsCurrentPlayerPiece(cell.piece, player)
  }

  /**
   * `is_valid_move`. An empty start cell names no piece letter and is
   * rejected by the final fallback, like an unknown letter.
   */
  ghost predicate IsValidMove(b: Board, player: Color, sr: int, sc: int, er: int, ec: int)
    requires IsBoard(b) && InBoard(sr, sc) && InBoard(er, ec)
  {
    var tp := b[er][ec];
    if Friendly(tp, player) then false
    else match b[sr][sc]
      case Empty => false
      case Occupied(mp) =>
        match mp.kind
        case Pawn => CanMovePawn(b, sr, sc, er, ec, mp, tp)
        case Rook => CanMoveRook(sr, sc, er, ec) && PathClear(b, sr, sc, er, ec)
        case Knight => CanMoveKnight(sr, sc, er, ec)
        case Bishop => CanMoveBishop(sr, sc, er, ec) && PathClear(b, sr, sc, er, ec)
        case Queen => (CanMoveRook(sr, sc, er, ec) || CanMoveBishop(sr, sc, er, ec)) && PathClear(b, sr, sc, er, ec)
        case King => CanMoveKing(sr, sc, er, ec)
  }

  /** Landing on a piece of the player to move is rejected, whatever moves. */
  lemma FriendlyFireRejected(b: Board, player: Color, sr: int, sc: int, er: int, ec: int)
    requires IsBoard(b) && InBoard(sr, sc) && InBoard(er, ec)
    requires b[er][ec].Occupied? && b[er][ec].piece.color == player
    ensures !IsValidMove(b, player, sr, sc, er, ec)
  {
  }

  /** A piece of the player to move can never "move" onto its own square. */
  lemma NullMoveRejected(b: Board, player: Color, sr: int, sc: int)
    requires IsBoard(b) && InBoard(sr, sc)
    requires b[sr][sc].Occupied? && b[sr][sc].piece.color == player
    ensures !IsValidMove(b, player, sr, sc, sr, sc)
  {
  }

  /** Nothing moves from an empty square. */
  lemma EmptyStartRejected(b: Board, player: Color, sr: int, sc: int, er: int, ec: int)
    requires IsBoard(b) && InBoard(sr, sc) && InBoard(er, ec)
    requires b[sr][sc].Empty?
    ensures !IsValidMove(b, player, sr, sc, er, ec)
  {
  }

  /** Pawn moves, stated by colour: white walks towards row 0 from home row 6, black towards row 7 from row 1. */
  lemma PawnRule(b: Board, player: Color, sr: int, sc: int, er: int, ec: int)
    requires IsBoard(b) && InBoard(sr, sc) && InBoard(er, ec)
    requires b[sr][sc].Occupied? && b[sr][sc].piece.kind == Pawn
    ensures
      var white := b[sr][sc].piece.color == White;
      var d := if white then -1 else 1;
      var home := if white then 6 else 1;
      IsValidMove(b, player, sr, sc, er, ec) <==>
        && !(b[er][ec].Occupied? && b[er][ec].piece.color == player)
        && (|| (ec == sc && b[er][ec].Empty? && er - sr == d)
            || (ec == sc && b[er][ec].Empty? && sr == home && er - sr == 2 * d && b[sr + d][sc].Empty?)
            || (Abs(ec - sc) == 1 && er - sr == d && b[er][ec].Occupied?))
  {
  }

  /** Knight moves: the L shape onto a square not held by the player to move. */
  lemma KnightRule(b: Board, player: Color, sr: int, sc: int, er: int, ec: int)
    requires IsBoard(b) && InBoard(sr, sc) && InBoard(er, ec)
    requires b[sr][sc].Occupied? && b[sr][sc].piece.kind == Knight
    ensures IsValidMove(b, player, sr, sc, er, ec) <==>
            && ((Abs(er - sr) == 2 && Abs(ec - sc) == 1) || (Abs(er - sr) == 1 && Abs(ec - sc) == 2))
            && !(b[er][ec].Occupied? && b[er][ec].piece.color == player)
  {
  }

  /** A knight jumps: only its own square and its target decide its verdict. */
  lemma KnightIgnoresOtherSquares(b: Board, b': Board, player: Color, sr: int, sc: int, er: int, ec: int)
    requires IsBoard(b) && IsBoard(b') && InBoard(sr, sc) && InBoard(er, ec)
    requires b[sr][sc] == b'[sr][sc] && b[er][ec] == b'[er][ec]
    requires b[sr][sc].Occupied? && b[sr][sc].piece.kind == Knight
    ensures IsValidMove(b, player, sr, sc, er, ec) == IsValidMove(b', player, sr, sc, er, ec)
  {
  }

  /** King moves: at most one square in each direction onto a square not held by the player to move. */
  lemma KingRule(b: Board, player: Color, sr: int, sc: int, er: int, ec: int)
    requires IsBoard(b) && InBoard(sr, sc) && InBoard(er, ec)
    requires b[sr][sc].Occupied? && b[sr][sc].piece.kind == King
    ensures IsValidMove(b, player, sr, sc, er, ec) <==>
            Abs(er - sr) <= 1 && Abs(ec - sc) <= 1 && !(b[er][ec].Occupied? && b[er][ec].piece.color == player)
  {
  }

  /**
   * Rook, bishop and queen: the shape (the queen's is the rook's or the
   * bishop's), a target not held by the player to move, and every square
   * strictly between the endpoints empty.
   */
  lemma SlidingRule(b: Board, player: Color, sr: int, sc: int, er: int, ec: int)
    requires IsBoard(b) && InBoard(sr, sc) && InBoard(er, ec)
    requires b[sr][sc].Occupied? && b[sr][sc].piece.kind in {Rook, Bishop, Queen}
    ensures
      var kind := b[sr][sc].piece.kind;
      var shape := match kind
        case Rook => CanMoveRook(sr, sc, er, ec)
        case Bishop => CanMoveBishop(sr, sc, er, ec)
        case _ => CanMoveRook(sr, sc, er, ec) || CanMoveBishop(sr, sc, er, ec);
      IsValidMove(b, player, sr, sc, er, ec) <==>
        && shape
        && !(b[er][ec].Occupied? && b[er][ec].piece.color == player)
        && forall r, c :: InBoard(r, c) && Between(sr, sc, er, ec, r, c) ==> b[r][c].Empty?
  {
    var kind := b[sr][sc].piece.kind;
    if CanMoveRook(sr, sc, er, ec) || CanMoveBishop(sr, sc, er, ec) {
      PathClearMeaning(b, sr, sc, er, ec);
    }
  }

  /** A rook, bishop or queen with an occupied square strictly between its endpoints cannot move, whatever is at the target. */
  lemma SlidingPieceBlocked(b: Board, player: Color, sr: int, sc: int, er: int, ec: int, r: int, c: int)
    requires IsBoard(b) && InBoard(sr, sc) && InBoard(er, ec) && InBoard(r, c)
    requires b[sr][sc].Occupied? && b[sr][sc].piece.kind in {Rook, Bishop, Queen}
    requires Between(sr, sc, er, ec, r, c) && b[r][c].Occupied?
    ensures !IsValidMove(b, player, sr, sc, er, ec)
  {
    SlidingRule(b, player, sr, sc, er, ec);
  }

  // ---------------------------------------------------------------------------
  // Applying a move

  /**
   * The two writes of an accepted move: the moving piece `p` is written at the
   * end square, then the start square is emptied.
   */
  function ApplyMove(b: Board, sr: int, sc: int, er: int, ec: int, p: Piece): (r: Board)
    requires IsBoard(b) && InBoard(sr, sc) && InBoard(er, ec)
    ensures IsBoard(r)
    ensures r[sr][sc] == Empty
    ensures (er, ec) != (sr, sc) ==> r[er][ec] == Occupied(p)
    ensures forall i, j :: InBoard(i, j) && (i, j) != (sr, sc) && (i, j) != (er, ec) ==> r[i][j] == b[i][j]
  {
    var b1 := b[er := b[er][ec := Occupied(p)]];
    b1[sr := b1[sr][sc := Empty]]
  }
}
