/**
 * The game state of the chess window and its click state machine, as pure
 * values: the board, the selected piece and square (if any) and the player
 * to move. `Click` is what one in-board or out-of-board mouse press does;
 * the window class is proved to follow it.
 */
module Game {
  import opened Pieces
  import opened Rules

  datatype Option<T> = None | Some(value: T)

  /** A (row, column) pair, as `selected_pos` holds it. */
  type Square = (int, int)

  datatype GameState = GameState(
    board: Board,
    selectedPiece: Option<Piece>,
    selectedPos: Option<Square>,
    currentPlayer: Color)

  // ---------------------------------------------------------------------------
  // The opening position

  /** The back rank, file by file: rook, knight, bishop, queen, king, bishop, knight, rook. */
  function BackRank(c: int): Kind {
    if c == 0 || c == 7 then Rook
    else if c == 1 || c == 6 then Knight
    else if c == 2 || c == 5 then Bishop
    else if c == 3 then Queen
    else King
  }

  function OpeningCell(r: int, c: int): Cell {
    if r == 0 then Occupied(Piece(BackRank(c), Black))
    else if r == 1 then Occupied(Piece(Pawn, Black))
    else if r == 6 then Occupied(Piece(Pawn, White))
    else if r == 7 then Occupied(Piece(BackRank(c), White))
    else Empty
  }

  function Opening(): (b: Board)
    ensures IsBoard(b)
    ensures forall r, c :: InBoard(r, c) ==> b[r][c] == OpeningCell(r, c)
  {
    seq(Size, r => seq(Size, c => OpeningCell(r, c)))
  }

  /** The string a board cell holds: '' when empty, else the piece's one-letter code. */
  function Code(cell: Cell): (s: string)
    ensures cell.Empty? <==> s == ""
    ensures cell.Occupied? ==> s == [Letter(cell.piece)]
  {
    match cell
    case Empty => ""
    case Occupied(p) => [Letter(p)]
  }

  /** The opening position as the table of codes the window starts from. */
  const OpeningCodes: seq<seq<string>> := [
    ["r", "n", "b", "q", "k", "b", "n", "r"],
    ["p", "p", "p", "p", "p", "p", "p", "p"],
    ["", "", "", "", "", "", "", ""],
    ["", "", "", "", "", "", "", ""],
    ["", "", "", "", "", "", "", ""],
    ["", "", "", "", "", "", "", ""],
    ["P", "P", "P", "P", "P", "P", "P", "P"],
    ["R", "N", "B", "Q", "K", "B", "N", "R"]
  ]

  /** The opening board holds, square by square, exactly the codes of the opening table. */
  lemma OpeningMatchesCodes()
    ensures forall r, c :: InBoard(r, c) ==> Code(Opening()[r][c]) == OpeningCodes[r][c]
  {
  }

  /** A fresh game: the opening position, white to move, nothing selected. */
  function Initial(): (g: GameState)
    ensures Inv(g)
  {
    GameState(Opening(), None, None, White)
  }

  // ---------------------------------------------------------------------------
  // The click state machine

  /**
   * The state invariant: the board is 8 by 8, the selected piece and the
   * selected square are set together, and a selection names a square that
   * holds the selected piece, which belongs to the player to move.
   */
  predicate Inv(g: GameState) {
    && IsBoard(g.board)
    && (g.selectedPiece.Some? <==> g.selectedPos.Some?)
    && (g.selectedPos.Some? ==>
          var (r, c) := g.selectedPos.value;
          && InBoard(r, c)
          && g.board[r][c] == Occupied(g.selectedPiece.value)
          && IsCurrentPlayerPiece(g.selectedPiece.value, g.currentPlayer))
  }

  function ClearSelection(g: GameState): GameState {
    g.(selectedPiece := None, selectedPos := None)
  }

  /**
   * One mouse press on square (row, col). Outside the board nothing happens.
   * With nothing selected, a press on a piece of the player to move selects
   * it. With a selection, a press on the selected square deselects; a press
   * elsewhere applies the move when it is legal and hands the turn over, and
   * clears the selection either way.
   */
  ghost function Click(g: GameState, row: int, col: int): (h: GameState)
    requires Inv(g)
    ensures Inv(h)
  {
    if !InBoard(row, col) then g
    else if g.selectedPiece.None? then
      var p := g.board[row][col];
      if p.Occupied? && IsCurrentPlayerPiece(p.piece, g.currentPlayer) then
        g.(selectedPiece := Some(p.piece), selectedPos := Some((row, col)))
      else g
    else
      var (sr, sc) := g.selectedPos.value;
      if (row, col) == (sr, sc) then ClearSelection(g)
      else if IsValidMove(g.board, g.currentPlayer, sr, sc, row, col) then
        ClearSelection(g.(board := ApplyMove(g.board, sr, sc, row, col, g.selectedPiece.value),
                          currentPlayer := Opponent(g.currentPlayer)))
      else ClearSelection(g)
  }

  /** A press outside the 8 by 8 grid changes nothing. */
  lemma ClickOutsideIgnored(g: GameState, row: int, col: int)
    requires Inv(g) && !InBoard(row, col)
    ensures Click(g, row, col) == g
  {
  }

  /**
   * A first press selects exactly when it lands on a piece of the player to
   * move (so a black pawn cannot be selected on white's turn), and never
   * touches the board or the turn.
   */
  lemma FirstClickSelectsOwnPiece(g: GameState, row: int, col: int)
    requires Inv(g) && g.selectedPos.None? && InBoard(row, col)
    ensures var h := Click(g, row, col);
      && h.board == g.board
      && h.currentPlayer == g.currentPlayer
      && (h.selectedPos.Some? <==> g.board[row][col].Occupied? && g.board[row][col].piece.color == g.currentPlayer)
      && (h.selectedPos.Some? ==> h.selectedPos == Some((row, col)) && h.selectedPiece == Some(g.board[row][col].piece))
  {
  }

  /** Every in-board press made while a piece is selected leaves nothing selected. */
  lemma SecondClickClearsSelection(g: GameState, row: int, col: int)
    requires Inv(g) && g.selectedPos.Some? && InBoard(row, col)
    ensures Click(g, row, col).selectedPos.None? && Click(g, row, col).selectedPiece.None?
  {
  }

  /**
   * A second press on another square: when the move is legal the selected
   * piece lands on the pressed square, its start square empties, every other
   * square is unchanged and the turn passes; otherwise board and turn stay.
   */
  lemma SecondClickMoves(g: GameState, row: int, col: int)
    requires Inv(g) && g.selectedPos.Some? && InBoard(row, col) && g.selectedPos.value != (row, col)
    ensures
      var (sr, sc) := g.selectedPos.value;
      var h := Click(g, row, col);
      if IsValidMove(g.board, g.currentPlayer, sr, sc, row, col) then
        && h.board[row][col] == g.board[sr][sc]
        && h.board[sr][sc] == Empty
        && (forall i, j :: InBoard(i, j) && (i, j) != (sr, sc) && (i, j) != (row, col) ==> h.board[i][j] == g.board[i][j])
        && h.currentPlayer == Opponent(g.currentPlayer)
      else
        h.board == g.board && h.currentPlayer == g.currentPlayer
  {
  }

  /** The turn passes exactly when a press changes the board: no move without a turn change and vice versa. */
  lemma TurnPassesIffBoardChanges(g: GameState, row: int, col: int)
    requires Inv(g)
    ensures (Click(g, row, col).currentPlayer != g.currentPlayer) <==> (Click(g, row, col).board != g.board)
  {
  }

  /**
   * In the opening position every white pawn may step one or two squares
   * straight ahead, and may not move sideways along its rank.
   */
  lemma OpeningWhitePawnMoves(c: int)
    requires 0 <= c < Size
    ensures IsValidMove(Opening(), White, 6, c, 5, c)
    ensures IsValidMove(Opening(), White, 6, c, 4, c)
    ensures forall c' :: 0 <= c' < Size && c' != c ==> !IsValidMove(Opening(), White, 6, c, 6, c')
  {
  }
}
