/**
 * The chess window's game logic as an object: an 8 by 8 array of cells that
 * mouse presses update in place, the selection, and the player to move.
 * Every method is proved to do what the pure model in `Game` and `Rules`
 * says; painting and the window toolkit are not modelled.
 */
module Window {
  import opened Pieces
  import opened Rules
  import opened Game

  class ChessWindow {
    var board: array2<Cell>
    var selectedPiece: Option<Piece>
    var selectedPos: Option<Square>
    var currentPlayer: Color

    /** The board as a value, row by row. */
    function Grid(): (g: Board)
      reads this`board, board
      requires board.Length0 == Size && board.Length1 == Size
      ensures IsBoard(g)
      ensures forall r, c :: InBoard(r, c) ==> g[r][c] == board[r, c]
    {
      var a := board;
      seq(Size, r requires 0 <= r < Size reads a =>
        seq(Size, c requires 0 <= c < Size reads a => a[r, c]))
    }

    ghost function State(): GameState
      reads this, board
      requires board.Length0 == Size && board.Length1 == Size
    {
      GameState(Grid(), selectedPiece, selectedPos, currentPlayer)
    }

    ghost predicate Valid()
      reads this, board
    {
      board.Length0 == Size && board.Length1 == Size && Inv(State())
    }

    /** A new window: the opening position, white to move, nothing selected. */
    constructor ()
      ensures Valid() && fresh(board)
      ensures State() == Initial()
    {
      board := new Cell[Size, Size]((r, c) => OpeningCell(r, c));
      selectedPiece := None;
      selectedPos := None;
      currentPlayer := White;
      new;
      BoardsEqual(Grid(), Opening());
    }

    /** The reset key: the whole state is built afresh, exactly as by the constructor. */
    method Reset()
      modifies this
      ensures Valid() && fresh(board)
      ensures State() == Initial()
    {
      board := new Cell[Size, Size]((r, c) => OpeningCell(r, c));
      selectedPiece := None;
      selectedPos := None;
      currentPlayer := White;
      BoardsEqual(Grid(), Opening());
    }

    /** `switch_player`: hand the turn to the other colour. */
    method SwitchPlayer()
      modifies this`currentPlayer
      ensures currentPlayer == Opponent(old(currentPlayer))
    {
      currentPlayer := if currentPlayer == White then Black else White;
    }

    /**
     * `path_clear`: walk the squares strictly between the endpoints, along the
     * row, the column or one diagonal step at a time, and fail on the first
     * occupied one.
     */
    method PathClear(sr: int, sc: int, er: int, ec: int) returns (clear: bool)
      requires board.Length0 == Size && board.Length1 == Size
      requires InBoard(sr, sc) && InBoard(er, ec)
      ensures clear == Rules.PathClear(Grid(), sr, sc, er, ec)
    {
      if sr == er {
        clear := ScanRow(sr, sc, ec);
      } else if sc == ec {
        clear := ScanColumn(sc, sr, er);
      } else {
        clear := ScanDiagonal(sr, sc, er, ec);
      }
    }

    /** The `sr == er` branch of `path_clear`: the columns strictly between `sc` and `ec`. */
    method ScanRow(sr: int, sc: int, ec: int) returns (clear: bool)
      requires board.Length0 == Size && board.Length1 == Size
      requires InBoard(sr, sc) && InBoard(sr, ec)
      ensures clear <==> forall x :: Strictly(sc, x, ec) ==> board[sr, x].Empty?
    {
      var step := if ec > sc then 1 else -1;
      var c := sc + step;
      while if step == 1 then c < ec else c > ec
        invariant step == 1 ==> sc < c <= ec
        invariant step == -1 ==> ec <= sc && ec - 1 <= c < sc
        invariant forall x :: Strictly(sc, x, c) ==> board[sr, x].Empty?
        decreases if step == 1 then ec - c else c - ec
      {
        if board[sr, c] != Empty {
          return false;
        }
        c := c + step;
      }
      return true;
    }

    /** The `sc == ec` branch of `path_clear`: the rows strictly between `sr` and `er`. */
    method ScanColumn(sc: int, sr: int, er: int) returns (clear: bool)
      requires board.Length0 == Size && board.Length1 == Size
      requires InBoard(sr, sc) && InBoard(er, sc)
      ensures clear <==> forall x :: Strictly(sr, x, er) ==> board[x, sc].Empty?
    {
      var step := if er > sr then 1 else -1;
      var r := sr + step;
      while if step == 1 then r < er else r > er
        invariant step == 1 ==> sr < r <= er
        invariant step == -1 ==> er <= sr && er - 1 <= r < sr
        invariant forall x :: Strictly(sr, x, r) ==> board[x, sc].Empty?
        decreases if step == 1 then er - r else r - er
      {
        if board[r, sc] != Empty {
          return false;
        }
        r := r + step;
      }
      return true;
    }

    /**
     * The diagonal branch of `path_clear`: one step in each coordinate at a
     * time, until the walk reaches the end row or the end column.
     */
    method ScanDiagonal(sr: int, sc: int, er: int, ec: int) returns (clear: bool)
      requires board.Length0 == Size && board.Length1 == Size
      requires InBoard(sr, sc) && InBoard(er, ec) && sr != er && sc != ec
      ensures clear <==> forall k :: 0 < k < Abs(er - sr) && k < Abs(ec - sc) ==>
                                     board[Toward(sr, er, k), Toward(sc, ec, k)].Empty?
    {
      var rStep := if er > sr then 1 else -1;
      var cStep := if ec > sc then 1 else -1;
      var r, c := sr + rStep, sc + cStep;
      ghost var k := 1;
      while r != er && c != ec
        invariant 1 <= k <= Abs(er - sr) && k <= Abs(ec - sc)
        invariant r == Toward(sr, er, k) && c == Toward(sc, ec, k)
        invariant forall j :: 0 < j < k ==> board[Toward(sr, er, j), Toward(sc, ec, j)].Empty?
        decreases Abs(er - sr) - k
      {
        if board[r, c] != Empty {
          return false;
        }
        r, c := r + rStep, c + cStep;
        k := k + 1;
      }
      return true;
    }

    /**
     * `is_valid_move`: reject friendly fire, then dispatch on the moving
     * piece's kind; the sliding pieces also walk their path.
     */
    method IsValidMove(start: Square, end: Square) returns (ok: bool)
      requires board.Length0 == Size && board.Length1 == Size
      requires InBoard(start.0, start.1) && InBoard(end.0, end.1)
      ensures ok == Rules.IsValidMove(Grid(), currentPlayer, start.0, start.1, end.0, end.1)
    {
      var (sr, sc) := start;
      var (er, ec) := end;
      var mp := board[sr, sc];
      var tp := board[er, ec];
      if tp.Occupied? && IsCurrentPlayerPiece(tp.piece, currentPlayer) {
        return false;
      }
      match mp
      case Empty =>
        ok := false;
      case Occupied(p) =>
        match p.kind
        case Pawn =>
          ok := CanMovePawn(Grid(), sr, sc, er, ec, p, tp);
        case Rook =>
          ok := CanMoveRook(sr, sc, er, ec);
          if ok {
            ok := PathClear(sr, sc, er, ec);
          }
        case Knight =>
          ok := CanMoveKnight(sr, sc, er, ec);
        case Bishop =>
          ok := CanMoveBishop(sr, sc, er, ec);
          if ok {
            ok := PathClear(sr, sc, er, ec);
          }
        case Queen =>
          ok := CanMoveRook(sr, sc, er, ec) || CanMoveBishop(sr, sc, er, ec);
          if ok {
            ok := PathClear(sr, sc, er, ec);
          }
        case King =>
          ok := CanMoveKing(sr, sc, er, ec);
    }

    /**
     * `mousePressEvent`, from the pressed square on: select, deselect, or try
     * the move, writing the board in place and handing over the turn when it
     * is legal.
     */
    method MousePress(row: int, col: int)
      requires Valid()
      modifies this, board
      ensures Valid() && board == old(board)
      ensures State() == Click(old(State()), row, col)
    {
      if 0 <= row < Size && 0 <= col < Size {
        if selectedPiece.None? {
          var p := board[row, col];
          if p.Occupied? && IsCurrentPlayerPiece(p.piece, currentPlayer) {
            selectedPiece := Some(p.piece);
            selectedPos := Some((row, col));
          }
        } else {
          var (sr, sc) := selectedPos.value;
          if (row, col) == (sr, sc) {
            selectedPiece := None;
            selectedPos := None;
          } else {
            var ok := IsValidMove((sr, sc), (row, col));
            if ok {
              ghost var before := Grid();
              board[row, col] := Occupied(selectedPiece.value);
              board[sr, sc] := Empty;
              BoardsEqual(Grid(), ApplyMove(before, sr, sc, row, col, selectedPiece.value));
              SwitchPlayer();
            }
            selectedPiece := None;
            selectedPos := None;
          }
        }
      }
    }
  }
}
