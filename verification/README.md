# Chess board rules engine

A Dafny model of the game logic of a small two-player chess window. The
window keeps an 8 by 8 board of one-letter piece codes, where upper case is
white and lower case is black and `''` is an empty square. It also keeps the
selected piece and square and the player to move. A mouse press selects one
of the mover's pieces. A second press deselects it or tries a move. The
legality engine (`is_valid_move`) rejects friendly fire first. It then
dispatches on the piece letter to a shape rule for pawn, rook, knight,
bishop, queen or king. The rook, bishop and queen also need `path_clear`: the
squares strictly between the endpoints must be empty. A legal move is
written into the board in place and the turn passes. The `R` key rebuilds
the opening position.

The model has four modules:

- `Pieces` (`pieces.dfy`): colours, kinds, pieces and cells, and the
  one-letter code of each piece. Ownership (`is_current_player_piece`) and
  the pawn's direction are defined on the case of that letter, as the
  source does. They are then proved to mean the piece's colour.
- `Rules` (`rules.dfy`): the pure legality engine over a board value. It has
  the shape predicates, `PathClear` (what `path_clear` computes),
  `IsValidMove` and `ApplyMove` (the two board writes of an accepted move).
  Lemmas state each piece's rule and what `path_clear` means geometrically.
- `Game` (`game.dfy`): the game state as a value, the opening position, the
  state invariant, and `Click`, the state machine of one mouse press, with
  lemmas about it.
- `Window` (`window.dfy`): the class `ChessWindow`. It holds an `array2` board
  and the selection and turn fields. Its methods update them in place:
  constructor, `Reset`, `SwitchPlayer`, `MousePress`. Two methods only read:
  `IsValidMove`, and `PathClear` with the source's loops. Each is proved
  against the pure model.

## Model

| member | source | states |
|---|---|---|
| `Pieces.Opponent` | PyQT5_game.py:68-70 | the turn after a toggle is always the other colour |
| `Pieces.OpponentTwice` | PyQT5_game.py:68-70 | toggling the turn twice restores it |
| `Pieces.Letter` | PyQT5_game.py:14-23 | a piece's code is upper case exactly for white, lower case exactly for black, and lowers to its kind's letter |
| `Pieces.LetterInjective` | PyQT5_game.py:79-90 | distinct pieces have distinct codes, so the code determines kind and colour |
| `Pieces.IsCurrentPlayerPiece` | PyQT5_game.py:65-67 | the upper/lower-case test holds exactly when the piece's colour is the player to move |
| `Pieces.PawnDir` | PyQT5_game.py:94 | a pawn steps -1 (towards row 0) when white and +1 when black |
| `Rules.PathClearMeaning` | PyQT5_game.py:115-136 | for a straight or diagonal move, the path is clear iff every square strictly between the endpoints is empty |
| `Rules.PathClearIgnoresEndpoints` | PyQT5_game.py:115-136 | boards that differ only at the two endpoints give the same path verdict, for any pair of squares |
| `Rules.FriendlyFireRejected` | PyQT5_game.py:76-78 | a move onto a piece of the player to move is rejected, whatever the moving piece |
| `Rules.NullMoveRejected` | PyQT5_game.py:76-78 | a piece of the player to move can never move onto its own square |
| `Rules.EmptyStartRejected` | PyQT5_game.py:79-91 | an empty start square matches no piece letter and the move is rejected |
| `Rules.PawnRule` | PyQT5_game.py:92-102 | pawn verdict by colour: straight one step or two from the home rank over an empty square onto an empty target, or one diagonal step onto an occupied target; nothing else |
| `Rules.KnightRule` | PyQT5_game.py:106-108 | a knight move is legal iff the deltas are (2,1) or (1,2) and the target is not the mover's own |
| `Rules.KnightIgnoresOtherSquares` | PyQT5_game.py:83-84 | a knight's verdict depends only on its start and target squares, not on any square between |
| `Rules.KingRule` | PyQT5_game.py:112-114 | a king move is legal iff it moves at most one row and one column onto a square not the mover's own |
| `Rules.SlidingRule` | PyQT5_game.py:81-88 | rook, bishop and queen (rook or bishop shape) are legal iff shape holds, target not friendly, and every square strictly between is empty |
| `Rules.SlidingPieceBlocked` | PyQT5_game.py:81-88 | an occupied square strictly between the endpoints makes any rook, bishop or queen move illegal, whatever is at the target |
| `Rules.ApplyMove` | PyQT5_game.py:59-60 | after a move the start is empty, the end holds the moved piece, and every other square is unchanged |
| `Game.OpeningMatchesCodes` | PyQT5_game.py:14-23 | the opening board holds, square by square, the code table of the window's initial board |
| `Game.Initial` | PyQT5_game.py:14-26 | a fresh game is the opening position with white to move and nothing selected, and satisfies the state invariant |
| `Game.Click` | PyQT5_game.py:42-63 | every press keeps the invariant: any selection is on a square holding the selected piece, which belongs to the player to move |
| `Game.ClickOutsideIgnored` | PyQT5_game.py:46 | a press outside the 8 by 8 grid changes nothing |
| `Game.FirstClickSelectsOwnPiece` | PyQT5_game.py:47-51 | a first press selects iff it lands on a piece of the player to move; board and turn are untouched |
| `Game.SecondClickClearsSelection` | PyQT5_game.py:52-63 | every in-board press made while something is selected leaves nothing selected |
| `Game.SecondClickMoves` | PyQT5_game.py:58-61 | a legal second press moves the piece, empties its start, keeps every other square and passes the turn; an illegal one keeps board and turn |
| `Game.TurnPassesIffBoardChanges` | PyQT5_game.py:58-61 | a press hands over the turn exactly when it changes the board |
| `Game.OpeningWhitePawnMoves` | PyQT5_game.py:92-102 | in the opening, every white pawn may advance one or two squares and may not move sideways |
| `Window.ChessWindow.constructor` | PyQT5_game.py:12-26 | a new window holds a fresh board with the opening position, white to move, nothing selected |
| `Window.ChessWindow.Reset` | PyQT5_game.py:137-141 | reset builds a fresh board and leaves exactly the state of a new window |
| `Window.ChessWindow.SwitchPlayer` | PyQT5_game.py:68-70 | the turn field becomes the other colour and nothing else changes |
| `Window.ChessWindow.PathClear` | PyQT5_game.py:115-136 | the loops return exactly the path verdict of the pure model on the current board |
| `Window.ChessWindow.ScanRow` | PyQT5_game.py:117-121 | the row walk returns true iff every column strictly between the endpoints is empty |
| `Window.ChessWindow.ScanColumn` | PyQT5_game.py:122-126 | the column walk returns true iff every row strictly between the endpoints is empty |
| `Window.ChessWindow.ScanDiagonal` | PyQT5_game.py:127-135 | the diagonal walk returns true iff every square it steps on before reaching the end row or column is empty |
| `Window.ChessWindow.IsValidMove` | PyQT5_game.py:71-91 | the method's verdict on the array board is the pure model's verdict |
| `Window.ChessWindow.MousePress` | PyQT5_game.py:42-64 | the board array is updated in place and the new state is exactly `Game.Click` of the old state; the invariant is kept |

## Left out

- Painting (`paintEvent`): colours, fonts and drawing only read the state.
- The window toolkit: the `QMainWindow` set-up calls, `self.update()`, and
  `main` with the application loop. These are calls into a GUI library.
- Turning a pointer position into a square (`event.y() // square_size`) and
  the key test for `R`. `MousePress` takes a (row, col) pair of any integers
  and `Reset` is called directly. `square_size` is therefore not modelled.
- Python's negative list indices. The legality engine requires both squares
  to lie on the board, and the press handler only reaches it from in-board
  squares.
- Piece codes outside the twelve letters. `Kind` is a closed datatype, so
  the engine's final `return False` for an unknown letter is reached only
  when the start square is empty (`''` lowers to no letter). That case is
  kept and not excluded by a precondition.
- Chess rules the code does not implement: check, checkmate, castling, en
  passant, promotion, draws. None is added.
- `Window.ChessWindow.PathClear` is split into three loop methods, one per
  branch of `path_clear` (`ScanRow`, `ScanColumn`, `ScanDiagonal`). The loops
  and their exit conditions are the source's own.
