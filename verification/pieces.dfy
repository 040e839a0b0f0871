/**
 * Pieces of the chess board: their kind, their colour and the one-letter code
 * the board stores for them (upper case for white, lower case for black).
 * Whose piece a code is, and which way a pawn walks, are decided by the case
 * of the letter, as in the original window class; the lemmas here show that
 * this case test is exactly the colour of the piece.
 */
module Pieces {

  datatype Color = White | Black

  datatype Kind = Pawn | Rook | Knight | Bishop | Queen | King

  datatype Piece = Piece(kind: Kind, color: Color)

  /** A board cell: the empty code '' or one piece. */
  datatype Cell = Empty | Occupied(piece: Piece)

  /** The player who moves next after `c`: `switch_player` toggles between the two. */
  function Opponent(c: Color): (r: Color)
    ensures r != c
  {
    if c == White then Black else White
  }

  /** Toggling the turn twice gives the turn back. */
  lemma OpponentTwice(c: Color)
    ensures Opponent(Opponent(c)) == c
  {
  }

  predicate IsUpper(ch: char) {
    'A' <= ch <= 'Z'
  }

  predicate IsLower(ch: char) {
    'a' <= ch <= 'z'
  }

  /** Python's `str.lower` on one ASCII letter. */
  function Lower(ch: char): (r: char)
    ensures IsUpper(ch) ==> IsLower(r) && r as int == ch as int + 32
    ensures !IsUpper(ch) ==> r == ch
  {
    if IsUpper(ch) then (ch as int + 32) as char else ch
  }

  /** The lower-case letter the dispatch `mp.lower() == ...` compares against for each kind. */
  function KindLetter(k: Kind): (ch: char)
    ensures IsLower(ch)
  {
    match k
    case Pawn => 'p'
    case Rook => 'r'
    case Knight => 'n'
    case Bishop => 'b'
    case Queen => 'q'
    case King => 'k'
  }

  /** The code stored on the board for a piece. */
  function Letter(p: Piece): (ch: char)
    ensures IsUpper(ch) <==> p.color == White
    ensures IsLower(ch) <==> p.color == Black
    ensures Lower(ch) == KindLetter(p.kind)
  {
    match (p.kind, p.color)
    case (Pawn, White) => 'P'
    case (Rook, White) => 'R'
    case (Knight, White) => 'N'
    case (Bishop, White) => 'B'
    case (Queen, White) => 'Q'
    case (King, White) => 'K'
    case (Pawn, Black) => 'p'
    case (Rook, Black) => 'r'
    case (Knight, Black) => 'n'
    case (Bishop, Black) => 'b'
    case (Queen, Black) => 'q'
    case (King, Black) => 'k'
  }

  /** Different pieces have different codes, so a code names exactly one piece. */
  lemma LetterInjective(p: Piece, q: Piece)
    requires Letter(p) == Letter(q)
    ensures p == q
  {
  }

  /**
   * `is_current_player_piece`: an upper-case code belongs to white, a
   * lower-case code to black.
   */
  predicate IsCurrentPlayerPiece(p: Piece, player: Color)
    ensures IsCurrentPlayerPiece(p, player) <==> p.color == player
  {
    (IsUpper(Letter(p)) && player == White) || (IsLower(Letter(p)) && player == Black)
  }

  /** The row step of a pawn: -1 (towards row 0) for an upper-case code, +1 otherwise. */
  function PawnDir(p: Piece): (d: int)
    ensures p.color == White ==> d == -1
    ensures p.color == Black ==> d == 1
  {
    if IsUpper(Letter(p)) then -1 else 1
  }
}
