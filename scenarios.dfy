/**
  Command sequences applied to a fresh game, with the replies and the state
  their contracts state.
 */
module Scenarios {
  import opened Wrappers
  import opened JavaLang
  import opened Board
  import opened Game

  /** A one-digit argument parses to its digit. */
  lemma Digit(s: string, d: int)
    requires 0 <= d < 10 && s == ['0' + d as char]
    ensures ParseInt(s) == Some(d)
  {
    assert s[..0] == [];
    assert DigitsValue(s) == d;
  }

  /** The player argument of a GAME command: a kind and a colour, space-separated. */
  function Arg(kind: string, color: string): string
  {
    kind + " " + color
  }

  /** A player argument splits back into its kind and its colour. */
  lemma SplitArg(kind: string, color: string)
    requires ' ' !in kind && ' ' !in color && color != ""
    ensures Split(Arg(kind, color)) == [kind, color]
  {
    SplitPair(kind, color);
  }

  /** GAME 3, user W, user B on any game: a fresh empty 3 × 3 board. */
  method NewGameOfThree(game: SquaresGame) returns (reply: GameReply)
    requires game.Valid()
    modifies game
    ensures reply == Started(None)
    ensures game.Consistent() && game.gameStarted && game.size == 3 && game.board.Length0 == 3
    ensures fresh(game.board)
    ensures game.Cells() == EmptyGrid(3)
    ensures game.player1 == Some(Player(User, 'W')) && game.player2 == Some(Player(User, 'B'))
  {
    Digit("3", 3);
    SplitArg("user", "W");
    SplitArg("user", "B");
    reply := game.ProcessGameCommand(["3", Arg("user", "W"), Arg("user", "B")]);
  }

  /** GAME 5, user W, user X on a started game: refused, yet size becomes 5. */
  method BadColorOverFive(game: SquaresGame) returns (reply: GameReply)
    requires game.Valid() && game.gameStarted
    modifies game
    ensures reply == GameRejected(BadColor)
    ensures game.Valid() && game.gameStarted && game.size == 5 && game.board == old(game.board)
  {
    Digit("5", 5);
    SplitArg("user", "W");
    SplitArg("user", "X");
    reply := game.ProcessGameCommand(["5", Arg("user", "W"), Arg("user", "X")]);
  }

  /**
    A rejected GAME still overwrites size: after a 3 × 3 game starts, a GAME
    command with size 5 and a bad colour is refused, yet size becomes 5 while
    the 3 × 3 board and the started flag stay. A MOVE to (4, 4) then passes
    the position check against size and indexes the board out of bounds.
   */
  method SizeOverwrittenOnRejection() returns (first: GameReply, second: GameReply, move: MoveReply,
                                               size: int, side: int, started: bool)
    ensures first == Started(None)
    ensures second == GameRejected(BadColor)
    ensures size == 5 && side == 3 && started
    ensures move == IndexOutOfBounds
  {
    var game := new SquaresGame();
    first := NewGameOfThree(game);
    second := BadColorOverFive(game);
    Digit("4", 4);
    move := game.ProcessMoveCommand(["4", "4"]);
    size, side, started := game.size, game.board.Length0, game.gameStarted;
  }

  /** GAME 3, comp W, user B: the automated first player opens at (0, 0). */
  method CompOpensOnThree(game: SquaresGame) returns (reply: GameReply)
    requires game.Valid()
    modifies game
    ensures reply == Started(Some(Placement(0, 0, 'W', Continues)))
    ensures game.Valid() && game.gameStarted && game.size == 3 && fresh(game.board)
    ensures game.Scannable() && game.Cells() == Place(EmptyGrid(3), 0, 0, White)
    ensures game.player1 == Some(Player(Comp, 'W')) && game.player2 == Some(Player(User, 'B'))
  {
    Digit("3", 3);
    SplitArg("comp", "W");
    SplitArg("user", "B");
    reply := game.ProcessGameCommand(["3", Arg("comp", "W"), Arg("user", "B")]);
  }

  /**
    After the automated opening at (0, 0), the human's move to (1, 1) is
    Black's (one token is down), nobody wins and the board is not full, so
    the automated White answers in the first free cell, (0, 1).
   */
  lemma AnswerToCentre(h: Placement, answer: Option<Placement>, g1: Grid, started: bool)
    requires h.x == 1 && h.y == 1
    requires TurnPlayed(Place(EmptyGrid(3), 0, 0, White), 3, Player(Comp, 'W'), Player(User, 'B'),
                        h, answer, g1, started)
    ensures h == Placement(1, 1, 'B', Continues)
    ensures answer == Some(Placement(0, 1, 'W', Continues)) && started
  {
    var g0 := Place(EmptyGrid(3), 0, 0, White);
    CountEmptyGrid(3);
    CountAfterPlace(EmptyGrid(3), 3, 0, 0, White);
    var mid := Place(g0, 1, 1, Black);
    DetectedOnThree(mid, Black);
    assert At(mid, 0, 1) == Empty;
    assert IsFirstEmpty(mid, 3, 0, 1);
    var a := answer.value;
    FirstEmptyUnique(mid, 3, a.x, a.y, 0, 1);
    DetectedOnThree(g1, White);
    assert At(g1, 1, 0) == Empty;
  }

  /**
    With an automated first player the opening token is already on the
    board: a MOVE onto it is refused, and a MOVE to the centre is answered
    at once.
   */
  method AutomatedOpening() returns (start: GameReply, taken: MoveReply, centre: MoveReply)
    ensures start == Started(Some(Placement(0, 0, 'W', Continues)))
    ensures taken == MoveRejected(CellNotEmpty)
    ensures centre == Moved(Placement(1, 1, 'B', Continues), Some(Placement(0, 1, 'W', Continues)))
  {
    var game := new SquaresGame();
    start := CompOpensOnThree(game);
    Digit("0", 0);
    Digit("1", 1);
    taken := game.ProcessMoveCommand(["0", "0"]);
    centre := game.ProcessMoveCommand(["1", "1"]);
    AnswerToCentre(centre.human, centre.reply, game.Cells(), game.gameStarted);
  }

  /**
    A size smaller than the board confines the turn count to the size × size
    corner: after size drops to 3 on a 5 × 5 board, a White token at (4, 4)
    is not counted, so it is still player 1's turn.
   */
  lemma OuterTokenNotCounted(p1: Player, p2: Player)
    ensures TurnOf(Place(EmptyGrid(5), 4, 4, White), 3, p1, p2) == p1.color
  {
  }
}
