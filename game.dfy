/**
  The game engine of SquaresGame.java: the board, the two players and the
  started flag, updated in place by the GAME and MOVE command handlers.
  Printed messages are returned as replies instead.
 */
module Game {
  import opened Wrappers
  import opened Board
  import opened JavaLang

  const MinSize: int := 3
  const MaxSize: int := 20

  datatype PlayerType = User | Comp

  datatype Player = Player(kind: PlayerType, color: char)

  /** Why a command was refused: one constructor per refusal message. */
  datatype Rejection =
    | IncorrectCommand   // wrong argument count, unparsable number, malformed player
    | SizeOutOfRange     // board size outside [MinSize, MaxSize]
    | BadColor           // a colour other than W or B
    | SameColors         // both players chose the same colour
    | NotStarted         // MOVE with no game in progress
    | InvalidPosition    // coordinates outside [0, size)
    | CellNotEmpty       // target cell already holds a token

  /** What makeMove announces after placing a token. */
  datatype Verdict = Continues | Wins | Draw

  /** One token placed: where, which colour, and what was announced after it. */
  datatype Placement = Placement(x: int, y: int, color: char, verdict: Verdict)

  datatype GameReply =
    | GameRejected(why: Rejection)
    | Started(opening: Option<Placement>)   // the automated first move when player 1 is COMP

  datatype MoveReply =
    | MoveRejected(why: Rejection)
    | Moved(human: Placement, reply: Option<Placement>)   // reply: the automated answer, if any
    | IndexOutOfBounds   // the board is indexed outside its bounds; the exception ends the program

  predicate IsColor(c: char) { c == 'W' || c == 'B' }

  /** The cell a colour letter is written as: W is White and every other letter Black. */
  function ColorCell(c: char): (cell: Cell)
    ensures cell != Empty
    ensures cell == White <==> c == 'W'
  {
    if c == 'W' then White else Black
  }

  /** What makeMove announces for colour t on the board g: a win first, then a draw. */
  ghost function Judge(g: Grid, n: int, t: Cell): Verdict
  {
    if Detected(g, n, t) then Wins else if Full(g, n) then Draw else Continues
  }

  /**
    The colour whose turn it is on g with players p1 and p2: p1's after an
    even number of tokens in the n × n region, else p2's.
   */
  ghost function TurnOf(g: Grid, n: int, p1: Player, p2: Player): char
  {
    if CountOccupied(g, n) % 2 == 0 then p1.color else p2.color
  }

  /**
    One accepted MOVE, from the grid g0 to the grid g1 with the started flag
    ending as `started`: the human token h goes on an Empty cell of the
    region in the colour whose turn it is, and is judged; if the game goes
    on and the other player is automated, that player answers on the first
    Empty cell in row-major order, in its own colour, which is again the
    colour whose turn it is, and is judged in turn.
   */
  ghost predicate TurnPlayed(g0: Grid, n: int, p1: Player, p2: Player, h: Placement,
                             answer: Option<Placement>, g1: Grid, started: bool)
  {
    var mid := Place(g0, h.x, h.y, ColorCell(h.color));
    var next := if h.color == p1.color then p2 else p1;
    InRegion(n, h.x, h.y) && At(g0, h.x, h.y) == Empty &&
    h.color == TurnOf(g0, n, p1, p2) &&
    h.verdict == Judge(mid, n, ColorCell(h.color)) &&
    (answer.Some? <==> h.verdict == Continues && next.kind == Comp) &&
    (answer.None? ==> g1 == mid && started == (h.verdict == Continues)) &&
    (answer.Some? ==>
      var a := answer.value;
      IsFirstEmpty(mid, n, a.x, a.y) &&
      a.color == next.color && a.color == TurnOf(mid, n, p1, p2) &&
      g1 == Place(mid, a.x, a.y, ColorCell(a.color)) &&
      a.verdict == Judge(g1, n, ColorCell(a.color)) &&
      started == (a.verdict == Continues))
  }

  /**
    A MOVE puts one token on the board, two when the automated player
    answers, and hands the turn on: to the other colour after a lone human
    token, back to the human's colour after an answer.
   */
  lemma TurnAddsTokens(g0: Grid, n: int, p1: Player, p2: Player, h: Placement,
                       answer: Option<Placement>, g1: Grid, started: bool)
    requires TurnPlayed(g0, n, p1, p2, h, answer, g1, started)
    requires n <= |g0| && forall i :: 0 <= i < |g0| ==> n <= |g0[i]|
    ensures CountOccupied(g1, n) == CountOccupied(g0, n) + (if answer.Some? then 2 else 1)
    ensures answer.None? ==> TurnOf(g1, n, p1, p2) == TurnOf(g0, n, p2, p1)
    ensures answer.Some? ==> TurnOf(g1, n, p1, p2) == h.color
  {
    var mid := Place(g0, h.x, h.y, ColorCell(h.color));
    CountAfterPlace(g0, n, h.x, h.y, ColorCell(h.color));
    if answer.Some? {
      var a := answer.value;
      CountAfterPlace(mid, n, a.x, a.y, ColorCell(a.color));
    }
  }

  /** The player a "kind colour" argument describes once split into its two tokens. */
  function PlayerOf(tokens: seq<string>): Player
    requires |tokens| == 2 && tokens[1] != ""
  {
    Player(if tokens[0] == "user" then User else Comp, tokens[1][0])
  }

  /** The first j cells of row x of the array b. */
  ghost function RowOf(b: array2<Cell>, x: int, j: nat): (r: seq<Cell>)
    reads b
    requires 0 <= x < b.Length0 && j <= b.Length1
    ensures |r| == j
  {
    if j == 0 then [] else RowOf(b, x, j - 1) + [b[x, j - 1]]
  }

  /** The first i rows of the array b. */
  ghost function RowsOf(b: array2<Cell>, i: nat): (g: Grid)
    reads b
    requires i <= b.Length0
    ensures |g| == i
  {
    if i == 0 then [] else RowsOf(b, i - 1) + [RowOf(b, i - 1, b.Length1)]
  }

  lemma {:induction false} RowAt(b: array2<Cell>, x: int, j: nat, y: int)
    requires 0 <= x < b.Length0 && 0 <= y < j <= b.Length1
    ensures RowOf(b, x, j)[y] == b[x, y]
    decreases j
  {
    if y < j - 1 {
      RowAt(b, x, j - 1, y);
    }
  }

  lemma {:induction false} RowsShape(b: array2<Cell>, i: nat)
    requires i <= b.Length0
    ensures forall k :: 0 <= k < i ==> |RowsOf(b, i)[k]| == b.Length1
  {
    if i > 0 {
      RowsShape(b, i - 1);
    }
  }

  lemma {:induction false} RowsAt(b: array2<Cell>, i: nat, x: int, y: int)
    requires 0 <= x < i <= b.Length0 && 0 <= y < b.Length1
    ensures At(RowsOf(b, i), x, y) == b[x, y]
  {
    if x < i - 1 {
      RowsAt(b, i - 1, x, y);
      RowsShape(b, i - 1);
    } else {
      RowAt(b, x, b.Length1, y);
    }
  }

  class SquaresGame {
    var size: int
    var board: array2?<Cell>
    var player1: Option<Player>
    var player2: Option<Player>
    var gameStarted: bool

    /**
      What every command keeps: a board exists exactly when the players do,
      it is square with a side in [MinSize, MaxSize], the players' colours are
      W and B in some order, and a started game has a board.
     */
    ghost predicate Valid()
      reads this
    {
      (board == null <==> player1 == None) && (board == null <==> player2 == None) &&
      (gameStarted ==> board != null) &&
      (board != null ==>
        board.Length0 == board.Length1 && MinSize <= board.Length0 <= MaxSize &&
        IsColor(player1.value.color) && IsColor(player2.value.color) &&
        player1.value.color != player2.value.color)
    }

    /** The board's dimensions equal size: what isValidPosition relies on to guard the board. */
    ghost predicate Consistent()
      reads this
    {
      Valid() && board != null && board.Length0 == size
    }

    /** The size × size scan of the read-only queries stays inside the board. */
    ghost predicate Scannable()
      reads this`board, this`size
    {
      board != null && size <= board.Length0 && size <= board.Length1
    }

    /** The board's contents as a value: row x of the board is Cells()[x]. */
    ghost function Cells(): (g: Grid)
      reads this`board, board
      requires board != null
      ensures |g| == board.Length0 && forall i :: 0 <= i < |g| ==> |g[i]| == board.Length1
    {
      RowsShape(board, board.Length0);
      RowsOf(board, board.Length0)
    }

    /** Cell (x, y) of Cells() is board[x, y]. */
    lemma CellAt(x: int, y: int)
      requires board != null
      ensures 0 <= x < board.Length0 && 0 <= y < board.Length1 ==> At(Cells(), x, y) == board[x, y]
    {
      if 0 <= x < board.Length0 && 0 <= y < board.Length1 {
        RowsAt(board, board.Length0, x, y);
      }
    }

    /** Every cell of Cells() is the board's cell. */
    lemma Mirror()
      requires board != null
      ensures forall x, y :: 0 <= x < board.Length0 && 0 <= y < board.Length1 ==> At(Cells(), x, y) == board[x, y]
    {
      forall x, y | 0 <= x < board.Length0 && 0 <= y < board.Length1
        ensures At(Cells(), x, y) == board[x, y]
      {
        CellAt(x, y);
      }
    }

    constructor ()
      ensures Valid() && !gameStarted && board == null && size == 0
    {
      size := 0;
      board := null;
      player1, player2 := None, None;
      gameStarted := false;
    }

    function IsValidPosition(x: int, y: int): (ok: bool)
      reads this`size
      ensures ok <==> InRegion(size, x, y)
      ensures ok && Scannable() ==> x < board.Length0 && y < board.Length1
    {
      x >= 0 && x < size && y >= 0 && y < size
    }

    function IsCellEmpty(x: int, y: int): (empty: bool)
      reads this`board, board
      requires board != null && 0 <= x < board.Length0 && 0 <= y < board.Length1
      ensures empty <==> At(Cells(), x, y) == Empty
    {
      CellAt(x, y);
      board[x, y] == Empty
    }

    /** A fresh size × size board with every cell Empty; nothing else changes. */
    method InitializeBoard()
      requires size >= 0
      modifies this`board
      ensures fresh(board) && board.Length0 == size && board.Length1 == size
      ensures Cells() == EmptyGrid(size)
      ensures size == old(size) && player1 == old(player1) && player2 == old(player2)
      ensures gameStarted == old(gameStarted)
    {
      var b := new Cell[size, size];
      var i := 0;
      while i < size
        invariant 0 <= i <= size
        invariant forall a, c :: 0 <= a < i && 0 <= c < size ==> b[a, c] == Empty
      {
        var j := 0;
        while j < size
          invariant 0 <= j <= size
          invariant forall a, c :: 0 <= a < i && 0 <= c < size ==> b[a, c] == Empty
          invariant forall c :: 0 <= c < j ==> b[i, c] == Empty
        {
          b[i, j] := Empty;
          j := j + 1;
        }
        i := i + 1;
      }
      board := b;
      Mirror();
      SameCells(Cells(), EmptyGrid(size));
    }

    /** The colour to move: decided by the parity of the occupied cells in the size × size region. */
    method GetCurrentPlayerColor() returns (color: char)
      requires Valid() && Scannable()
      ensures CountOccupied(Cells(), size) % 2 == 0 ==> color == player1.value.color
      ensures CountOccupied(Cells(), size) % 2 == 1 ==> color == player2.value.color
    {
      ghost var g := Cells();
      var moves := 0;
      var i := 0;
      while i < size
        invariant 0 <= i && (i <= size || i == 0)
        invariant moves == RowsCount(g, size, i)
      {
        var j := 0;
        while j < size
          invariant 0 <= j <= size
          invariant moves == RowsCount(g, size, i) + RowCount(g, i, j)
        {
          CellAt(i, j);
          if board[i, j] != Empty {
            moves := moves + 1;
          }
          j := j + 1;
        }
        i := i + 1;
      }
      color := if moves % 2 == 0 then player1.value.color else player2.value.color;
    }

    /**
      The body of checkSquare's pair loop: (x2, y2) holds t too, and one of
      the two quarter-turned copies of the side from (x1, y1) to (x2, y2)
      has both of its ends on the board holding t.
     */
    function PairMakesSquare(x1: int, y1: int, x2: int, y2: int, t: Cell): (square: bool)
      reads this`board, board, this`size
      requires Scannable()
      requires 0 <= x1 < x2 < size && 0 <= y1 < y2 < size && board[x1, y1] == t
      ensures square <==> Candidate(Cells(), size, t, x1, y1, x2, y2)
    {
      CellAt(x1, y1); CellAt(x2, y2);
      board[x2, y2] == t &&
      var dx, dy := x2 - x1, y2 - y1;
      (CornersHold(x1 + dy, y1 - dx, x2 + dy, y2 - dx, t) || CornersHold(x1 - dy, y1 + dx, x2 - dy, y2 + dx, t))
    }

    /** Whether (x3, y3) and (x4, y4) are both valid positions holding t. */
    function CornersHold(x3: int, y3: int, x4: int, y4: int, t: Cell): (both: bool)
      reads this`board, board, this`size
      requires Scannable()
      ensures both <==> BothHold(Cells(), size, t, x3, y3, x4, y4)
    {
      CellAt(x3, y3); CellAt(x4, y4);
      IsValidPosition(x3, y3) && IsValidPosition(x4, y4) && board[x3, y3] == t && board[x4, y4] == t
    }

    /** Whether colour `color` has a square, by the pair scan of checkSquare. */
    method CheckSquare(color: char) returns (found: bool)
      requires Scannable()
      ensures found <==> Detected(Cells(), size, ColorCell(color))
    {
      var target := if color == 'W' then White else Black;
      ghost var g := Cells();
      var n := size;
      var b := board;
      var x1 := 0;
      while x1 < n
        invariant 0 <= x1 && (x1 <= n || x1 == 0)
        invariant forall a, b, c, d :: a < x1 ==> !Candidate(g, n, target, a, b, c, d)
      {
        var y1 := 0;
        while y1 < n
          invariant 0 <= y1 <= n
          invariant forall b, c, d :: b < y1 ==> !Candidate(g, n, target, x1, b, c, d)
        {
          CellAt(x1, y1);
          if b[x1, y1] == target {
            var x2 := x1 + 1;
            while x2 < n
              invariant x1 < x2 <= n
              invariant forall c, d :: c < x2 ==> !Candidate(g, n, target, x1, y1, c, d)
            {
              var y2 := y1 + 1;
              while y2 < n
                invariant y1 < y2 <= n
                invariant forall d :: d < y2 ==> !Candidate(g, n, target, x1, y1, x2, d)
              {
                if PairMakesSquare(x1, y1, x2, y2, target) {
                  return true;
                }
                y2 := y2 + 1;
              }
              x2 := x2 + 1;
            }
          }
          y1 := y1 + 1;
        }
        x1 := x1 + 1;
      }
      return false;
    }

    /** Whether no cell of the size × size region is Empty. */
    method IsBoardFull() returns (full: bool)
      requires Scannable()
      ensures full <==> Full(Cells(), size)
    {
      ghost var g := Cells();
      var i := 0;
      while i < size
        invariant 0 <= i && (i <= size || i == 0)
        invariant forall a, c :: 0 <= a < i && 0 <= c < size ==> At(g, a, c) != Empty
      {
        var j := 0;
        while j < size
          invariant 0 <= j <= size
          invariant forall c :: 0 <= c < j ==> At(g, i, c) != Empty
        {
          CellAt(i, j);
          if board[i, j] == Empty {
            return false;
          }
          j := j + 1;
        }
        i := i + 1;
      }
      return true;
    }

    /**
      Writes colour `color` at (x, y) and nothing else, then announces a win
      if that colour has a square, else a draw if the board is full; either
      ends the game.
     */
    method MakeMove(x: int, y: int, color: char) returns (verdict: Verdict)
      requires Valid() && Scannable()
      requires 0 <= x < board.Length0 && 0 <= y < board.Length1
      modifies this`gameStarted, board
      ensures Valid()
      ensures Cells() == Place(old(Cells()), x, y, ColorCell(color))
      ensures verdict == Judge(Cells(), size, ColorCell(color))
      ensures gameStarted == (old(gameStarted) && verdict == Continues)
    {
      Mirror();
      ghost var before := Cells();
      board[x, y] := if color == 'W' then White else Black;
      Mirror();
      ghost var after := Cells();
      SameCells(after, Place(before, x, y, ColorCell(color)));
      var square := CheckSquare(color);
      if square {
        gameStarted := false;
        return Wins;
      }
      var full := IsBoardFull();
      if full {
        gameStarted := false;
        return Draw;
      }
      return Continues;
    }

    /**
      The automated player: places its colour on the first Empty cell of the
      region in row-major order, as MakeMove does; on a full region it does
      nothing.
     */
    method ComputerMove(player: Player) returns (placed: Option<Placement>)
      requires Valid() && Scannable()
      modifies this`gameStarted, board
      ensures Valid()
      ensures placed.None? ==> Full(old(Cells()), size) && Cells() == old(Cells()) && gameStarted == old(gameStarted)
      ensures placed.Some? ==>
        var p := placed.value;
        IsFirstEmpty(old(Cells()), size, p.x, p.y) && p.color == player.color &&
        Cells() == Place(old(Cells()), p.x, p.y, ColorCell(p.color)) &&
        p.verdict == Judge(Cells(), size, ColorCell(p.color)) &&
        gameStarted == (old(gameStarted) && p.verdict == Continues)
    {
      ghost var g := Cells();
      var i := 0;
      while i < size
        invariant 0 <= i && (i <= size || i == 0)
        invariant forall a, c :: 0 <= a < i && 0 <= c < size ==> At(g, a, c) != Empty
        invariant Cells() == g && gameStarted == old(gameStarted)
      {
        var j := 0;
        while j < size
          invariant 0 <= j <= size
          invariant forall c :: 0 <= c < j ==> At(g, i, c) != Empty
          invariant Cells() == g && gameStarted == old(gameStarted)
        {
          if IsCellEmpty(i, j) {
            var verdict := MakeMove(i, j, player.color);
            return Some(Placement(i, j, player.color, verdict));
          }
          j := j + 1;
        }
        i := i + 1;
      }
      return None;
    }

    /**
      What processGameCommand does once the command is accepted: installs the
      players, a fresh size × size board with every cell Empty and the
      started flag, then lets an automated first player open at once, on
      (0, 0), without ending the game.
     */
    method StartGame(first: Player, second: Player) returns (opening: Option<Placement>)
      requires MinSize <= size <= MaxSize
      requires IsColor(first.color) && IsColor(second.color) && first.color != second.color
      modifies this
      ensures Consistent() && gameStarted && fresh(board)
      ensures size == old(size) && player1 == Some(first) && player2 == Some(second)
      ensures first.kind == User ==> opening == None && Cells() == EmptyGrid(size)
      ensures first.kind == Comp ==>
        opening == Some(Placement(0, 0, first.color, Continues)) &&
        Cells() == Place(EmptyGrid(size), 0, 0, ColorCell(first.color))
    {
      player1 := Some(first);
      player2 := Some(second);
      InitializeBoard();
      gameStarted := true;
      opening := None;
      if first.kind == Comp {
        ghost var g := Cells();
        assert At(g, 0, 0) == Empty;
        assert IsFirstEmpty(g, size, 0, 0);
        opening := ComputerMove(first);
        FirstEmptyUnique(g, size, 0, 0, opening.value.x, opening.value.y);
        OneTokenNoSquare(Cells(), size, ColorCell(first.color), 0, 0);
        assert At(Cells(), 0, 1) == Empty;
      }
    }

    /**
      GAME size, kind1 colour1, kind2 colour2, already split at the commas.
      The checks run in order and the first failure rejects; size is
      assigned as soon as args[0] parses, before the range and player checks,
      so a rejected command can still change it.
     */
    method ProcessGameCommand(args: seq<string>) returns (reply: GameReply)
      requires Valid()
      modifies this
      ensures Valid()
      ensures size == if |args| == 3 && ParseInt(args[0]).Some? then ParseInt(args[0]).value else old(size)
      ensures reply.GameRejected? ==>
        board == old(board) && player1 == old(player1) && player2 == old(player2) &&
        gameStarted == old(gameStarted)
      ensures |args| != 3 ==> reply == GameRejected(IncorrectCommand)
      ensures |args| == 3 && ParseInt(args[0]).None? ==> reply == GameRejected(IncorrectCommand)
      ensures |args| == 3 && ParseInt(args[0]).Some? ==>
        var n := ParseInt(args[0]).value;
        var p1, p2 := Split(args[1]), Split(args[2]);
        (!(MinSize <= n <= MaxSize) ==> reply == GameRejected(SizeOutOfRange)) &&
        (MinSize <= n <= MaxSize && (|p1| != 2 || |p2| != 2) ==> reply == GameRejected(IncorrectCommand)) &&
        (MinSize <= n <= MaxSize && |p1| == 2 && |p2| == 2 ==>
          var c1, c2 := p1[1][0], p2[1][0];
          (!(IsColor(c1) && IsColor(c2)) ==> reply == GameRejected(BadColor)) &&
          (IsColor(c1) && IsColor(c2) && c1 == c2 ==> reply == GameRejected(SameColors)) &&
          (IsColor(c1) && IsColor(c2) && c1 != c2 ==>
            reply.Started? && player1 == Some(PlayerOf(p1)) && player2 == Some(PlayerOf(p2))))
      ensures reply.Started? ==>
        gameStarted && Consistent() && fresh(board) &&
        (player1.value.kind == User ==> reply.opening == None && Cells() == EmptyGrid(size)) &&
        (player1.value.kind == Comp ==>
          reply.opening == Some(Placement(0, 0, player1.value.color, Continues)) &&
          Cells() == Place(EmptyGrid(size), 0, 0, ColorCell(player1.value.color)))
    {
      if |args| != 3 {
        return GameRejected(IncorrectCommand);
      }
      var parsed := ParseInt(args[0]);
      if parsed.None? {
        return GameRejected(IncorrectCommand);
      }
      size := parsed.value;
      if size < MinSize || size > MaxSize {
        return GameRejected(SizeOutOfRange);
      }
      var p1Args := Split(args[1]);
      var p2Args := Split(args[2]);
      if |p1Args| != 2 || |p2Args| != 2 {
        return GameRejected(IncorrectCommand);
      }
      var type1 := if p1Args[0] == "user" then User else Comp;
      var type2 := if p2Args[0] == "user" then User else Comp;
      var color1 := p1Args[1][0];
      var color2 := p2Args[1][0];
      if (color1 != 'W' && color1 != 'B') || (color2 != 'W' && color2 != 'B') {
        return GameRejected(BadColor);
      }
      if color1 == color2 {
        return GameRejected(SameColors);
      }
      var opening := StartGame(Player(type1, color1), Player(type2, color2));
      return Started(opening);
    }

    /**
      What processMoveCommand does once the move is accepted: the colour
      whose turn it is goes on (x, y), and if the game goes on and the other
      player is automated, that player answers at once.
     */
    method PlayTurn(x: int, y: int) returns (human: Placement, answer: Option<Placement>)
      requires Valid() && Scannable() && gameStarted
      requires InRegion(size, x, y) && At(Cells(), x, y) == Empty
      modifies this`gameStarted, board
      ensures Valid()
      ensures human.x == x && human.y == y
      ensures TurnPlayed(old(Cells()), size, player1.value, player2.value, human, answer, Cells(), gameStarted)
    {
      ghost var g := Cells();
      var currentColor := GetCurrentPlayerColor();
      var verdict := MakeMove(x, y, currentColor);
      ghost var mid := Cells();
      CountAfterPlace(g, size, x, y, ColorCell(currentColor));
      human := Placement(x, y, currentColor, verdict);
      var nextPlayer := if currentColor == player1.value.color then player2.value else player1.value;
      answer := None;
      if nextPlayer.kind == Comp && gameStarted {
        answer := ComputerMove(nextPlayer);
      }
    }

    /**
      MOVE x, y, already split at the comma. The checks run in order and the
      first failure rejects, changing nothing. A valid move places the colour
      whose turn it is; if the game goes on and the other player is
      automated, that player answers at once.
     */
    method ProcessMoveCommand(args: seq<string>) returns (reply: MoveReply)
      requires Valid()
      modifies this`gameStarted, board
      ensures Valid()
      ensures !reply.Moved? ==> gameStarted == old(gameStarted) && (board != null ==> Cells() == old(Cells()))
      ensures !old(gameStarted) ==> reply == MoveRejected(NotStarted)
      ensures old(gameStarted) && |args| != 2 ==> reply == MoveRejected(IncorrectCommand)
      ensures old(gameStarted) && |args| == 2 && (ParseInt(args[0]).None? || ParseInt(args[1]).None?) ==>
        reply == MoveRejected(IncorrectCommand)
      ensures old(gameStarted) && |args| == 2 && ParseInt(args[0]).Some? && ParseInt(args[1]).Some? ==>
        var x, y := ParseInt(args[0]).value, ParseInt(args[1]).value;
        var side := board.Length0;
        (!InRegion(size, x, y) ==> reply == MoveRejected(InvalidPosition)) &&
        (InRegion(size, x, y) && (x >= side || y >= side) ==> reply == IndexOutOfBounds) &&
        (InRegion(size, x, y) && x < side && y < side ==>
          (At(old(Cells()), x, y) != Empty ==> reply == MoveRejected(CellNotEmpty)) &&
          (At(old(Cells()), x, y) == Empty && size > side ==> reply == IndexOutOfBounds) &&
          (At(old(Cells()), x, y) == Empty && size <= side ==>
            reply.Moved? && reply.human.x == x && reply.human.y == y))
      ensures reply.Moved? ==>
        old(gameStarted) && Scannable() &&
        TurnPlayed(old(Cells()), size, player1.value, player2.value, reply.human, reply.reply, Cells(), gameStarted)
    {
      if !gameStarted {
        return MoveRejected(NotStarted);
      }
      if |args| != 2 {
        return MoveRejected(IncorrectCommand);
      }
      var px := ParseInt(args[0]);
      if px.None? {
        return MoveRejected(IncorrectCommand);
      }
      var py := ParseInt(args[1]);
      if py.None? {
        return MoveRejected(IncorrectCommand);
      }
      var x, y := px.value, py.value;
      if !IsValidPosition(x, y) {
        return MoveRejected(InvalidPosition);
      }
      // isCellEmpty reads board[x][y]
      if x >= board.Length0 || y >= board.Length1 {
        return IndexOutOfBounds;
      }
      if !IsCellEmpty(x, y) {
        return MoveRejected(CellNotEmpty);
      }
      // getCurrentPlayerColor reads every board[i][j] with i, j < size
      if size > board.Length0 {
        return IndexOutOfBounds;
      }
      var human, answer := PlayTurn(x, y);
      return Moved(human, answer);
    }
  }
}
