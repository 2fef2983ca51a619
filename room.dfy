/*
 * The tic-tac-toe room of src/index.ts: a nine-cell board, a turn counter,
 * a game state and two seats, each holding at most one connection.
 *
 * The side-effect-free queries of the room (whose turn, what team a
 * connection plays, how a state is classified, what each recipient of a
 * room status is told) are functions; seating a connection and playing a
 * move change the room in place and are methods of the class Room.
 */
module Rooms {

  /** A connection is known by its socket id; room codes share that namespace. */
  type ConnId = string
  type RoomCode = string

  datatype Option<T> = None | Some(value: T)

  /**
   * A call either returns a value or throws. The source throws a TypeError
   * when it reads `.id` or `.rooms` of a seat that was never filled; nothing
   * catches it.
   */
  datatype Outcome<T> = Returns(value: T) | Throws

  /** The GameState union of the source. Only Playing, Waiting and Disconnect are ever assigned. */
  datatype GameState = Win1 | Win2 | Tie | Playing | Waiting | Disconnect

  const BoardSize: nat := 9
  const Blank: int := 0

  /** `getStateGameInProgress` */
  function IsGameInProgress(s: GameState): (playing: bool)
    ensures playing ==> s != Waiting
  {
    s == Playing
  }

  /** `getStateGameOver`: every state but waiting is either over or in progress, never both. */
  function IsGameOver(s: GameState): (over: bool)
    ensures over ==> !IsGameInProgress(s)
    ensures over || IsGameInProgress(s) <==> s != Waiting
  {
    s == Win1 || s == Win2 || s == Tie || s == Disconnect
  }

  /** JavaScript's `x % 2`: the remainder takes the sign of the dividend. */
  function JsRemTwo(a: int): (r: int)
    ensures a >= 0 ==> r == a % 2
    ensures a < 0 ==> r in {-1, 0}
    ensures r == 0 <==> a % 2 == 0
  {
    if a >= 0 then a % 2 else -((-a) % 2)
  }

  /**
   * `getTeamTurn`: team 1 moves on even turns, team 2 on odd ones. The
   * fallback 0 is reached only by a negative odd counter.
   */
  function TeamTurn(turn: int): (team: int)
    ensures turn >= 0 ==> (team == 1 <==> turn % 2 == 0) && (team == 2 <==> turn % 2 == 1)
    ensures team == 0 <==> turn < 0 && turn % 2 == 1
    ensures team == 1 <==> turn % 2 == 0
  {
    if JsRemTwo(turn) == 0 then 1
    else if JsRemTwo(turn) == 1 then 2
    else 0
  }

  /** Consecutive turns belong to different teams, and every second turn to the same one. */
  lemma TeamsAlternate(turn: nat)
    ensures TeamTurn(turn) in {1, 2}
    ensures TeamTurn(turn + 1) == 3 - TeamTurn(turn)
    ensures TeamTurn(turn + 2) == TeamTurn(turn)
  {
  }

  /** The number of non-blank cells of a board. */
  function Occupied(board: seq<int>): (n: nat)
    ensures n <= |board|
  {
    if board == [] then 0
    else (if board[0] != Blank then 1 else 0) + Occupied(board[1..])
  }

  /** Marking a blank cell with a team adds exactly one occupied cell. */
  lemma {:induction false} OccupiedMark(board: seq<int>, location: nat, team: int)
    requires location < |board| && board[location] == Blank && team != Blank
    ensures Occupied(board[location := team]) == Occupied(board) + 1
  {
    if location == 0 {
      assert board[location := team][1..] == board[1..];
    } else {
      assert board[location := team][1..] == board[1..][location - 1 := team];
      OccupiedMark(board[1..], location - 1, team);
    }
  }

  /** A board has as many occupied cells as it has cells exactly when no cell is blank. */
  lemma {:induction false} OccupiedFull(board: seq<int>)
    ensures Occupied(board) == |board| <==> forall i :: 0 <= i < |board| ==> board[i] != Blank
  {
    if board != [] {
      OccupiedFull(board[1..]);
      assert forall i :: 1 <= i < |board| ==> board[i] == board[1..][i - 1];
    }
  }

  /** A board whose every cell is blank has no occupied cell. */
  lemma {:induction false} OccupiedNone(board: seq<int>)
    requires forall i :: 0 <= i < |board| ==> board[i] == Blank
    ensures Occupied(board) == 0
  {
    if board != [] {
      OccupiedNone(board[1..]);
    }
  }

  /** Every cell is blank or holds one of the two teams. */
  ghost predicate CellsValid(board: seq<int>)
  {
    forall i :: 0 <= i < |board| ==> board[i] in {Blank, 1, 2}
  }

  /** The board invariant: nine valid cells, exactly `turn` of them occupied. */
  ghost predicate BoardInvariant(board: seq<int>, turn: int)
  {
    |board| == BoardSize && CellsValid(board) && turn == Occupied(board)
  }

  /** The result of `socketMadeMove`; the messages are the source's. */
  datatype MoveStatus = Accepted | NotMember | NotYourTurn | OutOfBounds | SpaceOccupied
  {
    function Success(): bool { this == Accepted }

    function Message(): string
    {
      match this
      case Accepted => "Move accepted"
      case NotMember => "Not a member of this room"
      case NotYourTurn => "Not your team's turn"
      case OutOfBounds => "Invalid move: location out of bounds"
      case SpaceOccupied => "Invalid move: space occupied"
    }
  }

  /** Only an accepted move reports success, and no two outcomes share a message. */
  lemma MoveStatusMessages(s: MoveStatus, t: MoveStatus)
    ensures s.Success() <==> s == Accepted
    ensures s.Message() == t.Message() <==> s == t
  {
  }

  /**
   * The checks of `socketMadeMove` for a caller of team `team` (0: not
   * seated), in the source's order: membership, turn, bounds, occupancy.
   * The game state is not consulted.
   */
  function MoveVerdict(team: int, turn: int, board: seq<int>, location: int): (v: MoveStatus)
    requires |board| == BoardSize
    ensures v == Accepted <==>
      team != 0 && team == TeamTurn(turn) && 0 <= location < BoardSize && board[location] == Blank
    ensures v == NotMember <==> team == 0
    ensures v == NotYourTurn <==> team != 0 && team != TeamTurn(turn)
    ensures v == OutOfBounds <==> team != 0 && team == TeamTurn(turn) && !(0 <= location < BoardSize)
    ensures v == SpaceOccupied <==>
      team != 0 && team == TeamTurn(turn) && 0 <= location < BoardSize && board[location] != Blank
  {
    if team == 0 then NotMember
    else if TeamTurn(turn) != team then NotYourTurn
    else if location < 0 || location > 8 then OutOfBounds
    else if board[location] != Blank then SpaceOccupied
    else Accepted
  }

  /** An accepted move keeps the board invariant: one more occupied cell, one more turn. */
  lemma AcceptedMoveKeepsInvariant(board: seq<int>, turn: int, team: int, location: int)
    requires BoardInvariant(board, turn)
    requires MoveVerdict(team, turn, board, location) == Accepted
    ensures BoardInvariant(board[location := team], turn + 1)
    ensures Occupied(board[location := team]) == Occupied(board) + 1
  {
    OccupiedMark(board, location, team);
  }

  /** The invariant bounds the turn counter by the board size; a full board means nine turns. */
  lemma TurnBounded(board: seq<int>, turn: int)
    requires BoardInvariant(board, turn)
    ensures 0 <= turn <= BoardSize
    ensures turn == BoardSize <==> forall i :: 0 <= i < BoardSize ==> board[i] != Blank
  {
    OccupiedFull(board);
  }

  /** The fields of `sendGameState` that every recipient receives. */
  datatype SharedStatus = SharedStatus(
    code: RoomCode,
    player1Connected: bool,
    player2Connected: bool,
    board: seq<int>,
    turn: int,
    gameState: GameState,
    gameStateOver: bool,
    gameStateInProgress: bool)

  /** One `roomstatus` message: the shared fields plus the recipient's own team and turn flag. */
  datatype RoomStatus = RoomStatus(shared: SharedStatus, yourTeam: int, yourTurn: bool)

  /** What the occupant of seat `team` is told. */
  function StatusFor(shared: SharedStatus, team: int): (m: RoomStatus)
    requires team in {1, 2}
    ensures m.shared == shared && m.yourTeam == team
    ensures m.yourTurn <==> shared.gameStateInProgress && TeamTurn(shared.turn) == team
  {
    RoomStatus(shared, team, shared.gameStateInProgress && TeamTurn(shared.turn) == team)
  }

  /**
   * Of the two messages of one `sendGameState`, at most one says it is the
   * recipient's turn, and while the game is in progress with a valid
   * board exactly one does.
   */
  lemma {:induction false} OneTurnFlag(shared: SharedStatus)
    requires shared.turn >= 0
    requires shared.gameStateInProgress == IsGameInProgress(shared.gameState)
    ensures !(StatusFor(shared, 1).yourTurn && StatusFor(shared, 2).yourTurn)
    ensures shared.gameState == Playing ==> StatusFor(shared, 1).yourTurn != StatusFor(shared, 2).yourTurn
  {
    TeamsAlternate(shared.turn);
  }

  class Room {
    const roomcode: RoomCode
    var board: seq<int>
    var turn: int
    var gameState: GameState
    var player1: Option<ConnId>
    var player2: Option<ConnId>

    /** The board invariant, and seat 1 is filled before seat 2. */
    ghost predicate Valid()
      reads `board, `turn, `player1, `player2
    {
      BoardInvariant(board, turn) && (player2.Some? ==> player1.Some?)
    }

    constructor (code: RoomCode)
      ensures Valid()
      ensures roomcode == code && turn == 0 && gameState == Waiting
      ensures board == seq(BoardSize, _ => Blank)
      ensures player1 == None && player2 == None
    {
      roomcode := code;
      var blank := [0, 0, 0, 0, 0, 0, 0, 0, 0];
      assert blank == seq(BoardSize, _ => Blank);
      OccupiedNone(blank);
      board := blank;
      turn := 0;
      gameState := Waiting;
      player1 := None;
      player2 := None;
    }

    /** `player1Connected` */
    function Player1Connected(): (b: bool)
      reads this
      ensures b <==> player1 != None
    {
      player1.Some?
    }

    /** `player2Connected` */
    function Player2Connected(): (b: bool)
      reads this
      ensures b <==> player2 != None
    {
      player2.Some?
    }

    /**
     * `getSocketTeam`: 1 for seat 1, 2 for seat 2 (seat 1 wins when a
     * connection holds both), 0 for anyone else. Reading the id of an
     * unfilled seat throws: always when seat 1 is empty, and for anyone but
     * seat 1's occupant when seat 2 is.
     */
    function SocketTeam(c: ConnId): (r: Outcome<int>)
      reads this
      ensures r == Returns(1) <==> player1 == Some(c)
      ensures r == Returns(2) <==> player1.Some? && player1 != Some(c) && player2 == Some(c)
      ensures r == Returns(0) <==> player1.Some? && player2.Some? && player1 != Some(c) && player2 != Some(c)
      ensures r == Throws <==> player1 == None || (player1 != Some(c) && player2 == None)
    {
      match player1
      case None => Throws
      case Some(p1) =>
        if p1 == c then Returns(1)
        else match player2
          case None => Throws
          case Some(p2) => if p2 == c then Returns(2) else Returns(0)
    }

    /** `getTeamTurn` on this room's counter. */
    function CurrentTeam(): (team: int)
      reads this
      requires Valid()
      ensures team in {1, 2}
      ensures team == 1 <==> turn % 2 == 0
    {
      TeamTurn(turn)
    }

    /** The shared part of `sendGameState`. */
    function Shared(): (s: SharedStatus)
      reads this
      ensures s.code == roomcode && s.board == board && s.turn == turn && s.gameState == gameState
      ensures s.player1Connected <==> player1.Some?
      ensures s.player2Connected <==> player2.Some?
      ensures s.gameStateOver == IsGameOver(gameState)
      ensures s.gameStateInProgress <==> gameState == Playing
    {
      SharedStatus(roomcode, Player1Connected(), Player2Connected(), board, turn, gameState,
        IsGameOver(gameState), IsGameInProgress(gameState))
    }

    /**
     * The `roomstatus` messages of one `sendGameState`, in emission order:
     * seat 1's occupant first, then seat 2's, each only if that seat is filled.
     */
    function Broadcast(): (out: seq<(ConnId, RoomStatus)>)
      reads this
      ensures |out| == (if player1.Some? then 1 else 0) + (if player2.Some? then 1 else 0)
      ensures forall i :: 0 <= i < |out| ==>
        out[i].1.shared == Shared() &&
        (out[i].1.yourTeam == 1 ==> player1 == Some(out[i].0)) &&
        (out[i].1.yourTeam == 2 ==> player2 == Some(out[i].0)) &&
        out[i].1.yourTeam in {1, 2}
      ensures forall i :: 0 <= i < |out| ==>
        (out[i].1.yourTurn <==> gameState == Playing && TeamTurn(turn) == out[i].1.yourTeam)
      ensures player1.Some? ==> out[0] == (player1.value, StatusFor(Shared(), 1))
      ensures player2.Some? ==> out[|out| - 1] == (player2.value, StatusFor(Shared(), 2))
    {
      var shared := Shared();
      (if player1.Some? then [(player1.value, StatusFor(shared, 1))] else []) +
      (if player2.Some? then [(player2.value, StatusFor(shared, 2))] else [])
    }

    /**
     * When the seats hold different connections, every message's team is the
     * team the server itself assigns to its recipient, and a recipient told it
     * is their turn would have any move onto a blank cell accepted.
     */
    lemma BroadcastAgreesWithServer(i: nat, location: int)
      requires Valid()
      requires i < |Broadcast()|
      requires player1 != player2
      ensures SocketTeam(Broadcast()[i].0) == Returns(Broadcast()[i].1.yourTeam)
      ensures Broadcast()[i].1.yourTurn && 0 <= location < BoardSize && board[location] == Blank ==>
        MoveVerdict(Broadcast()[i].1.yourTeam, turn, board, location) == Accepted
    {
    }

    /**
     * `socketJoin`: the first empty seat, seat 1 before seat 2, takes the
     * connection and its number is returned; a full room returns 0 and is
     * left as it was. Joining the socket.io room is done by the caller.
     */
    method Join(c: ConnId) returns (seat: int)
      requires Valid()
      modifies this
      ensures Valid()
      ensures old(player1) == None ==> seat == 1 && player1 == Some(c) && player2 == old(player2)
      ensures old(player1) != None && old(player2) == None ==>
        seat == 2 && player1 == old(player1) && player2 == Some(c)
      ensures old(player1) != None && old(player2) != None ==> seat == 0 && unchanged(this)
      ensures seat != 0 ==> SocketTeam(c).Returns? && SocketTeam(c).value in {1, seat}
      ensures board == old(board) && turn == old(turn) && gameState == old(gameState)
    {
      if !Player1Connected() {
        player1 := Some(c);
        seat := 1;
      } else if !Player2Connected() {
        player2 := Some(c);
        seat := 2;
      } else {
        seat := 0;
      }
    }

    /**
     * `socketMadeMove`: a move is refused, leaving board and turn as they
     * were, unless the caller is seated, it is their team's turn, the
     * location is a cell and that cell is blank; an accepted move writes the
     * caller's team into the cell and advances the turn by one. Identifying
     * the caller may throw (see SocketTeam), before anything is changed.
     */
    method MadeMove(c: ConnId, location: int) returns (r: Outcome<MoveStatus>)
      requires Valid()
      modifies this
      ensures Valid()
      ensures old(SocketTeam(c)) == Throws ==> r == Throws
      ensures old(SocketTeam(c)).Returns? ==>
        r == Returns(MoveVerdict(old(SocketTeam(c)).value, old(turn), old(board), location))
      ensures r == Returns(Accepted) ==>
        0 <= location < BoardSize && old(board)[location] == Blank &&
        board == old(board)[location := old(TeamTurn(turn))] && turn == old(turn) + 1
      ensures r != Returns(Accepted) ==> board == old(board) && turn == old(turn)
      ensures gameState == old(gameState) && player1 == old(player1) && player2 == old(player2)
    {
      var lookup := SocketTeam(c);
      if lookup == Throws {
        return Throws;
      }
      var team := lookup.value;
      if team == 0 {
        return Returns(NotMember);
      }
      if CurrentTeam() != team {
        return Returns(NotYourTurn);
      }
      if location < 0 || location > 8 {
        return Returns(OutOfBounds);
      }
      if board[location] != Blank {
        return Returns(SpaceOccupied);
      }
      AcceptedMoveKeepsInvariant(board, turn, team, location);
      board := board[location := team];
      turn := turn + 1;
      r := Returns(Accepted);
    }
  }
}
