/*
 * Concrete runs of the handlers of src/index.ts, each with the replies the
 * source gives: two connections meet in a room and play, requests are
 * refused, and rooms are torn down on disconnect. Each run is split into
 * steps that start from a described server state.
 */
module Scenarios {
  import opened Rooms
  import opened Directory

  /** `a` created room `code` and `b` joined it; the game is on and nobody has moved. */
  ghost predicate Meeting(server: Server, a: ConnId, b: ConnId, code: RoomCode)
    reads server, server.rooms.Values
  {
    server.Valid() && a != code && b != code && a != b &&
    server.rooms.Keys == {code} &&
    server.memberOf == map[a := [a, code], b := [b, code]] &&
    var room := server.rooms[code];
    room.player1 == Some(a) && room.player2 == Some(b) && room.gameState == Playing &&
    room.turn == 0 && room.board == seq(BoardSize, _ => Blank)
  }

  /** A connection seated in one room: `move` looks up that room's code. */
  lemma FirstOfPair(a: ConnId, code: RoomCode)
    requires a != code
    ensures FirstRoom([a, code], a) == Some(code)
  {
    assert [a, code][1..] == [code];
  }

  /** `a` creates room `code` on a fresh server and `b` joins it. */
  method Meet(a: ConnId, b: ConnId, code: RoomCode) returns (server: Server, created: Reply, joined: Reply)
    requires a != code && b != code && a != b
    ensures fresh(server) && Meeting(server, a, b, code) && fresh(server.rooms[code])
    ensures created == Created && joined == Joined
  {
    server := new Server();
    created := server.CreateRoom(a, code);
    assert Enter([a], code) == [a, code];
    assert server.memberOf == map[a := [a, code]];
    joined := server.JoinRoom(b, code);
    assert Enter([b], code) == [b, code];
  }

  /** The creator moves first, onto the centre cell. */
  method OpeningMove(server: Server, a: ConnId, b: ConnId, code: RoomCode) returns (reply: Outcome<Reply>)
    requires Meeting(server, a, b, code) && code != ""
    modifies server.rooms[code]
    ensures server.Valid() && server.rooms == old(server.rooms) && server.memberOf == old(server.memberOf)
    ensures reply == Returns(Moved(Accepted))
    ensures server.rooms[code].turn == 1 && server.rooms[code].board[4] == 1
    ensures server.rooms[code].player1 == Some(a) && server.rooms[code].player2 == Some(b)
  {
    assert server.RoomsOf(a) == [a, code];
    FirstOfPair(a, code);
    assert server.MoveCode(a) == Some(code);
    var room := server.rooms[code];
    assert room.SocketTeam(a) == Returns(1) && TeamTurn(room.turn) == 1 && room.board[4] == Blank;
    reply := server.Move(a, 4);
  }

  /** After the opening move, the joiner cannot take the same cell and the creator cannot move again. */
  method Rebuffed(server: Server, a: ConnId, b: ConnId, code: RoomCode) returns (taken: Outcome<Reply>, twice: Outcome<Reply>)
    requires server.Valid() && a != code && b != code && a != b && code != ""
    requires server.rooms.Keys == {code} && server.memberOf == map[a := [a, code], b := [b, code]]
    requires server.rooms[code].turn == 1 && server.rooms[code].board[4] == 1
    requires server.rooms[code].player1 == Some(a) && server.rooms[code].player2 == Some(b)
    modifies server.rooms[code]
    ensures taken == Returns(Moved(SpaceOccupied))
    ensures twice == Returns(Moved(NotYourTurn))
  {
    FirstOfPair(a, code);
    FirstOfPair(b, code);
    assert server.RoomsOf(b) == [b, code] && server.MoveCode(b) == Some(code);
    taken := server.Move(b, 4);
    assert server.RoomsOf(a) == [a, code] && server.MoveCode(a) == Some(code);
    twice := server.Move(a, 0);
  }

  /** Alice creates a room, Bob joins and the game starts; Bob cannot take Alice's cell, nor Alice move twice. */
  method Play() returns (created: Reply, joined: Reply, first: Outcome<Reply>, taken: Outcome<Reply>, twice: Outcome<Reply>)
    ensures created == Created && joined == Joined
    ensures first == Returns(Moved(Accepted))
    ensures taken == Returns(Moved(SpaceOccupied)) && twice == Returns(Moved(NotYourTurn))
    ensures created.Message() == "Room created." && joined.Message() == "Joined room."
    ensures first.value.Success() && first.value.Message() == "Move accepted"
    ensures taken.value.Message() == "Invalid move: space occupied" && twice.value.Message() == "Not your team's turn"
  {
    created, joined, first, taken, twice := PlayRun();
  }

  /** The run behind `Play`, on a fresh server. */
  method PlayRun() returns (created: Reply, joined: Reply, first: Outcome<Reply>, taken: Outcome<Reply>, twice: Outcome<Reply>)
    ensures created == Created && joined == Joined
    ensures first == Returns(Moved(Accepted))
    ensures taken == Returns(Moved(SpaceOccupied)) && twice == Returns(Moved(NotYourTurn))
  {
    var server;
    server, created, joined := Meet("alice", "bob", "den");
    first := OpeningMove(server, "alice", "bob", "den");
    taken, twice := Rebuffed(server, "alice", "bob", "den");
  }

  /** Refusals in a full room: a third connection cannot join, nor take its code, nor join an unknown code. */
  method Crowded(server: Server, a: ConnId, b: ConnId, code: RoomCode, c: ConnId, other: RoomCode)
    returns (full: Reply, clash: Reply, missing: Reply)
    requires Meeting(server, a, b, code) && c != a && c != b && c != code && other != code
    modifies server, server.rooms[code]
    ensures full == RoomFull && clash == CodeTaken && missing == NotFound
  {
    full := server.JoinRoom(c, code);
    clash := server.CreateRoom(c, code);
    missing := server.JoinRoom(c, other);
  }

  /** A seated creator cannot create a second room. */
  method Greedy(server: Server, a: ConnId, b: ConnId, code: RoomCode, other: RoomCode) returns (again: Reply)
    requires Meeting(server, a, b, code)
    modifies server
    ensures again == AlreadyInRoom
  {
    again := server.CreateRoom(a, other);
  }

  /**
   * Alice creates a room whose code is the empty string and Bob joins it; the
   * game never starts, since every move is answered "Not in a room.".
   */
  method EmptyCode() returns (created: Reply, joined: Reply, move: Outcome<Reply>)
    ensures created == Created && joined == Joined
    ensures move == Returns(NotInRoom)
    ensures !move.value.Success() && move.value.Message() == "Not in a room."
  {
    created, joined, move := EmptyCodeRun();
  }

  /** The run behind `EmptyCode`, on a fresh server. */
  method EmptyCodeRun() returns (created: Reply, joined: Reply, move: Outcome<Reply>)
    ensures created == Created && joined == Joined
    ensures move == Returns(NotInRoom)
  {
    var server;
    server, created, joined := Meet("alice", "bob", "");
    assert server.RoomsOf("alice") == ["alice", ""];
    FirstOfPair("alice", "");
    move := server.Move("alice", 4);
  }

  /** Carol finds Alice and Bob's room full, its code taken and another code unknown; Alice cannot create a second room. */
  method Refusals() returns (full: Reply, clash: Reply, missing: Reply, again: Reply)
    ensures full == RoomFull && clash == CodeTaken && missing == NotFound && again == AlreadyInRoom
    ensures full.Message() == "Room is full." && clash.Message() == "Room code already taken."
    ensures missing.Message() == "Room not found." && again.Message() == "Already in a room."
    ensures !full.Success() && !clash.Success() && !missing.Success() && !again.Success()
  {
    var server, created, joined := Meet("alice", "bob", "den");
    full, clash, missing := Crowded(server, "alice", "bob", "den", "carol", "attic");
    var server2, created2, joined2 := Meet("alice", "bob", "den");
    again := Greedy(server2, "alice", "bob", "den", "attic");
  }

  /** The creator of a game in progress disconnects: the room is marked disconnected and unlisted, and the partner is alone. */
  method Walkout(server: Server, a: ConnId, b: ConnId, code: RoomCode) returns (left: Outcome<()>)
    requires Meeting(server, a, b, code)
    modifies server, server.rooms[code]
    ensures left.Returns?
    ensures old(server.rooms[code]).gameState == Disconnect
    ensures server.Valid() && server.rooms == map[] && server.RoomsOf(b) == [b]
  {
    ghost var (codes, seats) := ([a, code], server.seats);
    assert server.RoomsValid() && seats[code] == Seats(Some(a), Some(b));
    assert server.RoomsOf(a) == codes;
    assert Stop(codes, 1, a, {code}, seats) == 2;
    assert Closing(codes, 1, a, {code}) == {};
    assert Closing(codes, 2, a, {code}) == {code};
    assert DroppedFor(b, {code}, seats) == {code};
    assert LeaveAll([b, code], {code}) == [b];
    ghost var before := server.memberOf;
    left := server.Disconnecting(a);
    assert SetOf(server.memberOf, b) == LeaveAll(SetOf(before, b), DroppedFor(b, {code}, seats));
    assert server.rooms.Keys == {};
  }

  /** Alice leaves a game with Bob: the room is gone, Carol cannot join it, and Bob may create a room again. */
  method LeaveGame() returns (left: Outcome<()>, state: GameState, rejoin: Reply, recreate: Reply)
    ensures left.Returns? && state == Disconnect
    ensures rejoin == NotFound && recreate == Created
  {
    var server, created, joined := Meet("alice", "bob", "den");
    var room := server.rooms["den"];
    left := Walkout(server, "alice", "bob", "den");
    state := room.gameState;
    rejoin := server.JoinRoom("carol", "den");
    recreate := server.CreateRoom("bob", "attic");
  }

  /** `a` creates room `code` on a fresh server; nobody joins. */
  method Open(a: ConnId, code: RoomCode) returns (server: Server, created: Reply)
    requires a != code
    ensures fresh(server) && created == Created
    ensures server.Valid() && server.rooms.Keys == {code} && server.memberOf == map[a := [a, code]]
    ensures fresh(server.rooms[code])
    ensures server.rooms[code].player1 == Some(a) && server.rooms[code].player2 == None
  {
    server := new Server();
    created := server.CreateRoom(a, code);
    assert Enter([a], code) == [a, code];
  }

  /**
   * The creator of a room nobody joined leaves: the handler throws once the
   * code is deleted from the creator's room set, and the room stays listed,
   * marked disconnected, with seat 2 free.
   */
  method Abandon(server: Server, a: ConnId, code: RoomCode) returns (left: Outcome<()>)
    requires server.Valid() && a != code && server.rooms.Keys == {code} && server.memberOf == map[a := [a, code]]
    requires server.rooms[code].player1 == Some(a) && server.rooms[code].player2 == None
    modifies server, server.rooms[code]
    ensures left == Throws && server.Valid() && server.rooms == old(server.rooms)
    ensures server.rooms[code].gameState == Disconnect && server.rooms[code].player2 == None
  {
    ghost var (codes, seats) := ([a, code], server.seats);
    assert server.RoomsValid() && seats[code] == Seats(Some(a), None);
    assert server.RoomsOf(a) == codes;
    assert Stop(codes, 1, a, {code}, seats) == 1;
    assert Stop(codes, 0, a, {code}, seats) == 1;
    assert Closing(codes, 1, a, {code}) == {};
    left := server.Disconnecting(a);
    assert server.rooms == old(server.rooms) - {};
  }

  /**
   * Alice leaves the room she opened; the room stays listed. On a server
   * that survives the uncaught throw, Bob then joins a game that never starts.
   */
  method LeaveWaitingRoom() returns (left: Outcome<()>, listed: bool, joined: Reply, state: GameState)
    ensures left == Throws && listed
    ensures joined == Joined && state == Disconnect
  {
    var server, created := Open("alice", "den");
    var room := server.rooms["den"];
    left := Abandon(server, "alice", "den");
    listed := "den" in server.rooms;
    joined := server.JoinRoom("bob", "den");
    state := room.gameState;
  }
}
