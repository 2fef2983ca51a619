# tictactoe-ws rooms, modelled in Dafny

This project models the server logic of tictactoe-ws, a two-player
tic-tac-toe server on socket.io. All of that logic is in `src/index.ts`. The
model has three parts:

- **`Rooms`** (`room.dfy`) is the `Room` class. A room has a nine-cell board,
  a turn counter, a game state and two seats, each holding at most one
  connection.
  - Functions model the queries: `getTeamTurn`, `getSocketTeam`, the two
    state classifiers, and the per-recipient fields of `sendGameState`.
  - `socketJoin` and `socketMadeMove` are methods that update the room in
    place.
  - Every room keeps the board invariant: every cell is 0, 1 or 2, and
    exactly `turn` cells are non-zero.
- **`Directory`** (`directory.dfy`) is the `rooms` map and the
  `createroom`, `joinroom`, `move` and `disconnecting` handlers. The class
  `Server` holds:
  - the `rooms` map;
  - socket.io's room set for each connection. It is a sequence without
    repeats in insertion order, and a connection not yet in the table is
    only in its own id's room.

  Every handler keeps the invariant `Server.Valid`:
  - each listed room is filed under its own code;
  - each listed room keeps the board invariant and has seat 1 filled;
  - a room set names a room other than the connection's own id only if that
    room is listed and the connection sits in it.

  The ghost field `seats` records the two seats of every listed room, so
  that this invariant can be stated without reading the rooms.
- **`Scenarios`** (`scenarios.dfy`) holds concrete runs with the replies the
  source gives:
  - a game opens, and the second player cannot take an occupied cell;
  - requests are refused;
  - a finished disconnect lets the partner create a room again;
  - a creator who leaves a room nobody joined leaves it listed.

The source throws a TypeError when it reads `.id` or `.rooms` of an empty
seat. The model returns `Throws` there (`Outcome`) and leaves the state as
it was at the throw. Two such throws can happen:

- `move` from a connection that is in no room other than its own is
  answered "Not in a room." before any room is read. The same answer is
  given when the first such room's code is the empty string, because the
  source tests the code for truthiness. So the throw in
  `getSocketTeam` never happens through the handler.
- `disconnecting` throws when the creator of a room that nobody joined
  leaves. The teardown reads `player2.rooms` after the code has
  already been deleted from seat 1's occupant's room set. The model ends
  the handler there, so the room stays listed, marked `disconnect`, with
  seat 2 free. Nothing in the source catches the TypeError, so what happens
  next depends on socket.io and Node (see "Left out"). If the process
  survives, a later `joinroom` seats a second player in the room, and its
  game never starts.

A reader of a tic-tac-toe server might expect several behaviours that the
code does not have. The model follows the code in each case:

- One might expect a disconnect to vacate the seat and always remove the
  room. In the code, the seats are never vacated, and a room whose seat 2
  is empty stays listed.
- One might expect no handler to throw. In the code, `disconnecting` can
  throw, as described above.
- One might expect moves to detect wins and ties. In the code, no handler
  ever sets the `win1`, `win2` or `tie` states, so a game ends only by a
  disconnect or when the board fills: a full board refuses every move.
- One might expect an empty room code to be refused. In the code,
  `createroom("")` and `joinroom("")` succeed. Every move in such a room is
  then answered "Not in a room.", so its game can never be played
  (`Scenarios.EmptyCode`).
- One might expect a connection to sit in at most one room. In the code,
  `joinroom` does not check this. The model keeps only what the code
  guarantees: a connection's room set names a listed room only if the
  connection sits in it.

## Model

| member | source | states |
|---|---|---|
| Rooms.IsGameInProgress | src/index.ts:44-46 | a game in progress is never waiting |
| Rooms.IsGameOver | src/index.ts:37-42 | no state is both over and in progress; every state but `waiting` is one of the two |
| Rooms.JsRemTwo | src/index.ts:85-86 | JavaScript's `% 2`: the Euclidean remainder for non-negative counters, -1 or 0 for negative ones, and zero exactly when the counter is even |
| Rooms.TeamTurn | src/index.ts:84-88 | team 1 exactly on even turns, team 2 exactly on odd non-negative turns, and 0 only for a negative odd counter |
| Rooms.TeamsAlternate | src/index.ts:84-88 | consecutive turns belong to different teams, and every second turn to the same team |
| Rooms.Occupied | src/index.ts:24 | the number of non-blank cells never exceeds the number of cells |
| Rooms.MoveStatusMessages | src/index.ts:121-143 | only an accepted move reports success, and each outcome of `socketMadeMove` carries its own message |
| Rooms.OccupiedNone | src/index.ts:24 | a board of blank cells has no occupied cell, so a new room starts with turn 0 in the invariant |
| Rooms.OccupiedMark | src/index.ts:140 | writing a team into a blank cell adds exactly one occupied cell |
| Rooms.OccupiedFull | src/index.ts:136-138 | every cell is occupied exactly when the occupied count equals the board size |
| Rooms.MoveVerdict | src/index.ts:123-138 | a move is accepted iff the caller is seated, it is their team's turn, the location is 0..8 and the cell is blank; otherwise each refusal is given in the source's order of checks |
| Rooms.AcceptedMoveKeepsInvariant | src/index.ts:136-141 | an accepted move keeps the board invariant, with one more occupied cell and one more turn |
| Rooms.TurnBounded | src/index.ts:24-25 | under the invariant the counter stays within 0..9, and it is 9 exactly when the board is full |
| Rooms.StatusFor | src/index.ts:64-77 | each recipient gets the shared fields, its own seat as `yourTeam`, and `yourTurn` iff the game is in progress and it is that team's turn |
| Rooms.OneTurnFlag | src/index.ts:64-77 | at most one of the two messages says "your turn", and while playing exactly one does |
| Rooms.Room.constructor | src/index.ts:22-27 | a new room is waiting, with an all-blank board, turn 0, both seats empty and the board invariant |
| Rooms.Room.Player1Connected | src/index.ts:29-31 | true iff seat 1 is filled |
| Rooms.Room.Player2Connected | src/index.ts:33-35 | true iff seat 2 is filled |
| Rooms.Room.SocketTeam | src/index.ts:111-119 | 1 for seat 1's occupant, 2 for seat 2's, 0 for others; throws exactly when it reads an empty seat |
| Rooms.Room.CurrentTeam | src/index.ts:84-88 | on a valid room the team to move is 1 or 2, and 1 iff the turn is even |
| Rooms.Room.Shared | src/index.ts:49-62 | the shared status carries the room's code, board, turn and state, the seat flags, and the two classifications |
| Rooms.Room.Broadcast | src/index.ts:64-78 | one message per filled seat, seat 1 first; each carries the shared status and its recipient's team, and `yourTurn` iff playing and that team's turn |
| Rooms.Room.BroadcastAgreesWithServer | src/index.ts:64-77 | when the seats hold different connections, each message's team is the team the server assigns its recipient, and a recipient told it is their turn has any move onto a blank cell accepted |
| Rooms.Room.Join | src/index.ts:95-109 | seat 1 is filled first, then seat 2, returning 1 or 2; a full room returns 0 and is unchanged; the board, turn and state are untouched |
| Rooms.Room.MadeMove | src/index.ts:121-144 | the result is the verdict of the checks for the caller's team; an accepted move writes the mover's team into the cell, changes no other cell and adds one turn; a refused one changes nothing; identifying the caller may throw first |
| Directory.Enter | src/index.ts:98 | `socket.join`: the code is added to the room set if it is absent; earlier entries keep their order and the set stays free of repeats |
| Directory.LeaveAll | src/index.ts:91-92 | deleting codes keeps exactly the other members, without repeats |
| Directory.LeaveAllKeep | src/index.ts:91-92 | deleting codes none of which occurs changes nothing |
| Directory.LeaveAllAppend | src/index.ts:91-92 | deletion keeps order: on two room sets joined end to end, it gives the survivors of the first, in order, then those of the second |
| Directory.LeaveAt | src/index.ts:91 | `Set.delete` of the `i`th code of a room set without repeats removes exactly that entry, leaving the rest in order |
| Directory.Leave | src/index.ts:91 | `Set.delete`: exactly the code is removed |
| Directory.LeaveAllTwice | src/index.ts:91-92 | deleting one set of codes after another deletes their union |
| Directory.ReplyMessages | src/index.ts:170-222 | only "Room created.", "Joined room." and an accepted move report success, and each reply carries its own message |
| Directory.FirstRoom | src/index.ts:210 | the first entry of the room set that is not the caller's own id, or nothing iff every entry is the own id |
| Directory.ConsistentEnter | src/index.ts:180-182 | a connection that takes a seat in a listed room may join that room's socket.io room without breaking the invariant |
| Directory.ConsistentSeatMore | src/index.ts:181 | listing a room or filling one of its seats keeps room sets consistent with the seats |
| Directory.ConsistentLeave | src/index.ts:91-92 | deleting a code from a room set keeps room sets consistent with the seats |
| Directory.ConsistentUnlist | src/index.ts:164-165 | once no occupant's room set names a room, deleting it from the map keeps the invariant |
| Directory.ClosingMembers | src/index.ts:158-161 | `disconnecting` tears down exactly the codes of its room set that are not its own id and are listed |
| Directory.DroppedFor | src/index.ts:164 | teardown deletes from a connection's room set exactly the codes of torn-down rooms it sits in |
| Directory.TornDownNothing | src/index.ts:158 | before the loop no room set has changed |
| Directory.TornDownOneMore | src/index.ts:164 | tearing down one more room removes its code from the room sets of its two occupants and from no other |
| Directory.ClosingListed | src/index.ts:160-161 | only listed rooms are torn down |
| Directory.Stop | src/index.ts:157-168 | where the loop throws: the first code from there on whose listed room has an empty seat 2, with every room passed before it full; or the end |
| Directory.StopAtEnd | src/index.ts:157-168 | the loop runs to the end iff every room it tears down has both seats filled |
| Directory.TornDownAlone | src/index.ts:157-168 | after a complete teardown, the connection's room set names only its own id |
| Directory.VisitedSkip | src/index.ts:159-161 | skipping the own id or an unlisted code keeps the loop state |
| Directory.VisitedClose | src/index.ts:160-165 | tearing down a full room advances the loop state by that room: unlisted, and removed from both occupants' room sets |
| Directory.VisitedStop | src/index.ts:92 | tearing down a room with an empty seat 2 is where the loop stops |
| Directory.Server.constructor | src/index.ts:152 | the server starts with no rooms and no room sets, and valid |
| Directory.Server.RoomsOf | src/index.ts:171 | a connection not yet seen is only in its own id's room |
| Directory.Server.CreateRoom | src/index.ts:170-185 | refused with nothing changed iff the room set holds more than the own id or the code is taken, with the first failing check named; otherwise a fresh waiting room with a blank board, turn 0 and the creator in seat 1 is listed under the code, and the creator joins its socket.io room |
| Directory.Server.List | src/index.ts:181 | `rooms.set` adds exactly the new room and keeps the invariant |
| Directory.Server.TakeSeat | src/index.ts:194 | in a listed room the caller takes seat 2 if it is free; otherwise nothing changes |
| Directory.Server.Enroll | src/index.ts:103 | `socket.join` adds the code to the caller's room set and keeps the invariant |
| Directory.Server.SetState | src/index.ts:202 | assigning a room's state changes nothing else and keeps the invariant |
| Directory.Server.StartIfFull | src/index.ts:200-203 | a waiting room whose two seats are filled starts playing; otherwise the state is unchanged |
| Directory.Server.JoinRoom | src/index.ts:187-207 | "not found" iff the code is absent, "full" iff seat 2 is taken, and nothing changes then; otherwise the caller takes seat 2 and joins the socket.io room; the state changes only from waiting to playing, with both seats filled |
| Directory.Server.MoveCode | src/index.ts:210-211 | the code `move` acts on is the first of the room set other than the own id; there is none when every entry is the own id or that first code is the empty string |
| Directory.Server.Move | src/index.ts:209-223 | "not in a room" iff there is no such code; otherwise its room is listed, the caller is seated in it, and the reply is the verdict of its checks; the board and turn are updated only on acceptance, and the room's state and seats never change |
| Directory.Server.DeleteCode | src/index.ts:91 | `rooms.delete` on a player's room set: the code is removed from that one room set and the invariant is kept |
| Directory.Server.RemovePlayers | src/index.ts:90-93 | the code is deleted from seat 1's occupant's room set, then from seat 2's; it throws exactly when seat 2 is empty, after the first deletion |
| Directory.Server.Unlist | src/index.ts:165 | `rooms.delete` removes exactly the code and keeps the invariant |
| Directory.Server.TearDown | src/index.ts:160-166 | the room is marked disconnected; its code is deleted from both occupants' room sets and it is unlisted, unless seat 2 is empty, which throws with the room still listed |
| Directory.Server.Retire | src/index.ts:162-165 | teardown of a room listed when the handler began marks it disconnected beside those already marked, leaving every other room's state as it was |
| Directory.Server.Visit | src/index.ts:158-166 | one pass of the loop: skipping the own id or an unlisted code, tearing down a listed room otherwise, and stopping exactly at the throw |
| Directory.Server.Close | src/index.ts:160-166 | the pass that tears down a listed room advances the loop state, or stops it when seat 2 is empty |
| Directory.Server.Disconnecting | src/index.ts:157-168 | the listed rooms of the room set other than the own id are torn down in order up to the first with an empty seat 2. They are marked disconnected and unlisted, and their codes are deleted from both occupants' room sets. That room is marked disconnected and throws. It returns iff no such room exists, and then the connection's room set names only its own id |
| Scenarios.Play | src/index.ts:121-223 | a created and joined room accepts the creator's opening move, and refuses the joiner's move onto the same cell and the creator's second move in a row, each reply with the source's message |
| Scenarios.EmptyCode | src/index.ts:170-214 | a room created under the empty code is joined, but a move in it is refused with "Not in a room." |
| Scenarios.Refusals | src/index.ts:170-198 | a third connection finds the room full, the code taken and another code unknown; a seated creator cannot create again; each refusal reports failure with the source's message |
| Scenarios.Walkout | src/index.ts:157-168 | the creator of a full room disconnects: the room is marked disconnected and unlisted, and the partner's room set is only its own id |
| Scenarios.LeaveGame | src/index.ts:157-192 | after that, the code is not found and the partner can create a room |
| Scenarios.Abandon | src/index.ts:90-93 | the creator of a room nobody joined disconnects: the handler throws and the room stays listed, marked disconnected, with seat 2 free |
| Scenarios.LeaveWaitingRoom | src/index.ts:157-207 | if the process survives the throw, a later joiner is seated in that room, and its state stays `disconnect` |

## Left out

- The transport is not modelled:
  - the `emit` calls of `sendGameState` and the handlers' `status` replies. The replies are modelled as `Reply` values, and the `roomstatus` contents as `Room.Broadcast`;
  - the order of the messages a handler sends;
  - the `chat` handler and `socketSentMessage` (src/index.ts:146-149, 225-239), which only relay text;
  - Express, static hosting, `listen` and logging (src/index.ts:1-7, 242-247).
- socket.io's own record of each room's members, which `io.to(code)` uses, is not modelled. The model keeps only each connection's room set. `socket.join` adds to both records. The source's `rooms.delete` on a player's room set (src/index.ts:91-92) changes only the room set, unlike `socket.leave`.
- Handlers run one at a time, each to completion, as on Node's single thread. Interleavings are not modelled.
- Arguments are assumed to have their declared types:
  - `location` is an integer. A fractional location, which the source would report as an occupied space, is not modelled;
  - room codes and ids are strings.
- Win, tie and the game-over states are never assigned by the source, so no transition to them is modelled.
- `Scenarios.LeaveWaitingRoom`, `Directory.Server.Disconnecting`: a throw is modelled as ending the handler only. What the uncaught TypeError then does to the process is not modelled. It depends on how socket.io delivers `disconnecting`, and by default Node exits on an uncaught exception, which loses every room. The run shows the case where the process survives and keeps serving.
- `Directory.Server.Disconnecting`: after a throw, the room sets are bound only by the invariant. The extra removal made by the room that throws is not stated.
- `Directory.Server.Move`: the "Room does not exist." reply and the throw in `getSocketTeam` are kept as written, but the invariant makes both unreachable.
- Rooms are compared by code, not by object. Two room objects under one code cannot arise, because `createroom` refuses a taken code.
