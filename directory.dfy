/*
 * The room directory and the connection handlers of src/index.ts: the
 * `rooms` map from code to Room, each connection's socket.io room set,
 * and the `createroom`, `joinroom`, `move` and `disconnecting` handlers
 * that create, join, play in and tear down rooms.
 *
 * socket.io keeps, per connection, the set of rooms it has joined; that set
 * starts out holding the connection's own id and iterates in insertion
 * order. Here it is a sequence without repetitions, kept by the Server
 * beside the `rooms` map.
 */
module Directory {
  import opened Rooms

  /** No code occurs twice: the sequence stands for a set. */
  ghost predicate NoRepeats(codes: seq<RoomCode>)
  {
    codes == [] || (codes[0] !in codes[1..] && NoRepeats(codes[1..]))
  }

  /** Appending a code that is not there yet keeps a sequence free of repeats. */
  lemma {:induction false} NoRepeatsAppend(codes: seq<RoomCode>, k: RoomCode)
    requires NoRepeats(codes) && k !in codes
    ensures NoRepeats(codes + [k])
  {
    if codes != [] {
      assert (codes + [k])[1..] == codes[1..] + [k];
      NoRepeatsAppend(codes[1..], k);
    }
  }

  /** `Set.add` on a room set: the code is appended unless it is already there. */
  function Enter(codes: seq<RoomCode>, k: RoomCode): (r: seq<RoomCode>)
    ensures forall x :: x in r <==> x in codes || x == k
    ensures NoRepeats(codes) ==> NoRepeats(r)
    ensures |codes| <= |r| && r[..|codes|] == codes
  {
    if k in codes then codes
    else
      assert NoRepeats(codes) ==> NoRepeats(codes + [k]) by {
        if NoRepeats(codes) { NoRepeatsAppend(codes, k); }
      }
      codes + [k]
  }

  /** The room set with every code of `drop` deleted, the rest in their order. */
  function LeaveAll(codes: seq<RoomCode>, drop: set<RoomCode>): (r: seq<RoomCode>)
    ensures forall x :: x in r <==> x in codes && x !in drop
    ensures |r| <= |codes|
    ensures NoRepeats(codes) ==> NoRepeats(r)
  {
    if codes == [] then []
    else if codes[0] in drop then LeaveAll(codes[1..], drop)
    else [codes[0]] + LeaveAll(codes[1..], drop)
  }

  /** `Set.delete` on a room set. */
  function Leave(codes: seq<RoomCode>, k: RoomCode): (r: seq<RoomCode>)
    ensures forall x :: x in r <==> x in codes && x != k
  {
    LeaveAll(codes, {k})
  }

  /** Deleting codes of which none occurs leaves a room set as it was. */
  lemma {:induction false} LeaveAllKeep(codes: seq<RoomCode>, drop: set<RoomCode>)
    requires forall i :: 0 <= i < |codes| ==> codes[i] !in drop
    ensures LeaveAll(codes, drop) == codes
  {
    if codes != [] {
      LeaveAllKeep(codes[1..], drop);
    }
  }

  /**
   * Deletion keeps order: from two room sets joined end to end, the
   * survivors of the first come first, each part in its own order.
   */
  lemma {:induction false} LeaveAllAppend(a: seq<RoomCode>, b: seq<RoomCode>, drop: set<RoomCode>)
    ensures LeaveAll(a + b, drop) == LeaveAll(a, drop) + LeaveAll(b, drop)
  {
    if a == [] {
      assert a + b == b;
    } else {
      assert (a + b)[0] == a[0] && (a + b)[1..] == a[1..] + b;
      LeaveAllAppend(a[1..], b, drop);
    }
  }

  /**
   * `Set.delete` of the `i`th code of a room set without repeats removes
   * exactly that entry; the others keep their order.
   */
  lemma {:induction false} LeaveAt(codes: seq<RoomCode>, i: nat)
    requires NoRepeats(codes) && i < |codes|
    ensures Leave(codes, codes[i]) == codes[..i] + codes[i + 1..]
  {
    if i == 0 {
      LeaveAllKeep(codes[1..], {codes[0]});
    } else {
      assert codes[i] == codes[1..][i - 1];
      assert codes[i] != codes[0];
      LeaveAt(codes[1..], i - 1);
      assert codes[1..][..i - 1] == codes[1..i] && codes[1..][i..] == codes[i + 1..];
      assert codes[..i] == [codes[0]] + codes[1..i];
    }
  }

  /** Deleting codes one set after another deletes their union. */
  lemma {:induction false} LeaveAllTwice(codes: seq<RoomCode>, a: set<RoomCode>, b: set<RoomCode>)
    ensures LeaveAll(LeaveAll(codes, a), b) == LeaveAll(codes, a + b)
  {
    if codes != [] {
      LeaveAllTwice(codes[1..], a, b);
      if codes[0] !in a {
        assert LeaveAll(codes, a) == [codes[0]] + LeaveAll(codes[1..], a);
        assert LeaveAll(codes, a)[1..] == LeaveAll(codes[1..], a);
      }
    }
  }

  /**
   * The room a `move` acts on: the first entry of the connection's room set
   * that is not its own id, or nothing when there is none.
   */
  function FirstRoom(codes: seq<RoomCode>, self: ConnId): (r: Option<RoomCode>)
    ensures r == None <==> forall i :: 0 <= i < |codes| ==> codes[i] == self
    ensures r.Some? ==> r.value != self && exists i ::
      0 <= i < |codes| && codes[i] == r.value && forall j :: 0 <= j < i ==> codes[j] == self
  {
    if codes == [] then None
    else if codes[0] != self then Some(codes[0])
    else
      var rest := FirstRoom(codes[1..], self);
      assert forall j :: 1 <= j < |codes| ==> codes[j] == codes[1..][j - 1];
      rest
  }

  /** The connections in the two seats of a room. */
  datatype Seats = Seats(first: Option<ConnId>, second: Option<ConnId>)
  {
    predicate Holds(c: ConnId)
    {
      first == Some(c) || second == Some(c)
    }
  }

  /** The room set of connection `c` in a table of room sets; a fresh connection is only in its own room. */
  function SetOf(memberOf: map<ConnId, seq<RoomCode>>, c: ConnId): (codes: seq<RoomCode>)
    ensures c !in memberOf ==> codes == [c]
  {
    if c in memberOf then memberOf[c] else [c]
  }

  /**
   * The room set `codes` of connection `c` agrees with the seats: it repeats
   * no code, and names a room other than `c`'s own id only if that room is
   * listed and `c` sits in it.
   */
  ghost predicate Agrees(codes: seq<RoomCode>, c: ConnId, seating: map<RoomCode, Seats>)
  {
    NoRepeats(codes) && forall k :: k in codes && k != c ==> k in seating && seating[k].Holds(c)
  }

  /** Every room set agrees with the seats. */
  ghost predicate Consistent(memberOf: map<ConnId, seq<RoomCode>>, seating: map<RoomCode, Seats>)
  {
    forall c :: c in memberOf ==> Agrees(memberOf[c], c, seating)
  }

  /** A connection that takes a seat in a listed room may enter that room's socket.io room. */
  lemma ConsistentEnter(memberOf: map<ConnId, seq<RoomCode>>, seating: map<RoomCode, Seats>, c: ConnId, code: RoomCode)
    requires Consistent(memberOf, seating)
    requires code in seating && seating[code].Holds(c)
    ensures Consistent(memberOf[c := Enter(SetOf(memberOf, c), code)], seating)
  {
    assert Agrees(SetOf(memberOf, c), c, seating);
  }

  /** Listing a room or filling seats never makes room sets disagree with them. */
  lemma ConsistentSeatMore(memberOf: map<ConnId, seq<RoomCode>>, seating: map<RoomCode, Seats>, code: RoomCode, seats: Seats)
    requires Consistent(memberOf, seating)
    requires forall c :: code in seating && seating[code].Holds(c) ==> seats.Holds(c)
    ensures Consistent(memberOf, seating[code := seats])
  {
  }

  /** Deleting a code from a room set never makes room sets disagree with the seats. */
  lemma ConsistentLeave(memberOf: map<ConnId, seq<RoomCode>>, seating: map<RoomCode, Seats>, c: ConnId, code: RoomCode)
    requires Consistent(memberOf, seating)
    ensures Consistent(memberOf[c := Leave(SetOf(memberOf, c), code)], seating)
  {
  }

  /**
   * Once the room sets of both occupants of a room no longer name it, no
   * room set does, and it can be unlisted.
   */
  lemma ConsistentUnlist(memberOf: map<ConnId, seq<RoomCode>>, seating: map<RoomCode, Seats>, code: RoomCode)
    requires Consistent(memberOf, seating)
    requires code in seating
    requires forall c :: seating[code].Holds(c) ==> code !in SetOf(memberOf, c) || code == c
    ensures Consistent(memberOf, seating - {code})
  {
  }

  /**
   * The codes a disconnecting connection tears down among the first `n` of
   * its room set: those other than its own id that are listed.
   */
  ghost function Closing(codes: seq<RoomCode>, n: nat, self: ConnId, listed: set<RoomCode>): set<RoomCode>
    requires n <= |codes|
  {
    if n == 0 then {}
    else Closing(codes, n - 1, self, listed) + (if codes[n - 1] != self && codes[n - 1] in listed then {codes[n - 1]} else {})
  }

  /** A code closes exactly when it is among the first `n`, is not the connection's own id and is listed. */
  lemma {:induction false} ClosingMembers(codes: seq<RoomCode>, n: nat, self: ConnId, listed: set<RoomCode>)
    requires n <= |codes|
    ensures forall k :: k in Closing(codes, n, self, listed) <==> k in codes[..n] && k != self && k in listed
  {
    if n > 0 {
      ClosingMembers(codes, n - 1, self, listed);
      assert codes[..n] == codes[..n - 1] + [codes[n - 1]];
    }
  }

  /** The codes that teardown of `closing` deletes from the room set of connection `p`: those of rooms it sits in. */
  function DroppedFor(p: ConnId, closing: set<RoomCode>, seating: map<RoomCode, Seats>): (dropped: set<RoomCode>)
    ensures forall k :: k in dropped <==> k in closing && k in seating && seating[k].Holds(p)
  {
    set k | k in closing && k in seating && seating[k].Holds(p)
  }

  /** The room sets `after` are those `before` once the rooms `closing` are torn down. */
  ghost predicate TornDown(before: map<ConnId, seq<RoomCode>>, after: map<ConnId, seq<RoomCode>>,
                           closing: set<RoomCode>, seating: map<RoomCode, Seats>)
  {
    forall p :: SetOf(after, p) == LeaveAll(SetOf(before, p), DroppedFor(p, closing, seating))
  }

  /** Tearing down nothing changes no room set. */
  lemma TornDownNothing(memberOf: map<ConnId, seq<RoomCode>>, seating: map<RoomCode, Seats>)
    ensures TornDown(memberOf, memberOf, {}, seating)
  {
    forall p ensures SetOf(memberOf, p) == LeaveAll(SetOf(memberOf, p), DroppedFor(p, {}, seating)) {
      assert DroppedFor(p, {}, seating) == {};
      LeaveAllKeep(SetOf(memberOf, p), {});
    }
  }

  /** Tearing down one more room removes its code from the sets of its two occupants. */
  lemma TornDownOneMore(before: map<ConnId, seq<RoomCode>>, mid: map<ConnId, seq<RoomCode>>,
                        closing: set<RoomCode>, seating: map<RoomCode, Seats>, code: RoomCode)
    requires TornDown(before, mid, closing, seating)
    requires code in seating && seating[code].first.Some? && seating[code].second.Some?
    ensures var p1, p2 := seating[code].first.value, seating[code].second.value;
      var m1 := mid[p1 := Leave(SetOf(mid, p1), code)];
      TornDown(before, m1[p2 := Leave(SetOf(m1, p2), code)], closing + {code}, seating)
  {
    var p1, p2 := seating[code].first.value, seating[code].second.value;
    var m1 := mid[p1 := Leave(SetOf(mid, p1), code)];
    var m2 := m1[p2 := Leave(SetOf(m1, p2), code)];
    forall p ensures SetOf(m2, p) == LeaveAll(SetOf(before, p), DroppedFor(p, closing + {code}, seating)) {
      TornDownAt(before, mid, closing, seating, code, p);
    }
  }

  /** TornDownOneMore for one connection. */
  lemma TornDownAt(before: map<ConnId, seq<RoomCode>>, mid: map<ConnId, seq<RoomCode>>,
                   closing: set<RoomCode>, seating: map<RoomCode, Seats>, code: RoomCode, p: ConnId)
    requires TornDown(before, mid, closing, seating)
    requires code in seating && seating[code].first.Some? && seating[code].second.Some?
    ensures var p1, p2 := seating[code].first.value, seating[code].second.value;
      var m1 := mid[p1 := Leave(SetOf(mid, p1), code)];
      SetOf(m1[p2 := Leave(SetOf(m1, p2), code)], p) ==
        LeaveAll(SetOf(before, p), DroppedFor(p, closing + {code}, seating))
  {
    var p1, p2 := seating[code].first.value, seating[code].second.value;
    var m1 := mid[p1 := Leave(SetOf(mid, p1), code)];
    var m2 := m1[p2 := Leave(SetOf(m1, p2), code)];
    var d := DroppedFor(p, closing, seating);
    assert SetOf(mid, p) == LeaveAll(SetOf(before, p), d);
    if seating[code].Holds(p) {
      LeaveAllTwice(SetOf(before, p), d, {code});
      assert DroppedFor(p, closing + {code}, seating) == d + {code};
      if p == p1 && p == p2 {
        LeaveAllTwice(SetOf(before, p), d + {code}, {code});
        assert d + {code} + {code} == d + {code};
      }
    } else {
      assert DroppedFor(p, closing + {code}, seating) == d;
    }
  }

  /** Only listed codes close. */
  lemma {:induction false} ClosingListed(codes: seq<RoomCode>, n: nat, self: ConnId, listed: set<RoomCode>)
    requires n <= |codes|
    ensures Closing(codes, n, self, listed) <= listed
  {
    if n > 0 {
      ClosingListed(codes, n - 1, self, listed);
    }
  }

  /**
   * Where `disconnecting` stops when it has reached the `i`th code: the first
   * code from there on that it tears down although seat 2 of its room was never
   * filled, or `|codes|` when there is none.
   */
  function Stop(codes: seq<RoomCode>, i: nat, self: ConnId, listed: set<RoomCode>, seating: map<RoomCode, Seats>): (n: nat)
    requires i <= |codes|
    ensures i <= n <= |codes|
    ensures n < |codes| ==> codes[n] != self && codes[n] in listed && codes[n] in seating && seating[codes[n]].second.None?
    ensures forall j :: i <= j < n && codes[j] != self && codes[j] in listed && codes[j] in seating ==> seating[codes[j]].second.Some?
    decreases |codes| - i
  {
    if i == |codes| then i
    else if codes[i] != self && codes[i] in listed && codes[i] in seating && seating[codes[i]].second.None? then i
    else Stop(codes, i + 1, self, listed, seating)
  }

  /** `disconnecting` runs to the end exactly when every room it tears down has had both seats filled. */
  lemma StopAtEnd(codes: seq<RoomCode>, self: ConnId, listed: set<RoomCode>, seating: map<RoomCode, Seats>)
    requires listed <= seating.Keys
    ensures Stop(codes, 0, self, listed, seating) == |codes| <==>
      forall k :: k in Closing(codes, |codes|, self, listed) ==> k in seating && seating[k].second.Some?
  {
    ClosingMembers(codes, |codes|, self, listed);
    assert codes[..|codes|] == codes;
    var n := Stop(codes, 0, self, listed, seating);
    if n < |codes| {
      assert codes[n] in Closing(codes, |codes|, self, listed);
    } else {
      forall k | k in Closing(codes, |codes|, self, listed)
        ensures k in seating && seating[k].second.Some?
      {
        var j :| 0 <= j < |codes| && codes[j] == k;
      }
    }
  }

  /**
   * Once a connection has torn down every listed room its room set names,
   * its room set names nothing but its own id: it sits in no room any more.
   */
  lemma TornDownAlone(before: map<ConnId, seq<RoomCode>>, after: map<ConnId, seq<RoomCode>>,
                      c: ConnId, seating: map<RoomCode, Seats>)
    requires Consistent(before, seating)
    requires TornDown(before, after, Closing(SetOf(before, c), |SetOf(before, c)|, c, seating.Keys), seating)
    ensures forall k :: k in SetOf(after, c) ==> k == c
  {
    var codes := SetOf(before, c);
    var closed := Closing(codes, |codes|, c, seating.Keys);
    ClosingMembers(codes, |codes|, c, seating.Keys);
    assert codes[..|codes|] == codes;
    assert Agrees(codes, c, seating);
    forall k | k in SetOf(after, c)
      ensures k == c
    {
      assert SetOf(after, c) == LeaveAll(codes, DroppedFor(c, closed, seating));
    }
  }

  /** Unlisting two sets of codes one after the other unlists their union. */
  lemma UnlistTwice<V>(m: map<RoomCode, V>, a: set<RoomCode>, b: set<RoomCode>)
    ensures m - a - b == m - (a + b)
  {
  }

  /** The listed rooms, their game states, the room sets and the seating when `disconnecting` began. */
  datatype Start = Start(rooms: map<RoomCode, Room>, states: map<RoomCode, GameState>,
                         memberOf: map<ConnId, seq<RoomCode>>, seating: map<RoomCode, Seats>)
  {
    predicate Wellformed()
    {
      states.Keys == rooms.Keys && seating.Keys == rooms.Keys &&
      forall k :: k in rooms ==> rooms[k].roomcode == k
    }
  }

  /**
   * The listed rooms, the seating and the room sets once the `disconnecting`
   * loop over the room set `codes` of connection `c` has visited the first
   * `i` codes without throwing and torn down the rooms `closed`.
   */
  ghost predicate Visited(c: ConnId, codes: seq<RoomCode>, i: nat, closed: set<RoomCode>, start: Start,
                          rooms: map<RoomCode, Room>, seats: map<RoomCode, Seats>, memberOf: map<ConnId, seq<RoomCode>>)
  {
    start.Wellformed() && i <= |codes| &&
    Stop(codes, i, c, start.rooms.Keys, start.seating) == Stop(codes, 0, c, start.rooms.Keys, start.seating) &&
    closed == Closing(codes, i, c, start.rooms.Keys) && closed <= start.rooms.Keys &&
    (forall k :: k in closed ==> start.seating[k].second.Some?) &&
    rooms == start.rooms - closed && seats == start.seating - closed &&
    TornDown(start.memberOf, memberOf, closed, start.seating)
  }

  /** Skipping the connection's own id or a code no listed room has keeps the loop on course. */
  lemma VisitedSkip(c: ConnId, codes: seq<RoomCode>, i: nat, closed: set<RoomCode>, start: Start,
                    rooms: map<RoomCode, Room>, seats: map<RoomCode, Seats>, memberOf: map<ConnId, seq<RoomCode>>)
    requires Visited(c, codes, i, closed, start, rooms, seats, memberOf)
    requires i < |codes| && (codes[i] == c || codes[i] !in rooms)
    ensures Visited(c, codes, i + 1, closed, start, rooms, seats, memberOf)
  {
  }

  /** Tearing down the room of the `i`th code, both of whose seats are filled, closes it. */
  lemma VisitedClose(c: ConnId, codes: seq<RoomCode>, i: nat, closed: set<RoomCode>, start: Start,
                     rooms: map<RoomCode, Room>, seats: map<RoomCode, Seats>, memberOf: map<ConnId, seq<RoomCode>>,
                     p1: ConnId, p2: ConnId)
    requires Visited(c, codes, i, closed, start, rooms, seats, memberOf)
    requires i < |codes| && codes[i] != c && codes[i] in rooms && seats[codes[i]] == Seats(Some(p1), Some(p2))
    ensures var m1 := memberOf[p1 := Leave(SetOf(memberOf, p1), codes[i])];
      Visited(c, codes, i + 1, closed + {codes[i]}, start, rooms - {codes[i]}, seats - {codes[i]},
              m1[p2 := Leave(SetOf(m1, p2), codes[i])])
  {
    TornDownOneMore(start.memberOf, memberOf, closed, start.seating, codes[i]);
    UnlistTwice(start.rooms, closed, {codes[i]});
    UnlistTwice(start.seating, closed, {codes[i]});
  }

  /** Tearing down the room of the `i`th code throws when its seat 2 was never filled: the loop stops there. */
  lemma VisitedStop(c: ConnId, codes: seq<RoomCode>, i: nat, closed: set<RoomCode>, start: Start,
                    rooms: map<RoomCode, Room>, seats: map<RoomCode, Seats>, memberOf: map<ConnId, seq<RoomCode>>)
    requires Visited(c, codes, i, closed, start, rooms, seats, memberOf)
    requires i < |codes| && codes[i] != c && codes[i] in rooms && seats[codes[i]].second.None?
    ensures Stop(codes, 0, c, start.rooms.Keys, start.seating) == i
  {
  }

  /** The replies of the handlers, each with the source's message. */
  datatype Reply =
    | AlreadyInRoom | CodeTaken | Created
    | NotFound | RoomFull | Joined
    | NotInRoom | NoSuchRoom | Moved(status: MoveStatus)
  {
    function Success(): bool
    {
      match this
      case Created => true
      case Joined => true
      case Moved(s) => s.Success()
      case _ => false
    }

    function Message(): string
    {
      match this
      case AlreadyInRoom => "Already in a room."
      case CodeTaken => "Room code already taken."
      case Created => "Room created."
      case NotFound => "Room not found."
      case RoomFull => "Room is full."
      case Joined => "Joined room."
      case NotInRoom => "Not in a room."
      case NoSuchRoom => "Room does not exist."
      case Moved(s) => s.Message()
    }
  }

  /**
   * Only a created room, a joined room and an accepted move report success,
   * and no two replies share a message.
   */
  lemma ReplyMessages(r: Reply, q: Reply)
    ensures r.Success() <==> r == Created || r == Joined || r == Moved(Accepted)
    ensures r.Message() == q.Message() <==> r == q
  {
  }

  class Server {
    /** The `rooms` map. */
    var rooms: map<RoomCode, Room>
    /** socket.io's room set of every connection that has been given one. */
    var memberOf: map<ConnId, seq<RoomCode>>
    /** Who sits where, room by room: a record of the seats of the listed rooms kept for the proofs. */
    ghost var seats: map<RoomCode, Seats>

    constructor ()
      ensures Valid()
      ensures rooms == map[] && memberOf == map[]
    {
      rooms := map[];
      memberOf := map[];
      seats := map[];
    }

    /** The room set of connection `c`. */
    function RoomsOf(c: ConnId): (codes: seq<RoomCode>)
      reads this
      ensures c !in memberOf ==> codes == [c]
    {
      SetOf(memberOf, c)
    }

    /**
     * Every listed room is filed under its own code, keeps the board
     * invariant, has seat 1 filled and is seated as `seats` records.
     */
    ghost predicate RoomsValid()
      reads `rooms, `seats, rooms.Values`board, rooms.Values`turn, rooms.Values`player1, rooms.Values`player2
    {
      seats.Keys == rooms.Keys &&
      forall k :: k in rooms ==>
        rooms[k].roomcode == k && rooms[k].Valid() && rooms[k].player1.Some? &&
        seats[k] == Seats(rooms[k].player1, rooms[k].player2)
    }

    /** The listed rooms are well formed and the room sets agree with their seats. */
    ghost predicate Valid()
      reads this, rooms.Values
    {
      RoomsValid() && Consistent(memberOf, seats)
    }

    /**
     * `createroom`: refused when the connection's room set holds more than
     * its own id or the code is taken, with nothing changed; otherwise a new
     * waiting room with an empty board is listed under the code, the caller
     * in seat 1, and the caller enters its socket.io room.
     */
    method CreateRoom(c: ConnId, code: RoomCode) returns (reply: Reply)
      requires Valid()
      modifies this
      ensures Valid()
      ensures |old(RoomsOf(c))| > 1 ==> reply == AlreadyInRoom
      ensures |old(RoomsOf(c))| <= 1 && code in old(rooms) ==> reply == CodeTaken
      ensures reply != Created ==> rooms == old(rooms) && memberOf == old(memberOf)
      ensures reply == Created <==> |old(RoomsOf(c))| <= 1 && code !in old(rooms)
      ensures reply == Created ==>
        code in rooms && fresh(rooms[code]) && rooms == old(rooms)[code := rooms[code]] &&
        rooms[code].player1 == Some(c) && rooms[code].player2 == None &&
        rooms[code].gameState == Waiting && rooms[code].turn == 0 &&
        rooms[code].board == seq(BoardSize, _ => Blank) &&
        memberOf == old(memberOf)[c := Enter(old(RoomsOf(c)), code)]
    {
      if |RoomsOf(c)| > 1 {
        return AlreadyInRoom;
      }
      if code in rooms {
        return CodeTaken;
      }
      // The room is listed after its creator is seated rather than before,
      // which no other handler can observe.
      var room := new Room(code);
      var seat := room.Join(c);
      List(room);
      Enroll(c, code);
      reply := Created;
    }

    /** `rooms.set(code, room)` for a new room whose creator is seated. */
    method List(room: Room)
      requires Valid() && room.Valid() && room.player1.Some? && room.roomcode !in rooms
      modifies `rooms, `seats
      ensures Valid()
      ensures rooms == old(rooms)[room.roomcode := room]
    {
      ConsistentSeatMore(memberOf, seats, room.roomcode, Seats(room.player1, room.player2));
      rooms := rooms[room.roomcode := room];
      seats := seats[room.roomcode := Seats(room.player1, room.player2)];
    }

    /**
     * `socketJoin` on a listed room, whose seat 1 is always taken: the caller
     * gets seat 2 if it is free.
     */
    method TakeSeat(room: Room, c: ConnId) returns (seat: int)
      requires Valid() && room.roomcode in rooms && rooms[room.roomcode] == room
      modifies room, `seats
      ensures Valid()
      ensures old(room.player2).Some? ==> seat == 0 && unchanged(room)
      ensures old(room.player2).None? ==>
        seat == 2 && room.player2 == Some(c) && room.player1 == old(room.player1) &&
        room.board == old(room.board) && room.turn == old(room.turn) && room.gameState == old(room.gameState)
    {
      assert RoomsValid();
      seat := room.Join(c);
      if seat != 0 {
        ConsistentSeatMore(memberOf, seats, room.roomcode, Seats(room.player1, room.player2));
        seats := seats[room.roomcode := Seats(room.player1, room.player2)];
      }
    }

    /** `socket.join(roomcode)` for a connection that has just taken a seat in that room. */
    method Enroll(c: ConnId, code: RoomCode)
      requires Valid()
      requires code in seats && seats[code].Holds(c)
      modifies `memberOf
      ensures Valid()
      ensures memberOf == old(memberOf)[c := Enter(old(RoomsOf(c)), code)]
    {
      ConsistentEnter(memberOf, seats, c, code);
      memberOf := memberOf[c := Enter(RoomsOf(c), code)];
    }

    /** Assigns the game state of a listed room, as the handlers do directly. */
    method SetState(room: Room, state: GameState)
      requires Valid()
      modifies room
      ensures Valid()
      ensures room.gameState == state
      ensures room.board == old(room.board) && room.turn == old(room.turn)
      ensures room.player1 == old(room.player1) && room.player2 == old(room.player2)
    {
      room.gameState := state;
    }

    /** The check at the end of `joinroom`: a waiting room whose two seats are taken starts playing. */
    method StartIfFull(room: Room)
      requires Valid()
      modifies room
      ensures Valid()
      ensures room.board == old(room.board) && room.turn == old(room.turn)
      ensures room.player1 == old(room.player1) && room.player2 == old(room.player2)
      ensures room.gameState ==
        if room.player1.Some? && room.player2.Some? && old(room.gameState) == Waiting then Playing else old(room.gameState)
    {
      if room.Player1Connected() && room.Player2Connected() && room.gameState == Waiting {
        SetState(room, Playing);
      }
    }

    /** The rooms `joinroom` with this code may change: the one listed under it, if any. */
    function JoinTarget(code: RoomCode): set<Room>
      reads this
    {
      if code in rooms then {rooms[code]} else {}
    }

    /**
     * `joinroom`: refused when no room has the code, or when both seats are
     * taken, with nothing changed. Otherwise the caller takes the first free
     * seat and enters the socket.io room; a waiting room whose seats are
     * now both taken starts playing. The caller is not asked whether it is
     * already in a room, nor whether it already sits in this one.
     */
    method JoinRoom(c: ConnId, code: RoomCode) returns (reply: Reply)
      requires Valid()
      modifies this, JoinTarget(code)
      ensures Valid()
      ensures rooms == old(rooms)
      ensures reply == NotFound <==> code !in rooms
      ensures reply == RoomFull <==> code in rooms && old(rooms[code].player2).Some?
      ensures reply in {NotFound, RoomFull, Joined}
      ensures reply != Joined ==> memberOf == old(memberOf) && (code in rooms ==> unchanged(rooms[code]))
      ensures reply == Joined ==> memberOf == old(memberOf)[c := Enter(old(RoomsOf(c)), code)]
      ensures reply == Joined ==>
        var room := rooms[code];
        room.player1 == old(room.player1) && room.player2 == Some(c) &&
        room.board == old(room.board) && room.turn == old(room.turn) &&
        room.gameState == (if old(room.gameState) == Waiting then Playing else old(room.gameState))
      ensures code in rooms && rooms[code].gameState != old(rooms[code].gameState) ==>
        old(rooms[code].gameState) == Waiting && rooms[code].gameState == Playing &&
        rooms[code].player1.Some? && rooms[code].player2.Some?
    {
      if code !in rooms {
        return NotFound;
      }
      var room := rooms[code];
      ghost var entered := Enter(RoomsOf(c), code);
      var seat := TakeSeat(room, c);
      if seat == 0 {
        return RoomFull;
      }
      ghost var (p1, board, turn, state) := (room.player1, room.board, room.turn, room.gameState);
      Enroll(c, code);
      assert memberOf == old(memberOf)[c := entered];
      StartIfFull(room);
      assert room.player1 == p1 && room.player2 == Some(c) && room.board == board && room.turn == turn;
      reply := Joined;
    }

    /**
     * The code a `move` from `c` acts on: the first of its room set other
     * than its own id, unless there is none or it is the empty string, which
     * the source's truthiness test rejects as well.
     */
    function MoveCode(c: ConnId): (r: Option<RoomCode>)
      reads this
      ensures r.Some? <==> FirstRoom(RoomsOf(c), c).Some? && FirstRoom(RoomsOf(c), c).value != ""
      ensures r.Some? ==> r.value in RoomsOf(c) && r.value != c && r.value != ""
      ensures r.Some? ==> r == FirstRoom(RoomsOf(c), c)
    {
      var first := FirstRoom(RoomsOf(c), c);
      if first.Some? && first.value != "" then first else None
    }

    /** The rooms a `move` from `c` may change: the one it acts on, if listed. */
    function MoveTarget(c: ConnId): set<Room>
      reads this
    {
      var code := MoveCode(c);
      if code.Some? && code.value in rooms then {rooms[code.value]} else {}
    }

    /**
     * `move`: the caller's first room other than its own id is looked up and
     * the move is played there (see Room.MadeMove); when there is no such
     * code, or it is the empty string, the caller is told it is in no room.
     * Since a room set names only listed rooms the caller sits in, the lookup
     * never fails on a missing room, and neither the membership check nor
     * the caller's identification can fail.
     */
    method Move(c: ConnId, location: int) returns (reply: Outcome<Reply>)
      requires Valid()
      modifies MoveTarget(c)
      ensures Valid()
      ensures reply == Returns(NotInRoom) <==> MoveCode(c) == None
      ensures MoveCode(c).Some? ==>
        var code := MoveCode(c).value;
        code in rooms && var room := rooms[code];
        old(room.SocketTeam(c)) in {Returns(1), Returns(2)} &&
        reply == Returns(Moved(MoveVerdict(old(room.SocketTeam(c)).value, old(room.turn), old(room.board), location))) &&
        (reply == Returns(Moved(Accepted)) ==>
          0 <= location < BoardSize && room.board == old(room.board)[location := old(TeamTurn(room.turn))] &&
          room.turn == old(room.turn) + 1) &&
        (reply != Returns(Moved(Accepted)) ==> room.board == old(room.board) && room.turn == old(room.turn)) &&
        room.gameState == old(room.gameState) &&
        room.player1 == old(room.player1) && room.player2 == old(room.player2)
    {
      var first := FirstRoom(RoomsOf(c), c);
      if first == None || first.value == "" {
        return Returns(NotInRoom);
      }
      var code := first.value;
      if code !in rooms {
        return Returns(NoSuchRoom);
      }
      var status := rooms[code].MadeMove(c, location);
      if status == Throws {
        return Throws;
      }
      reply := Returns(Moved(status.value));
    }

    /** `rooms.delete(roomcode)` on the room set of connection `p`. */
    method DeleteCode(p: ConnId, code: RoomCode)
      requires Valid()
      modifies `memberOf
      ensures Valid()
      ensures memberOf == old(memberOf)[p := Leave(old(RoomsOf(p)), code)]
    {
      ConsistentLeave(memberOf, seats, p, code);
      memberOf := memberOf[p := Leave(RoomsOf(p), code)];
    }

    /**
     * `removePlayers`: the code is deleted from the room set of seat 1's
     * occupant and then seat 2's. When seat 2 was never filled, reading it
     * throws after the first deletion.
     */
    method RemovePlayers(room: Room) returns (r: Outcome<()>)
      requires Valid() && room.roomcode in rooms && rooms[room.roomcode] == room
      modifies `memberOf
      ensures Valid()
      ensures r == Throws <==> room.player2 == None
      ensures var p1 := room.player1.value;
        var m1 := old(memberOf)[p1 := Leave(SetOf(old(memberOf), p1), room.roomcode)];
        memberOf == if r == Throws then m1 else m1[room.player2.value := Leave(SetOf(m1, room.player2.value), room.roomcode)]
    {
      assert RoomsValid();
      DeleteCode(room.player1.value, room.roomcode);
      if room.player2 == None {
        return Throws;
      }
      DeleteCode(room.player2.value, room.roomcode);
      r := Returns(());
    }

    /** `rooms.delete(code)` once no room set names the room. */
    method Unlist(code: RoomCode)
      requires Valid() && code in rooms
      requires forall p :: seats[code].Holds(p) ==> code !in RoomsOf(p) || code == p
      modifies `rooms, `seats
      ensures Valid()
      ensures rooms == old(rooms) - {code} && seats == old(seats) - {code}
    {
      ConsistentUnlist(memberOf, seats, code);
      rooms := rooms - {code};
      seats := seats - {code};
    }

    /**
     * One pass of the `disconnecting` loop over a listed room: it is marked
     * disconnected, its players are removed and, unless that throws, it is
     * unlisted.
     */
    method TearDown(room: Room) returns (r: Outcome<()>)
      requires Valid() && room.roomcode in rooms && rooms[room.roomcode] == room
      modifies `rooms, `memberOf, `seats, room`gameState
      ensures Valid()
      ensures room.gameState == Disconnect
      ensures r == Throws <==> room.player2 == None
      ensures rooms == if r == Throws then old(rooms) else old(rooms) - {room.roomcode}
      ensures seats == if r == Throws then old(seats) else old(seats) - {room.roomcode}
      ensures var p1 := room.player1.value;
        var m1 := old(memberOf)[p1 := Leave(SetOf(old(memberOf), p1), room.roomcode)];
        memberOf == if r == Throws then m1 else m1[room.player2.value := Leave(SetOf(m1, room.player2.value), room.roomcode)]
    {
      room.gameState := Disconnect;
      r := RemovePlayers(room);
      if r == Throws {
        return;
      }
      Unlist(room.roomcode);
    }

    /**
     * The state of the `disconnecting` loop over the room set `codes` of
     * connection `c` once it has visited the first `i` codes without throwing
     * and torn down the rooms `closed`; `start` is the state the handler began in.
     */
    ghost predicate Progress(c: ConnId, codes: seq<RoomCode>, i: nat, closed: set<RoomCode>, start: Start)
      reads this, rooms.Values, start.rooms.Values
    {
      Valid() && Visited(c, codes, i, closed, start, rooms, seats, memberOf) &&
      forall k :: k in start.rooms ==> start.rooms[k].gameState == if k in closed then Disconnect else start.states[k]
    }

    /**
     * One pass of the `disconnecting` loop: the `i`th code is skipped when it
     * is the connection's own id or not listed, and its room is torn down
     * otherwise. `stop` reports that the teardown threw.
     */
    method Visit(c: ConnId, codes: seq<RoomCode>, i: nat, ghost closed: set<RoomCode>, ghost start: Start)
      returns (stop: bool, ghost closed': set<RoomCode>)
      requires i < |codes| && Progress(c, codes, i, closed, start)
      modifies `rooms, `memberOf, `seats, start.rooms.Values`gameState
      ensures !stop ==> Progress(c, codes, i + 1, closed', start)
      ensures stop ==>
        Stop(codes, 0, c, start.rooms.Keys, start.seating) == i && Valid() && rooms == start.rooms - closed &&
        forall k :: k in start.rooms ==>
          start.rooms[k].gameState == if k in closed || k == codes[i] then Disconnect else start.states[k]
    {
      var k := codes[i];
      if k != c && k in rooms {
        stop, closed' := Close(c, codes, i, closed, start);
      } else {
        VisitedSkip(c, codes, i, closed, start, rooms, seats, memberOf);
        stop, closed' := false, closed;
      }
    }

    /**
     * TearDown on a room listed when `disconnecting` began: it is marked
     * disconnected beside the rooms `closed` already marked (stated in the
     * two forms the loop's state and its stopping condition use).
     */
    method Retire(room: Room, ghost closed: set<RoomCode>, ghost start: Start) returns (r: Outcome<()>)
      requires Valid() && room.roomcode in rooms && rooms[room.roomcode] == room
      requires start.Wellformed() && room.roomcode in start.rooms && start.rooms[room.roomcode] == room
      requires forall k :: k in start.rooms ==> start.rooms[k].gameState == if k in closed then Disconnect else start.states[k]
      modifies `rooms, `memberOf, `seats, start.rooms.Values`gameState
      ensures Valid()
      ensures r == Throws <==> room.player2 == None
      ensures rooms == if r == Throws then old(rooms) else old(rooms) - {room.roomcode}
      ensures seats == if r == Throws then old(seats) else old(seats) - {room.roomcode}
      ensures var p1 := room.player1.value;
        var m1 := old(memberOf)[p1 := Leave(SetOf(old(memberOf), p1), room.roomcode)];
        memberOf == if r == Throws then m1 else m1[room.player2.value := Leave(SetOf(m1, room.player2.value), room.roomcode)]
      ensures forall k :: k in start.rooms ==>
        start.rooms[k].gameState == if k in closed + {room.roomcode} then Disconnect else start.states[k]
      ensures forall k :: k in start.rooms ==>
        start.rooms[k].gameState == if k in closed || k == room.roomcode then Disconnect else start.states[k]
    {
      r := TearDown(room);
      forall k | k in start.rooms
        ensures start.rooms[k].gameState == if k in closed + {room.roomcode} then Disconnect else start.states[k]
      {
        if k != room.roomcode {
          assert start.rooms[k] != room;
        }
      }
    }

    /** The pass of the `disconnecting` loop that tears down the `i`th room. */
    method Close(c: ConnId, codes: seq<RoomCode>, i: nat, ghost closed: set<RoomCode>, ghost start: Start)
      returns (stop: bool, ghost closed': set<RoomCode>)
      requires i < |codes| && Progress(c, codes, i, closed, start)
      requires codes[i] != c && codes[i] in rooms
      modifies `rooms, `memberOf, `seats, start.rooms.Values`gameState
      ensures !stop ==> Progress(c, codes, i + 1, closed', start)
      ensures stop ==>
        Stop(codes, 0, c, start.rooms.Keys, start.seating) == i && Valid() && rooms == start.rooms - closed &&
        forall k :: k in start.rooms ==>
          start.rooms[k].gameState == if k in closed || k == codes[i] then Disconnect else start.states[k]
    {
      var k := codes[i];
      var room := rooms[k];
      assert RoomsValid();
      assert room == start.rooms[k] && room.roomcode == k;
      ghost var (rooms0, seats0, memberOf0) := (rooms, seats, memberOf);
      var removed := Retire(room, closed, start);
      if removed == Throws {
        VisitedStop(c, codes, i, closed, start, rooms0, seats0, memberOf0);
        return true, closed;
      }
      VisitedClose(c, codes, i, closed, start, rooms0, seats0, memberOf0, room.player1.value, room.player2.value);
      closed' := closed + {k};
      stop := false;
    }

    /**
     * `disconnecting`: every listed room in the connection's room set, apart
     * from its own id, is marked disconnected, its code is deleted from both
     * occupants' room sets and it is unlisted. Tearing down a room whose seat 2
     * was never filled throws after the code has been deleted from seat 1's
     * occupant's room set, leaving that room listed; the handler then stops.
     */
    method Disconnecting(c: ConnId) returns (r: Outcome<()>)
      requires Valid()
      modifies `rooms, `memberOf, `seats, rooms.Values`gameState
      ensures Valid()
      ensures var codes := old(RoomsOf(c));
        var n := Stop(codes, 0, c, old(rooms).Keys, old(seats));
        var closed := Closing(codes, n, c, old(rooms).Keys);
        (r.Returns? <==> n == |codes|) &&
        rooms == old(rooms) - closed &&
        (forall k :: k in old(rooms) ==>
          old(rooms)[k].gameState == if k in closed || (n < |codes| && k == codes[n]) then Disconnect else old(rooms[k].gameState)) &&
        (r.Returns? ==> TornDown(old(memberOf), memberOf, closed, old(seats)))
      ensures r.Returns? ==> forall k :: k in RoomsOf(c) ==> k == c
    {
      // removePlayers deletes only the code being visited from the set being
      // iterated, which a JavaScript Set iterator tolerates: visiting a copy
      // of the set taken at the start visits the same codes.
      var codes := RoomsOf(c);
      ghost var start := Start(rooms, map k | k in rooms :: rooms[k].gameState, memberOf, seats);
      ghost var closed: set<RoomCode> := {};
      TornDownNothing(memberOf, start.seating);
      var i := 0;
      while i < |codes|
        invariant i <= |codes| && Progress(c, codes, i, closed, start)
      {
        var stop;
        stop, closed := Visit(c, codes, i, closed, start);
        if stop {
          return Throws;
        }
        i := i + 1;
      }
      TornDownAlone(start.memberOf, memberOf, c, start.seating);
      r := Returns(());
    }
  }
}
