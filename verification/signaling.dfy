/** The call-room signalling registry of app/api/signaling/route.js.

    Two process-wide maps hold the state: `connections` (user -> the room, role and
    time of their last join) and `rooms` (room -> the set of its members).  GET joins a
    room, POST computes the fan-out list of a signal, DELETE leaves the recorded room.
    The functions JoinOutcome, SignalResponse and LeaveOutcome specify the three handlers
    on a snapshot of the two maps; class Registry holds the maps and implements the
    handlers by updating them in place. */
module Signaling {
  import opened Wrappers
  import opened Seqs

  type UserId = string
  type RoomId = string

  /** The value stored in `connections`; the timestamp is `Date.now()` at join time. */
  datatype Connection = Connection(roomId: RoomId, userRole: string, timestamp: nat)

  /** A snapshot of both maps.  A room's member Set is a sequence in insertion order,
      which is the order `Array.from` lists it in. */
  datatype RegistryState = RegistryState(connections: map<UserId, Connection>, rooms: map<RoomId, seq<UserId>>)

  /** The `roomId` and `type` read from a POST body that parsed to a non-null value; a
      property that is missing, or a body that is not an object (a number, string,
      boolean or array), gives None. */
  datatype SignalBody = SignalBody(roomId: Option<string>, signalType: Option<string>)

  /** What a handler answers. */
  datatype Response =
    | Unauthorized
    | BadRequest(error: string)
    | InternalError
    | Joined(roomId: RoomId, userRole: string, participants: nat)
    | Signalled(signalType: string, recipients: seq<UserId>)
    | Disconnected

  /** The new snapshot together with the answer. */
  datatype Outcome = Outcome(next: RegistryState, response: Response)

  const MissingJoinField := "Missing roomId or userRole"
  const MissingSignalField := "Missing roomId or type"

  /** The HTTP status each answer is sent with. */
  function Status(r: Response): (code: nat)
    ensures code == 401 <==> r.Unauthorized?
    ensures code == 400 <==> r.BadRequest?
    ensures code == 200 <==> (r.Joined? || r.Signalled? || r.Disconnected?)
    ensures code == 500 <==> r.InternalError?
  {
    match r
    case Unauthorized => 401
    case BadRequest(_) => 400
    case InternalError => 500
    case _ => 200
  }

  /** `set.add(u)`: appends `u` unless it is already a member. */
  function AddMember(members: seq<UserId>, u: UserId): (r: seq<UserId>)
    ensures forall v :: v in r <==> v == u || v in members
    ensures NoDup(members) ==> NoDup(r)
    ensures |r| == if u in members then |members| else |members| + 1
    ensures r[..|members|] == members
  {
    if u in members then members
    else
      NoDupSnoc(members, u);
      members + [u]
  }

  /** The test `id !== u`. */
  function IsNot(u: UserId): UserId -> bool
  {
    v => v != u
  }

  /** The members other than `u`, in room order.  This is both what `set.delete(u)`
      leaves of a member Set and what `Array.from(set).filter(id => id !== u)` lists. */
  function Without(members: seq<UserId>, u: UserId): (r: seq<UserId>)
    ensures forall v :: v in r <==> v in members && v != u
    ensures IsSubsequence(r, members)
    ensures NoDup(members) ==> NoDup(r)
  {
    FilterNoDup(members, IsNot(u));
    Filter(members, IsNot(u))
  }

  /** `rooms.get(roomId) || new Set()`. */
  function MembersOf(s: RegistryState, room: RoomId): seq<UserId>
  {
    if room in s.rooms then s.rooms[room] else []
  }

  /** Handler GET (join): check identity, then both query parameters, then record the
      connection (overwriting any earlier one) and add the caller to the room. */
  function JoinOutcome(s: RegistryState, caller: Option<UserId>, roomId: Option<string>,
                       userRole: Option<string>, now: nat): (o: Outcome)
    ensures !IsTruthy(caller) ==> o == Outcome(s, Unauthorized)
    ensures IsTruthy(caller) && !(IsTruthy(roomId) && IsTruthy(userRole)) ==>
              o == Outcome(s, BadRequest(MissingJoinField))
    ensures IsTruthy(caller) && IsTruthy(roomId) && IsTruthy(userRole) ==>
              var u, r := caller.value, roomId.value;
              && o.next.connections == s.connections[u := Connection(r, userRole.value, now)]
              && o.next.rooms.Keys == s.rooms.Keys + {r}
              && (forall v :: v in o.next.rooms[r] <==> v == u || v in MembersOf(s, r))
              && (forall q :: q in s.rooms && q != r ==> o.next.rooms[q] == s.rooms[q])
              && o.response == Joined(r, userRole.value, |o.next.rooms[r]|)
              && o.response.participants == if u in MembersOf(s, r) then |MembersOf(s, r)| else |MembersOf(s, r)| + 1
  {
    if !IsTruthy(caller) then Outcome(s, Unauthorized)
    else if !IsTruthy(roomId) || !IsTruthy(userRole) then Outcome(s, BadRequest(MissingJoinField))
    else
      var u, r := caller.value, roomId.value;
      var connections := s.connections[u := Connection(r, userRole.value, now)];
      var rooms := s.rooms[r := AddMember(MembersOf(s, r), u)];
      Outcome(RegistryState(connections, rooms), Joined(r, userRole.value, |rooms[r]|))
  }

  /** Handler POST (signal): check identity, the body, then both fields, and list the
      other members of the room.  The payload is only logged; nothing is changed.
      A body that is not valid JSON makes `request.json()` throw, and a `null` body makes
      the destructuring throw; both are `body == None`, which the handler answers with
      500. */
  function SignalResponse(s: RegistryState, caller: Option<UserId>, body: Option<SignalBody>): (r: Response)
    ensures !IsTruthy(caller) ==> r == Unauthorized
    ensures IsTruthy(caller) && body.None? ==> r == InternalError
    ensures IsTruthy(caller) && body.Some? && !(IsTruthy(body.value.roomId) && IsTruthy(body.value.signalType)) ==>
              r == BadRequest(MissingSignalField)
    ensures IsTruthy(caller) && body.Some? && IsTruthy(body.value.roomId) && IsTruthy(body.value.signalType) ==>
              var room := body.value.roomId.value;
              && r.Signalled? && r.signalType == body.value.signalType.value
              && (forall v :: v in r.recipients <==> room in s.rooms && v in s.rooms[room] && v != caller.value)
              && IsSubsequence(r.recipients, MembersOf(s, room))
  {
    if !IsTruthy(caller) then Unauthorized
    else match body
      case None => InternalError
      case Some(b) =>
        if !IsTruthy(b.roomId) || !IsTruthy(b.signalType) then BadRequest(MissingSignalField)
        else Signalled(b.signalType.value, Without(MembersOf(s, b.roomId.value), caller.value))
  }

  /** The rooms map after `u` leaves `room`: the room loses `u` and is dropped once empty. */
  function RoomsAfterLeave(rooms: map<RoomId, seq<UserId>>, room: RoomId, u: UserId): (r: map<RoomId, seq<UserId>>)
    ensures room in r <==> room in rooms && exists v :: v in rooms[room] && v != u
    ensures forall q :: q in rooms && q != room ==> q in r && r[q] == rooms[q]
    ensures r.Keys <= rooms.Keys
    ensures room in r ==> r[room] == Without(rooms[room], u)
  {
    if room !in rooms then rooms
    else
      var rest := Without(rooms[room], u);
      if |rest| == 0 then rooms - {room}
      else
        assert rest[0] in rest;
        rooms[room := rest]
  }

  /** Handler DELETE (leave): check identity; if the caller has a connection, remove them
      from its room (dropping the room once empty) and forget the connection.  It
      answers success whether or not there was a connection. */
  function LeaveOutcome(s: RegistryState, caller: Option<UserId>): (o: Outcome)
    ensures !IsTruthy(caller) ==> o == Outcome(s, Unauthorized)
    ensures IsTruthy(caller) ==> o.response == Disconnected
    ensures IsTruthy(caller) && caller.value !in s.connections ==> o.next == s
    ensures IsTruthy(caller) && caller.value in s.connections ==>
              var u, r := caller.value, s.connections[caller.value].roomId;
              && o.next.connections.Keys == s.connections.Keys - {u}
              && (forall v :: v in o.next.connections ==> o.next.connections[v] == s.connections[v])
              && (r in o.next.rooms <==> exists v :: v in MembersOf(s, r) && v != u)
              && (r in o.next.rooms ==> forall v :: v in o.next.rooms[r] <==> v in s.rooms[r] && v != u)
              && o.next.rooms.Keys <= s.rooms.Keys
              && (forall q :: q in s.rooms && q != r ==> q in o.next.rooms && o.next.rooms[q] == s.rooms[q])
  {
    if !IsTruthy(caller) then Outcome(s, Unauthorized)
    else
      var u := caller.value;
      if u !in s.connections then Outcome(s, Disconnected)
      else
        var r := s.connections[u].roomId;
        Outcome(RegistryState(s.connections - {u}, RoomsAfterLeave(s.rooms, r, u)), Disconnected)
  }

  // ---------------------------------------------------------------------------
  // The registry's invariants

  /** No room is stored with an empty member set. */
  ghost predicate NoEmptyRoom(s: RegistryState)
  {
    forall r :: r in s.rooms ==> s.rooms[r] != []
  }

  /** A room's member sequence models a Set: no user is listed twice. */
  ghost predicate MembersDistinct(s: RegistryState)
  {
    forall r :: r in s.rooms ==> NoDup(s.rooms[r])
  }

  /** Every connected user is a member of the room recorded for them. */
  ghost predicate ConnectedAreMembers(s: RegistryState)
  {
    forall u :: u in s.connections ==> s.connections[u].roomId in s.rooms && u in s.rooms[s.connections[u].roomId]
  }

  ghost predicate Inv(s: RegistryState)
  {
    NoEmptyRoom(s) && MembersDistinct(s) && ConnectedAreMembers(s)
  }

  /** The empty registry the module starts with satisfies the invariant. */
  lemma EmptyRegistryInv()
    ensures Inv(RegistryState(map[], map[]))
  {
  }

  /** Join keeps all three invariants. */
  lemma JoinKeepsInv(s: RegistryState, caller: Option<UserId>, roomId: Option<string>, userRole: Option<string>, now: nat)
    requires Inv(s)
    ensures Inv(JoinOutcome(s, caller, roomId, userRole, now).next)
  {
    var o := JoinOutcome(s, caller, roomId, userRole, now);
    if IsTruthy(caller) && IsTruthy(roomId) && IsTruthy(userRole) {
      var u, r := caller.value, roomId.value;
      var t := o.next;
      assert u in t.rooms[r];
      forall q | q in t.rooms ensures t.rooms[q] != [] && NoDup(t.rooms[q]) {
        if q == r {
          assert t.rooms[r] == AddMember(MembersOf(s, r), u);
        }
      }
      forall v | v in t.connections
        ensures t.connections[v].roomId in t.rooms && v in t.rooms[t.connections[v].roomId]
      {
        if v != u {
          var q := s.connections[v].roomId;
          assert t.connections[v] == s.connections[v];
          if q == r { assert v in MembersOf(s, r); }
        }
      }
    }
  }

  /** Leave keeps all three invariants. */
  lemma LeaveKeepsInv(s: RegistryState, caller: Option<UserId>)
    requires Inv(s)
    ensures Inv(LeaveOutcome(s, caller).next)
  {
    var o := LeaveOutcome(s, caller);
    if IsTruthy(caller) && caller.value in s.connections {
      var u := caller.value;
      var r := s.connections[u].roomId;
      var t := o.next;
      forall q | q in t.rooms ensures t.rooms[q] != [] && NoDup(t.rooms[q]) {
        if q == r {
          assert t.rooms[r] == Without(s.rooms[r], u);
        } else {
          assert t.rooms[q] == s.rooms[q];
        }
      }
      forall v | v in t.connections
        ensures t.connections[v].roomId in t.rooms && v in t.rooms[t.connections[v].roomId]
      {
        var q := s.connections[v].roomId;
        assert v != u && t.connections[v] == s.connections[v];
        if q == r {
          assert v in s.rooms[r] && v in MembersOf(s, r);
        } else {
          assert q in s.rooms;
        }
      }
    }
  }

  // ---------------------------------------------------------------------------
  // Properties of the handlers

  /** The `participants` figure of a join is the number of distinct members of the room. */
  lemma JoinCountsDistinctMembers(s: RegistryState, u: UserId, room: string, role: string, now: nat)
    requires Inv(s) && u != "" && room != "" && role != ""
    ensures var o := JoinOutcome(s, Some(u), Some(room), Some(role), now);
            o.response.participants == |Elems(o.next.rooms[room])|
  {
    JoinKeepsInv(s, Some(u), Some(room), Some(role), now);
    DistinctCount(JoinOutcome(s, Some(u), Some(room), Some(role), now).next.rooms[room]);
  }

  /** Joining the same room again leaves the member set and the participant count as they
      were; only the connection entry (role, timestamp) is rewritten. */
  lemma {:induction false} RepeatedJoinKeepsCount(s: RegistryState, u: UserId, room: string, role1: string, role2: string, t1: nat, t2: nat)
    requires u != "" && room != "" && role1 != "" && role2 != ""
    ensures var o1 := JoinOutcome(s, Some(u), Some(room), Some(role1), t1);
            var o2 := JoinOutcome(o1.next, Some(u), Some(room), Some(role2), t2);
            && o2.next.rooms == o1.next.rooms
            && o2.response.participants == o1.response.participants
  {
    var o1 := JoinOutcome(s, Some(u), Some(room), Some(role1), t1);
    assert u in MembersOf(o1.next, room);
    assert AddMember(MembersOf(o1.next, room), u) == o1.next.rooms[room];
  }

  /** The fan-out list never contains the caller, lists no one twice, and has exactly one
      entry fewer than the room when the caller is a member. */
  lemma SignalRecipients(s: RegistryState, u: UserId, body: SignalBody)
    requires Inv(s) && u != "" && IsTruthy(body.roomId) && IsTruthy(body.signalType)
    ensures var r := SignalResponse(s, Some(u), Some(body));
            var members := MembersOf(s, body.roomId.value);
            && u !in r.recipients
            && NoDup(r.recipients)
            && |r.recipients| == if u in members then |members| - 1 else |members|
  {
    var members := MembersOf(s, body.roomId.value);
    var r := SignalResponse(s, Some(u), Some(body));
    assert NoDup(members);
    assert r.recipients == Without(members, u);
    DistinctCount(members);
    DistinctCount(r.recipients);
    if u in members {
      assert Elems(r.recipients) == Elems(members) - {u};
    } else {
      assert Elems(r.recipients) == Elems(members);
    }
  }

  /** A second leave by the same user answers the same and changes nothing more. */
  lemma LeaveIsIdempotent(s: RegistryState, caller: Option<UserId>)
    ensures var o1 := LeaveOutcome(s, caller);
            LeaveOutcome(o1.next, caller) == Outcome(o1.next, o1.response)
  {
  }

  /** As written, joining another room without leaving first keeps the user in the old
      room's member set, and that membership survives the later leave: the old room still
      lists a user that has no connection. */
  lemma RejoinLeavesStaleMembership(s: RegistryState, u: UserId, a: RoomId, b: RoomId, role: string, t1: nat, t2: nat)
    requires u != "" && a != "" && b != "" && role != "" && a != b
    ensures var s1 := JoinOutcome(s, Some(u), Some(a), Some(role), t1).next;
            var s2 := JoinOutcome(s1, Some(u), Some(b), Some(role), t2).next;
            var s3 := LeaveOutcome(s2, Some(u)).next;
            && s2.connections[u].roomId == b && u in s2.rooms[a] && u in s2.rooms[b]
            && u !in s3.connections && a in s3.rooms && u in s3.rooms[a]
  {
  }

  // A session of two users in one room, step by step: the room's count goes 1, 2, the
  // signal reaches exactly the other user, the first leave leaves the other user alone in
  // the room, and the last leave empties the registry.
  const P1Conn := Connection("roomA", "host", 1)
  const P2Conn := Connection("roomA", "guest", 2)
  const Empty := RegistryState(map[], map[])
  const P1Alone := RegistryState(map["p1" := P1Conn], map["roomA" := ["p1"]])
  const BothIn := RegistryState(map["p1" := P1Conn, "p2" := P2Conn], map["roomA" := ["p1", "p2"]])

  lemma SessionFirstJoin()
    ensures JoinOutcome(Empty, Some("p1"), Some("roomA"), Some("host"), 1) == Outcome(P1Alone, Joined("roomA", "host", 1))
  {
    assert MembersOf(Empty, "roomA") == [] && AddMember([], "p1") == ["p1"];
    assert Empty.rooms["roomA" := ["p1"]] == P1Alone.rooms;
    assert Empty.connections["p1" := P1Conn] == P1Alone.connections;
  }

  lemma SessionSecondJoin()
    ensures JoinOutcome(P1Alone, Some("p2"), Some("roomA"), Some("guest"), 2) == Outcome(BothIn, Joined("roomA", "guest", 2))
  {
    assert "p1" != "p2";
    assert AddMember(["p1"], "p2") == ["p1", "p2"];
    assert P1Alone.rooms["roomA" := ["p1", "p2"]] == BothIn.rooms;
    assert P1Alone.connections["p2" := P2Conn] == BothIn.connections;
  }

  lemma SessionSignal()
    ensures SignalResponse(BothIn, Some("p1"), Some(SignalBody(Some("roomA"), Some("offer")))) == Signalled("offer", ["p2"])
  {
    assert "p1" != "p2";
    assert ["p1", "p2"][1..] == ["p2"];
    assert Without(["p1", "p2"], "p1") == ["p2"];
  }

  lemma SessionSecondLeaves()
    ensures LeaveOutcome(BothIn, Some("p2")) == Outcome(P1Alone, Disconnected)
  {
    assert "p1" != "p2";
    assert ["p1", "p2"][1..] == ["p2"];
    assert Without(["p1", "p2"], "p2") == ["p1"];
    assert BothIn.rooms["roomA" := ["p1"]] == P1Alone.rooms;
    assert BothIn.connections - {"p2"} == P1Alone.connections;
  }

  lemma SessionFirstLeaves()
    ensures LeaveOutcome(P1Alone, Some("p1")) == Outcome(Empty, Disconnected)
  {
    assert Without(["p1"], "p1") == [];
    assert P1Alone.rooms - {"roomA"} == Empty.rooms;
    assert P1Alone.connections - {"p1"} == Empty.connections;
  }

  // ---------------------------------------------------------------------------
  // The registry object

  /** The two module-level Maps of the route, updated in place by the handlers. */
  class Registry {
    var connections: map<UserId, Connection>
    var rooms: map<RoomId, seq<UserId>>

    function State(): RegistryState
      reads this
    {
      RegistryState(connections, rooms)
    }

    ghost predicate Valid()
      reads this
    {
      Inv(State())
    }

    /** Both maps start empty when the module is loaded. */
    constructor ()
      ensures Valid()
      ensures connections == map[] && rooms == map[]
    {
      connections := map[];
      rooms := map[];
    }

    /** GET: join `roomId` with `userRole`; `now` stands for `Date.now()`. */
    method Join(caller: Option<UserId>, roomId: Option<string>, userRole: Option<string>, now: nat)
      returns (response: Response)
      requires Valid()
      modifies this
      ensures Valid()
      ensures Outcome(State(), response) == JoinOutcome(old(State()), caller, roomId, userRole, now)
    {
      JoinKeepsInv(State(), caller, roomId, userRole, now);
      if !IsTruthy(caller) {
        return Unauthorized;
      }
      var u := caller.value;
      if !IsTruthy(roomId) || !IsTruthy(userRole) {
        return BadRequest(MissingJoinField);
      }
      var r := roomId.value;
      ghost var before := rooms;
      connections := connections[u := Connection(r, userRole.value, now)];
      if r !in rooms {
        rooms := rooms[r := []];
      }
      assert rooms[r] == MembersOf(RegistryState(connections, before), r);
      rooms := rooms[r := AddMember(rooms[r], u)];
      assert rooms == before[r := rooms[r]];
      response := Joined(r, userRole.value, |rooms[r]|);
    }

    /** POST: the fan-out list of a signal; the registry is only read. */
    method Signal(caller: Option<UserId>, body: Option<SignalBody>) returns (response: Response)
      ensures response == SignalResponse(State(), caller, body)
      ensures IsTruthy(caller) && response.Signalled? ==> caller.value !in response.recipients
    {
      if !IsTruthy(caller) {
        return Unauthorized;
      }
      var u := caller.value;
      if body.None? {
        return InternalError;
      }
      var b := body.value;
      if !IsTruthy(b.roomId) || !IsTruthy(b.signalType) {
        return BadRequest(MissingSignalField);
      }
      var members := if b.roomId.value in rooms then rooms[b.roomId.value] else [];
      response := Signalled(b.signalType.value, Without(members, u));
    }

    /** DELETE: leave the room recorded for the caller. */
    method Leave(caller: Option<UserId>) returns (response: Response)
      requires Valid()
      modifies this
      ensures Valid()
      ensures Outcome(State(), response) == LeaveOutcome(old(State()), caller)
    {
      LeaveKeepsInv(State(), caller);
      if !IsTruthy(caller) {
        return Unauthorized;
      }
      var u := caller.value;
      if u in connections {
        var r := connections[u].roomId;
        ghost var before := rooms;
        if r in rooms {
          var room := Without(rooms[r], u);
          rooms := rooms[r := room];
          if |room| == 0 {
            rooms := rooms - {r};
            assert rooms == before - {r};
          }
        }
        assert rooms == RoomsAfterLeave(before, r, u);
        connections := connections - {u};
      }
      response := Disconnected;
    }
  }
}
