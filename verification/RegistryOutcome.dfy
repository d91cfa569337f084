/**
 What each room command changes, told from the registry before it: who moves, which rooms come
 and go, and what the room file then holds.
 */
module RegistryOutcome {
  import opened Common
  import opened RoomRecord
  import opened Wal
  import opened Registry

  // What a reader of the room file sees of a live room, and of any other record.
  lemma MirrorSays(s: State, id: RoomId)
    requires Inv(s)
    ensures ReadRoom(s.disk, id) ==
            if id in s.rooms
            then Some(Record(id, s.rooms[id].name, s.rooms[id].password, 1, |s.rooms[id].members|))
            else ReadRoom(s.found, id)
  {
    assert MirroredAt(s, id);
  }

  // ----- going -----------------------------------------------------------------------------------

  // Client `c` is the only participant of this room.
  predicate Alone(s: State, id: RoomId, c: ClientId) {
    id in s.rooms && s.rooms[id].members == [c]
  }

  // The list without its element at place `i`.
  function OneFewer(m: seq<ClientId>, i: nat): seq<ClientId>
    requires i < |m|
  {
    m[..i] + m[i + 1..]
  }

  // Client `c` has gone out of the room it was in, and nothing else has changed: a room it was
  // alone in is gone, and the others keep their participants in order.
  ghost predicate GoneFrom(s: State, s': State, c: ClientId, id: RoomId)
    requires c in s.current
  {
    var there := s.current[c] == Some(id);
    && (id in s'.rooms <==> id in s.rooms && !(there && Alone(s, id, c)))
    && (id in s'.rooms ==>
          && s'.rooms[id].name == s.rooms[id].name && s'.rooms[id].password == s.rooms[id].password
          && (!there ==> s'.rooms[id].members == s.rooms[id].members)
          && (there ==> exists i :: 0 <= i < |s.rooms[id].members| && s.rooms[id].members[i] == c
                          && s'.rooms[id].members == OneFewer(s.rooms[id].members, i)))
  }

  lemma {:induction false} FirstPlace(m: seq<ClientId>, c: ClientId) returns (i: nat)
    requires c in m
    ensures i < |m| && m[i] == c && c !in m[..i]
  {
    if m[0] == c {
      i := 0;
    } else {
      i := FirstPlace(m[1..], c);
      i := i + 1;
      assert m[..i] == [m[0]] + m[1..][..i - 1];
    }
  }

  lemma WithoutIsOneFewer(m: seq<ClientId>, c: ClientId)
    requires c in m
    ensures exists i :: 0 <= i < |m| && m[i] == c && Without(m, c) == OneFewer(m, i)
  {
    var i := FirstPlace(m, c);
    WithoutAt(m, c, i);
  }

  lemma LeaveGoes(s: State, c: ClientId, id: RoomId)
    requires Inv(s) && c in s.current
    ensures Linked(s, c) && GoneFrom(s, Leave(s, c).0, c, id)
  {
    LeaveOutlasts(s, id, c);
    assert ListedAt(s, id, c);
    if id in s.rooms {
      if s.current[c] == Some(id) {
        WithoutIsOneFewer(s.rooms[id].members, c);
      } else {
        WithoutAbsent(s.rooms[id].members, c);
      }
    }
  }

  lemma SameRooms(s: State, c: ClientId)
    requires Inv(s) && c in s.current
    ensures Linked(s, c) && Disconnect(s, c).rooms == Leave(s, c).0.rooms
  {
    assert PointsAtLive(s, c);
  }

  // LEAVE and LOGOUT: the client goes out of its room.
  lemma LeaveOutcome(s: State, c: ClientId, id: RoomId)
    requires Inv(s) && Legal(s, LeaveRoom(c))
    ensures Do(s, LeaveRoom(c)).current == s.current[c := None]
    ensures GoneFrom(s, Do(s, LeaveRoom(c)), c, id)
  {
    LeaveKeeps(s, c);
    LeaveGoes(s, c, id);
  }

  /**
   KICK: the target goes out of the room it shares with the client, which stays.
   */
  lemma KickOutcome(s: State, c: ClientId, target: ClientId, id: RoomId)
    requires Inv(s) && Legal(s, Kick(c, target))
    ensures Do(s, Kick(c, target)).current == s.current[target := None]
    ensures GoneFrom(s, Do(s, Kick(c, target)), target, id)
  {
    LeaveKeeps(s, target);
    LeaveGoes(s, target, id);
  }

  // Disconnection: the client goes out of its room and of the table.
  lemma DropOutcome(s: State, c: ClientId, id: RoomId)
    requires Inv(s) && Legal(s, Drop(c))
    ensures Do(s, Drop(c)).current == s.current - {c}
    ensures GoneFrom(s, Do(s, Drop(c)), c, id)
  {
    DisconnectKeeps(s, c);
    LeaveGoes(s, c, id);
    SameRooms(s, c);
  }

  // ----- coming ----------------------------------------------------------------------------------

  // A new connection: in no room, and nothing else changes.
  lemma ConnectOutcome(s: State, c: ClientId)
    requires Inv(s) && Legal(s, Connect(c))
    ensures Do(s, Connect(c)) == State(s.rooms, s.disk, s.current[c := None], s.found)
  {
  }

  // The room with this name takes the client in.
  predicate Admits(s: State, id: RoomId, password: string, c: ClientId)
    requires c in s.current && id in s.rooms
  {
    && !(s.current[c] == Some(id) && s.rooms[id].members == [c])
    && (s.rooms[id].password == "" || s.rooms[id].password == password)
  }

  /**
   JOIN by name: without a room of that name nothing changes. Otherwise the client ends up in that
   room, last, where the room admits it, and in no room where it does not.
   */
  lemma JoinRoomOutcome(s: State, c: ClientId, name: string, password: string)
    requires Inv(s) && Legal(s, JoinRoom(c, name, password))
    ensures (forall id :: id in s.rooms ==> s.rooms[id].name != name) ==> Do(s, JoinRoom(c, name, password)) == s
    ensures forall id :: id in s.rooms && s.rooms[id].name == name ==>
              Do(s, JoinRoom(c, name, password)).current ==
              s.current[c := if Admits(s, id, password, c) then Some(id) else None]
    ensures forall id :: id in s.rooms && s.rooms[id].name == name && Admits(s, id, password, c) ==>
              && id in Do(s, JoinRoom(c, name, password)).rooms
              && Do(s, JoinRoom(c, name, password)).rooms[id].members == Without(s.rooms[id].members, c) + [c]
  {
    forall id | id in s.rooms && s.rooms[id].name == name
      ensures var s' := Do(s, JoinRoom(c, name, password));
              && s'.current == s.current[c := if Admits(s, id, password, c) then Some(id) else None]
              && (Admits(s, id, password, c) ==>
                    id in s'.rooms && s'.rooms[id].members == Without(s.rooms[id].members, c) + [c])
    {
      NamedIs(s, id);
      JoinOutcome(s, id, password, c);
      JoinKeeps(s, id, password, c);
    }
  }

  // The other rooms see the client go, and so does this one where it does not admit the client.
  lemma JoinLeaves(s: State, c: ClientId, name: string, password: string, id: RoomId, j: RoomId)
    requires Inv(s) && Legal(s, JoinRoom(c, name, password)) && id in s.rooms && s.rooms[id].name == name
    requires j != id || !Admits(s, id, password, c)
    ensures GoneFrom(s, Do(s, JoinRoom(c, name, password)), c, j)
  {
    NamedIs(s, id);
    LeaveGoes(s, c, j);
    JoinOutcome(s, id, password, c);
  }

  // A join changes no room's name or password, and brings none to life.
  lemma JoinKeepsRoom(s: State, c: ClientId, name: string, password: string, j: RoomId)
    requires Inv(s) && Legal(s, JoinRoom(c, name, password)) && j in Do(s, JoinRoom(c, name, password)).rooms
    ensures j in s.rooms
    ensures Do(s, JoinRoom(c, name, password)).rooms[j].name == s.rooms[j].name
    ensures Do(s, JoinRoom(c, name, password)).rooms[j].password == s.rooms[j].password
  {
    LeaveGoes(s, c, j);
  }

  /**
   CREATE: a new, empty room with that name and password, under the least id without an active
   record, exactly when the name is free and fewer than 32 rooms are live.
   */
  lemma CreateRoomOutcome(s: State, c: ClientId, name: string, password: string)
    requires Inv(s) && Legal(s, CreateRoom(c, name, password))
    ensures var s' := Do(s, CreateRoom(c, name, password));
            if (exists id :: id in s.rooms && s.rooms[id].name == name) || |s.rooms| >= 32 then s' == s
            else exists id: RoomId ::
                   && s'.rooms == s.rooms[id := Room(name, password, [])] && s'.current == s.current
                   && id !in s.rooms && ReadRoom(s.disk, id).None?
                   && forall j: RoomId :: j < id ==> ReadRoom(s.disk, j).Some?
  {
    CreateOutcome(s, name, password);
    LeastFreeIsSmall(s);
    if Create(s, name, password).1 >= 0 {
      var id: RoomId := NextFree(s.disk, 0);
      assert Create(s, name, password).1 == id;
    }
  }
}
