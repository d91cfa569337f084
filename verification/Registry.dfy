/**
 The room registry as a value: live rooms by id, where each connected client is, and the room
 file that mirrors them. Every command is one atomic step and every record write succeeds.
 */
module Registry {
  import opened Common
  import opened RoomRecord
  import opened Wal

  type ClientId = nat

  // The participant array holds fifty clients, the name and password 31 and 63 characters.
  datatype RoomFields = Room(name: string, password: string, members: seq<ClientId>)
  type Room = r: RoomFields | |r.name| <= 31 && |r.password| <= 63 && |r.members| <= 50
    witness Room("", "", [])

  // `current` has a key for every connected client: the room it is in, if any. `found` is the
  // room file as the process found it: rooms are not reloaded, so what is active in it stays so.
  datatype State = State(rooms: map<RoomId, Room>, disk: RoomFile, current: map<ClientId, Option<RoomId>>,
                         found: RoomFile)

  function RecordOf(id: RoomId, r: Room): Record {
    Record(id, r.name, r.password, 1, |r.members|)
  }

  // ----- the pieces the commands are made of -----------------------------------------------

  // `db_next_free_room_id`
  function NextFree(disk: RoomFile, i: nat): (id: nat)
    requires i <= |disk|
    ensures i <= id <= |disk| && ReadRoom(disk, id) == None
    ensures forall j :: i <= j < id ==> ReadRoom(disk, j).Some?
    decreases |disk| - i
  {
    if i == |disk| || disk[i].isActive == 0 then i else NextFree(disk, i + 1)
  }

  // Rewrites a room's record with its present number of participants.
  function StoreCount(disk: RoomFile, id: RoomId, n: nat): RoomFile
    requires n <= 50
  {
    if id < |disk| then Put(disk, id, disk[id].(userCount := n)) else disk
  }

  // Marks a room's record inactive.
  function StoreDeleted(disk: RoomFile, id: RoomId): RoomFile {
    if ReadRoom(disk, id).Some? then Put(disk, id, disk[id].(isActive := 0)) else disk
  }

  // Takes the first occurrence of a client out of a participant list, closing the gap.
  function Without(members: seq<ClientId>, c: ClientId): (m: seq<ClientId>)
    ensures |m| <= |members|
  {
    if members == [] then []
    else if members[0] == c then members[1..]
    else [members[0]] + Without(members[1..], c)
  }

  // `room_delete`
  ghost function Delete(s: State, id: RoomId): State {
    if id !in s.rooms then s
    else s.(rooms := s.rooms - {id}, disk := StoreDeleted(s.disk, id))
  }

  // Takes a client out of a live room, stores the new count and deletes the room when that
  // leaves it empty.
  ghost function TakeOut(s: State, id: RoomId, c: ClientId): State
    requires id in s.rooms
  {
    var r := s.rooms[id];
    var r' := r.(members := Without(r.members, c));
    var s' := s.(rooms := s.rooms[id := r'], disk := StoreCount(s.disk, id, |r'.members|));
    if r'.members == [] then Delete(s', id) else s'
  }

  // ----- the commands ------------------------------------------------------------------------

  // A client's room pointer is never dangling: it leads to a live room.
  ghost predicate Linked(s: State, c: ClientId) {
    c in s.current && (s.current[c].Some? ==> s.current[c].value in s.rooms)
  }

  // `room_leave`: -1 when the client is in no room, else 0. The pointer is dropped where the
  // client is found among the participants.
  ghost function Leave(s: State, c: ClientId): (State, int)
    requires Linked(s, c)
  {
    if s.current[c].None? then (s, -1)
    else
      var id := s.current[c].value;
      (TakeOut(s, id, c).(current := if c in s.rooms[id].members then s.current[c := None] else s.current), 0)
  }

  ghost function Named(s: State, name: string): Option<RoomId> {
    if exists id :: id in s.rooms && s.rooms[id].name == name
    then (var id :| id in s.rooms && s.rooms[id].name == name; Some(id))
    else None
  }

  // `room_create`: the new room's id, -1 for a name in use, -2 for too many rooms.
  ghost function Create(s: State, name: string, password: string): (State, int)
    requires |name| <= 31 && |password| <= 63 && NextFree(s.disk, 0) < 0x8000_0000
  {
    if Named(s, name).Some? then (s, -1)
    else if |s.rooms| >= MAX_ROOMS then (s, -2)
    else
      var id := NextFree(s.disk, 0);
      var r := Room(name, password, []);
      (s.(rooms := s.rooms[id := r], disk := Put(s.disk, id, RecordOf(id, r))), id as int)
  }

  // Puts a client that is in no room into a room: 0, or -2 for no such room, -3 for a wrong
  // password, -4 for a full room.
  ghost function Enter(s: State, id: RoomId, password: string, c: ClientId): (State, int) {
    if id !in s.rooms then (s, -2)
    else
      var r := s.rooms[id];
      if |r.password| > 0 && r.password != password then (s, -3)
      else if |r.members| >= MAX_CLIENTS then (s, -4)
      else
        var r' := r.(members := r.members + [c]);
        (s.(rooms := s.rooms[id := r'], disk := StoreCount(s.disk, id, |r'.members|),
            current := s.current[c := Some(id)]), 0)
  }

  // `room_join`: whatever comes of it, the client first leaves the room it is in.
  ghost function Join(s: State, id: RoomId, password: string, c: ClientId): (State, int)
    requires Linked(s, c)
  {
    Enter(Leave(s, c).0, id, password, c)
  }

  // `disconnect_client`: the client leaves the table and its room.
  ghost function Disconnect(s: State, c: ClientId): State
    requires Linked(s, c)
  {
    var s1 := if s.current[c].Some? then TakeOut(s, s.current[c].value, c) else s;
    s1.(current := s.current - {c})
  }

  // ----- the invariant -------------------------------------------------------------------------

  predicate Distinct(m: seq<ClientId>) {
    forall i, j :: 0 <= i < j < |m| ==> m[i] != m[j]
  }

  // The active records are the live rooms, field by field, and those the process found, and no
  // record is both.
  ghost predicate MirroredAt(s: State, id: RoomId) {
    if id in s.rooms then ReadRoom(s.disk, id) == Some(RecordOf(id, s.rooms[id])) && ReadRoom(s.found, id).None?
    else ReadRoom(s.disk, id) == ReadRoom(s.found, id)
  }

  // Room ids are C integers.
  predicate Fits(f: RoomFile) {
    |f| + MAX_ROOMS < 0x7fff_ffff
  }

  ghost predicate NamesApart(s: State, i: RoomId, j: RoomId) {
    i in s.rooms && j in s.rooms && i != j ==> s.rooms[i].name != s.rooms[j].name
  }

  // A client is listed in exactly the room its pointer leads to.
  ghost predicate ListedAt(s: State, id: RoomId, c: ClientId) {
    id in s.rooms ==> (c in s.rooms[id].members <==> c in s.current && s.current[c] == Some(id))
  }

  ghost predicate ListedOnce(s: State, id: RoomId) {
    id in s.rooms ==> Distinct(s.rooms[id].members)
  }

  ghost predicate PointsAtLive(s: State, c: ClientId) {
    c in s.current && s.current[c].Some? ==> s.current[c].value in s.rooms
  }

  ghost predicate Mirrored(s: State) {
    forall id :: MirroredAt(s, id)
  }

  ghost predicate NamesDiffer(s: State) {
    forall i, j :: NamesApart(s, i, j)
  }

  ghost predicate MembersAgree(s: State) {
    && (forall id :: ListedOnce(s, id))
    && (forall id, c :: ListedAt(s, id, c))
    && (forall c :: PointsAtLive(s, c))
  }

  ghost predicate Inv(s: State) {
    && |s.rooms| <= MAX_ROOMS && |s.current| <= MAX_CLIENTS && Fits(s.found)
    && Mirrored(s) && NamesDiffer(s) && MembersAgree(s)
  }

  // ----- participant lists ------------------------------------------------------------------------

  lemma {:induction false} WithoutRemoves(m: seq<ClientId>, c: ClientId)
    requires Distinct(m)
    ensures Distinct(Without(m, c))
    ensures forall x :: x in Without(m, c) <==> x in m && x != c
    ensures |Without(m, c)| == if c in m then |m| - 1 else |m|
  {
    if m != [] {
      WithoutRemoves(m[1..], c);
      assert m == [m[0]] + m[1..];
      assert forall i | 0 <= i < |m[1..]| :: m[1..][i] == m[i + 1];
      if m[0] != c {
        var rest := Without(m[1..], c);
        assert m[0] !in m[1..];
        assert forall i | 0 <= i < |rest| :: rest[i] in rest;
      }
    }
  }

  lemma {:induction false} WithoutAt(m: seq<ClientId>, c: ClientId, i: nat)
    requires i < |m| && m[i] == c && c !in m[..i]
    ensures Without(m, c) == m[..i] + m[i + 1..]
  {
    if i > 0 {
      assert m[0] == m[..i][0];
      assert m[1..][..i - 1] == m[..i][1..];
      WithoutAt(m[1..], c, i - 1);
    }
  }

  ghost function Elements(m: seq<ClientId>): set<ClientId> {
    set x | x in m
  }

  lemma {:induction false} DistinctCount(m: seq<ClientId>)
    requires Distinct(m)
    ensures |Elements(m)| == |m|
  {
    if m != [] {
      var init, x := m[..|m| - 1], m[|m| - 1];
      DistinctCount(init);
      assert m == init + [x];
      assert Elements(m) == Elements(init) + {x};
      assert x !in init;
    }
  }

  lemma SubsetCount<T>(a: set<T>, b: set<T>)
    requires a <= b
    ensures |a| <= |b|
  {
    assert b == a + (b - a);
  }

  // Names are unique, so a live room is the one its name finds.
  lemma NamedIs(s: State, id: RoomId)
    requires NamesDiffer(s) && id in s.rooms
    ensures Named(s, s.rooms[id].name) == Some(id)
  {
    var j := Named(s, s.rooms[id].name).value;
    assert NamesApart(s, id, j);
  }

  // ----- the disk follows the registry -------------------------------------------------------------

  lemma CountMirrors(s: State, id: RoomId, r': Room, s': State)
    requires Mirrored(s) && id in s.rooms
    requires r'.name == s.rooms[id].name && r'.password == s.rooms[id].password
    requires s'.rooms == s.rooms[id := r'] && s'.disk == StoreCount(s.disk, id, |r'.members|) && s'.found == s.found
    ensures Mirrored(s')
  {
    assert MirroredAt(s, id);
    assert s.disk[id].(userCount := |r'.members|) == RecordOf(id, r');
    forall j
      ensures MirroredAt(s', j)
    {
      assert MirroredAt(s, j);
    }
  }

  lemma DeleteMirrors(s: State, id: RoomId)
    requires Mirrored(s) && id in s.rooms
    ensures Mirrored(Delete(s, id))
  {
    assert MirroredAt(s, id);
    forall j
      ensures MirroredAt(Delete(s, id), j)
    {
      assert MirroredAt(s, j);
    }
  }

  lemma CreateMirrors(s: State, id: RoomId, r: Room, s': State)
    requires Mirrored(s) && ReadRoom(s.found, id).None? && s'.found == s.found
    requires s'.rooms == s.rooms[id := r] && s'.disk == Put(s.disk, id, RecordOf(id, r))
    ensures Mirrored(s')
  {
    assert Visible(RecordOf(id, r)) == Some(RecordOf(id, r));
    forall j
      ensures MirroredAt(s', j)
    {
      assert MirroredAt(s, j);
    }
  }

  // ----- what taking a client out does ----------------------------------------------------------------

  function Reduced(r: Room, c: ClientId): Room {
    r.(members := Without(r.members, c))
  }

  lemma TakeOutShape(s: State, id: RoomId, c: ClientId)
    requires id in s.rooms
    ensures var r' := Reduced(s.rooms[id], c);
            TakeOut(s, id, c).rooms == if r'.members == [] then s.rooms - {id} else s.rooms[id := r']
    ensures TakeOut(s, id, c).current == s.current
  {
    var r' := Reduced(s.rooms[id], c);
    assert s.rooms[id := r'] - {id} == s.rooms - {id};
  }

  lemma TakeOutMirrors(s: State, id: RoomId, c: ClientId)
    requires Mirrored(s) && id in s.rooms
    ensures Mirrored(TakeOut(s, id, c))
  {
    var r' := Reduced(s.rooms[id], c);
    var s1 := s.(rooms := s.rooms[id := r'], disk := StoreCount(s.disk, id, |r'.members|));
    CountMirrors(s, id, r', s1);
    if r'.members == [] {
      DeleteMirrors(s1, id);
    }
  }

  // `s'` is `s` after client `c` was taken out of room `id` and its pointer dropped.
  ghost predicate TakenOut(s: State, id: RoomId, c: ClientId, s': State) {
    && id in s.rooms && c in s.current && s.current[c] == Some(id) && s'.found == s.found
    && s'.rooms == (if Reduced(s.rooms[id], c).members == [] then s.rooms - {id}
                    else s.rooms[id := Reduced(s.rooms[id], c)])
    && (s'.current == s.current[c := None] || s'.current == s.current - {c})
  }

  lemma TakenOutNames(s: State, id: RoomId, c: ClientId, s': State)
    requires NamesDiffer(s) && TakenOut(s, id, c, s')
    ensures NamesDiffer(s')
  {
    forall i, j
      ensures NamesApart(s', i, j)
    {
      assert NamesApart(s, i, j);
    }
  }

  lemma TakenOutListedAt(s: State, id: RoomId, c: ClientId, s': State, j: RoomId, x: ClientId)
    requires TakenOut(s, id, c, s') && ListedOnce(s, id) && ListedAt(s, j, x)
    ensures ListedAt(s', j, x)
  {
    WithoutRemoves(s.rooms[id].members, c);
  }

  lemma TakenOutPointsAtLive(s: State, id: RoomId, c: ClientId, s': State, x: ClientId)
    requires TakenOut(s, id, c, s') && ListedOnce(s, id) && ListedAt(s, id, x) && PointsAtLive(s, x)
    ensures PointsAtLive(s', x)
  {
    WithoutRemoves(s.rooms[id].members, c);
    var m := Without(s.rooms[id].members, c);
    assert m == [] ==> x !in m;
  }

  lemma TakenOutMembers(s: State, id: RoomId, c: ClientId, s': State)
    requires MembersAgree(s) && TakenOut(s, id, c, s')
    ensures MembersAgree(s')
  {
    assert ListedOnce(s, id);
    forall j
      ensures ListedOnce(s', j)
    {
      assert ListedOnce(s, j);
      WithoutRemoves(s.rooms[id].members, c);
    }
    forall j, x
      ensures ListedAt(s', j, x)
    {
      assert ListedAt(s, j, x);
      TakenOutListedAt(s, id, c, s', j, x);
    }
    forall x
      ensures PointsAtLive(s', x)
    {
      assert ListedAt(s, id, x) && PointsAtLive(s, x);
      TakenOutPointsAtLive(s, id, c, s', x);
    }
  }

  lemma MapCount<K, V>(a: map<K, V>, b: map<K, V>)
    requires a.Keys <= b.Keys
    ensures |a| <= |b|
  {
    assert b.Keys == a.Keys + (b.Keys - a.Keys);
    assert |a.Keys| == |a| && |b.Keys| == |b|;
  }

  lemma TakenOutKeeps(s: State, id: RoomId, c: ClientId, s': State)
    requires Inv(s) && TakenOut(s, id, c, s') && Mirrored(s')
    ensures Inv(s')
  {
    TakenOutNames(s, id, c, s');
    TakenOutMembers(s, id, c, s');
    MapCount(s'.rooms, s.rooms);
    MapCount(s'.current, s.current);
  }

  lemma MirroredFrame(s: State, s': State)
    requires Mirrored(s) && s'.rooms == s.rooms && s'.disk == s.disk && s'.found == s.found
    ensures Mirrored(s')
  {
    forall j
      ensures MirroredAt(s', j)
    {
      assert MirroredAt(s, j);
    }
  }

  lemma LeaveKeeps(s: State, c: ClientId)
    requires Inv(s) && c in s.current
    ensures Linked(s, c) && Inv(Leave(s, c).0) && Leave(s, c).0.current == s.current[c := None]
  {
    assert PointsAtLive(s, c);
    if s.current[c].Some? {
      var id := s.current[c].value;
      assert ListedAt(s, id, c);
      TakeOutShape(s, id, c);
      TakeOutMirrors(s, id, c);
      MirroredFrame(TakeOut(s, id, c), Leave(s, c).0);
      TakenOutKeeps(s, id, c, Leave(s, c).0);
    } else {
      assert s.current == s.current[c := None];
    }
  }

  lemma UnplacedDrop(s: State, c: ClientId)
    requires Inv(s) && c in s.current && s.current[c].None?
    ensures Inv(s.(current := s.current - {c}))
  {
    var s' := s.(current := s.current - {c});
    MirroredFrame(s, s');
    MapCount(s'.current, s.current);
    forall i, j ensures NamesApart(s', i, j) { assert NamesApart(s, i, j); }
    forall j ensures ListedOnce(s', j) { assert ListedOnce(s, j); }
    forall j, x ensures ListedAt(s', j, x) { assert ListedAt(s, j, x); }
    forall x ensures PointsAtLive(s', x) { assert PointsAtLive(s, x); }
  }

  lemma DisconnectKeeps(s: State, c: ClientId)
    requires Inv(s) && c in s.current
    ensures Linked(s, c) && Inv(Disconnect(s, c)) && Disconnect(s, c).current == s.current - {c}
  {
    assert PointsAtLive(s, c);
    if s.current[c].Some? {
      var id := s.current[c].value;
      TakeOutShape(s, id, c);
      TakeOutMirrors(s, id, c);
      MirroredFrame(TakeOut(s, id, c), Disconnect(s, c));
      TakenOutKeeps(s, id, c, Disconnect(s, c));
    } else {
      UnplacedDrop(s, c);
    }
  }

  // ----- creating a room ---------------------------------------------------------------------------------

  ghost function Below(n: RoomId): set<RoomId> {
    if n == 0 then {} else Below(n - 1) + {n - 1}
  }

  lemma {:induction false} BelowCount(n: RoomId)
    ensures |Below(n)| == n && forall i :: i in Below(n) <==> 0 <= i < n
  {
    if n > 0 {
      BelowCount(n - 1);
    }
  }

  // The records a process found active.
  ghost function Leftovers(f: RoomFile): set<RoomId>
    requires Fits(f)
  {
    set id: RoomId | id < |f| && ReadRoom(f, id).Some?
  }

  lemma LeftoversCount(f: RoomFile)
    requires Fits(f)
    ensures |Leftovers(f)| <= |f|
  {
    BelowCount(|f|);
    SubsetCount(Leftovers(f), Below(|f|));
  }

  // An id below the least free one belongs to a live room or to a record found active.
  lemma Taken(s: State, id: RoomId)
    requires Inv(s) && id < NextFree(s.disk, 0)
    ensures id in s.rooms.Keys + Leftovers(s.found)
  {
    assert ReadRoom(s.disk, id).Some? && MirroredAt(s, id);
  }

  /**
   The ids below the least free one all belong to live rooms or to records found active, so by
   the pigeonhole principle it is at most their number.
   */
  lemma LeastFreeIsSmall(s: State)
    requires Inv(s)
    ensures NextFree(s.disk, 0) <= |s.rooms| + |Leftovers(s.found)| < 0x8000_0000
  {
    LeftoversCount(s.found);
    assert |s.rooms.Keys| == |s.rooms|;
    var taken := s.rooms.Keys + Leftovers(s.found);
    assert |taken| <= |s.rooms| + |Leftovers(s.found)|;
    if NextFree(s.disk, 0) > |s.rooms| + |Leftovers(s.found)| {
      var m: RoomId := |s.rooms| + |Leftovers(s.found)| + 1;
      forall i | i in Below(m)
        ensures i in taken
      {
        BelowCount(m);
        Taken(s, i);
      }
      BelowCount(m);
      SubsetCount(Below(m), taken);
      assert false;
    }
  }

  // No record below this index is active.
  ghost predicate ClearBelow(f: RoomFile, n: RoomId) {
    forall id: RoomId :: id < n ==> ReadRoom(f, id).None?
  }

  /**
   Where the process found no active record below MAX_ROOMS, a room that may be created gets an
   id below MAX_ROOMS, which is a valid index into the per-room semaphores.
   */
  lemma ClearMeansSmall(s: State)
    requires Inv(s) && ClearBelow(s.found, MAX_ROOMS) && |s.rooms| < MAX_ROOMS
    ensures NextFree(s.disk, 0) < MAX_ROOMS
  {
    assert |s.rooms.Keys| == |s.rooms|;
    if NextFree(s.disk, 0) >= MAX_ROOMS {
      forall i | i in Below(MAX_ROOMS)
        ensures i in s.rooms.Keys
      {
        BelowCount(MAX_ROOMS);
        Taken(s, i);
      }
      BelowCount(MAX_ROOMS);
      SubsetCount(Below(MAX_ROOMS), s.rooms.Keys);
      assert false;
    }
  }

  lemma NewKeyCount<K, V>(m: map<K, V>, k: K, v: V)
    requires k !in m
    ensures |m[k := v]| == |m| + 1
  {
    assert m[k := v].Keys == m.Keys + {k};
    assert |m[k := v].Keys| == |m[k := v]| && |m.Keys| == |m|;
  }

  lemma NewRoomNames(s: State, id: RoomId, r: Room, s': State)
    requires NamesDiffer(s) && s'.rooms == s.rooms[id := r]
    requires forall j :: j in s.rooms ==> s.rooms[j].name != r.name
    ensures NamesDiffer(s')
  {
    forall i, j ensures NamesApart(s', i, j) { assert NamesApart(s, i, j); }
  }

  lemma NewRoomMembers(s: State, id: RoomId, r: Room, s': State)
    requires MembersAgree(s) && s'.rooms == s.rooms[id := r] && s'.current == s.current
    requires id !in s.rooms && r.members == []
    ensures MembersAgree(s')
  {
    forall j ensures ListedOnce(s', j) { assert ListedOnce(s, j); }
    forall j, x ensures ListedAt(s', j, x) { assert ListedAt(s, j, x) && PointsAtLive(s, x); }
    forall x ensures PointsAtLive(s', x) { assert PointsAtLive(s, x); }
  }

  // `s'` is `s` with a new, empty room.
  lemma NewRoomKeeps(s: State, id: RoomId, r: Room, s': State)
    requires Inv(s) && |s.rooms| < MAX_ROOMS && id !in s.rooms && r.members == [] && s'.current == s.current
    requires s'.rooms == s.rooms[id := r] && s'.found == s.found && Mirrored(s')
    requires forall j :: j in s.rooms ==> s.rooms[j].name != r.name
    ensures Inv(s')
  {
    NewKeyCount(s.rooms, id, r);
    NewRoomNames(s, id, r, s');
    NewRoomMembers(s, id, r, s');
  }

  lemma CreateKeeps(s: State, name: string, password: string)
    requires Inv(s) && |name| <= 31 && |password| <= 63
    ensures NextFree(s.disk, 0) < 0x8000_0000
    ensures Inv(Create(s, name, password).0)
    ensures ClearBelow(s.found, MAX_ROOMS) ==> Create(s, name, password).1 < MAX_ROOMS
    ensures Create(s, name, password).0.current == s.current
  {
    LeastFreeIsSmall(s);
    if ClearBelow(s.found, MAX_ROOMS) && |s.rooms| < MAX_ROOMS {
      ClearMeansSmall(s);
    }
    if Named(s, name).None? && |s.rooms| < MAX_ROOMS {
      var id: RoomId := NextFree(s.disk, 0);
      var r := Room(name, password, []);
      var s' := Create(s, name, password).0;
      assert MirroredAt(s, id);
      CreateMirrors(s, id, r, s');
      NewRoomKeeps(s, id, r, s');
    }
  }

  // ----- joining a room -------------------------------------------------------------------------------------

  // Every participant is a connected client that points at the room.
  lemma MembersAreConnected(s: State, id: RoomId, c: ClientId)
    requires Inv(s) && id in s.rooms && c in s.current && s.current[c] != Some(id)
    ensures |s.rooms[id].members| < MAX_CLIENTS
  {
    var m := s.rooms[id].members;
    assert ListedOnce(s, id);
    DistinctCount(m);
    forall x | x in Elements(m)
      ensures x in s.current.Keys - {c}
    {
      assert ListedAt(s, id, x);
    }
    SubsetCount(Elements(m), s.current.Keys - {c});
    assert |s.current.Keys| == |s.current|;
  }

  // `s'` is `s` with client `c`, so far in no room, added to room `id`.
  ghost predicate Entered(s: State, id: RoomId, c: ClientId, s': State) {
    && id in s.rooms && c in s.current && s.current[c].None? && |s.rooms[id].members| < MAX_CLIENTS
    && s'.rooms == s.rooms[id := s.rooms[id].(members := s.rooms[id].members + [c])]
    && s'.current == s.current[c := Some(id)] && s'.found == s.found
  }

  lemma EnteredKeeps(s: State, id: RoomId, c: ClientId, s': State)
    requires Inv(s) && Entered(s, id, c, s') && Mirrored(s')
    ensures Inv(s')
  {
    assert s'.rooms.Keys == s.rooms.Keys && s'.current.Keys == s.current.Keys;
    MapCount(s'.rooms, s.rooms);
    MapCount(s'.current, s.current);
    assert ListedAt(s, id, c);
    forall i, j ensures NamesApart(s', i, j) { assert NamesApart(s, i, j); }
    forall j ensures ListedOnce(s', j) { assert ListedOnce(s, j); }
    forall j, x ensures ListedAt(s', j, x) { assert ListedAt(s, j, x); }
    forall x ensures PointsAtLive(s', x) { assert PointsAtLive(s, x); }
  }

  lemma EnterKeeps(s: State, id: RoomId, c: ClientId)
    requires Inv(s) && id in s.rooms && c in s.current && s.current[c].None?
    requires |s.rooms[id].members| < MAX_CLIENTS
    ensures var r': Room := s.rooms[id].(members := s.rooms[id].members + [c]);
            Inv(s.(rooms := s.rooms[id := r'], disk := StoreCount(s.disk, id, |r'.members|),
                   current := s.current[c := Some(id)]))
  {
    var r': Room := s.rooms[id].(members := s.rooms[id].members + [c]);
    var s' := s.(rooms := s.rooms[id := r'], disk := StoreCount(s.disk, id, |r'.members|),
                 current := s.current[c := Some(id)]);
    CountMirrors(s, id, r', s');
    EnteredKeeps(s, id, c, s');
  }

  /**
   A join never finds the room full, and one that fails leaves its client in no room: even a
   client that rejoins its own room as the last one in it.
   */
  lemma JoinKeeps(s: State, id: RoomId, password: string, c: ClientId)
    requires Inv(s) && c in s.current
    ensures Linked(s, c) && Inv(Join(s, id, password, c).0)
    ensures Join(s, id, password, c).1 != -4
    ensures Join(s, id, password, c).0.current ==
            s.current[c := if Join(s, id, password, c).1 == 0 then Some(id) else None]
  {
    LeaveKeeps(s, c);
    var s1 := Leave(s, c).0;
    if id in s1.rooms {
      MembersAreConnected(s1, id, c);
      EnterKeeps(s1, id, c);
      assert s.current[c := None][c := Some(id)] == s.current[c := Some(id)];
    }
  }

  // The last member of a room who joins it again loses it: leaving deletes the room first.
  lemma RejoinAsLastMember(s: State, id: RoomId, password: string, c: ClientId)
    requires Inv(s) && c in s.current && s.current[c] == Some(id)
    requires id in s.rooms && s.rooms[id].members == [c]
    ensures Join(s, id, password, c).1 == -2 && id !in Join(s, id, password, c).0.rooms
  {
    TakeOutShape(s, id, c);
    assert [c][1..] == [];
  }

  // Whether a room is still there once a client has left the room it is in.
  ghost predicate Outlasts(s: State, id: RoomId, c: ClientId)
    requires c in s.current
  {
    id in s.rooms && !(s.current[c] == Some(id) && s.rooms[id].members == [c])
  }

  lemma {:induction false} WithoutEmpty(m: seq<ClientId>, c: ClientId)
    requires c in m
    ensures Without(m, c) == [] <==> m == [c]
  {
    if |m| == 1 {
      assert m == [m[0]];
    }
  }

  lemma LeaveOutlasts(s: State, id: RoomId, c: ClientId)
    requires Inv(s) && c in s.current
    ensures Linked(s, c) && (id in Leave(s, c).0.rooms <==> Outlasts(s, id, c))
    ensures Outlasts(s, id, c) ==>
              Leave(s, c).0.rooms[id] == s.rooms[id].(members := Without(s.rooms[id].members, c))
  {
    assert PointsAtLive(s, c) && ListedAt(s, id, c);
    if s.current[c].Some? {
      var at := s.current[c].value;
      assert ListedAt(s, at, c);
      TakeOutShape(s, at, c);
      WithoutEmpty(s.rooms[at].members, c);
    }
    if id in s.rooms && s.current[c] != Some(id) {
      WithoutAbsent(s.rooms[id].members, c);
    }
  }

  lemma {:induction false} WithoutAbsent(m: seq<ClientId>, c: ClientId)
    requires c !in m
    ensures Without(m, c) == m
  {
    if m != [] {
      WithoutAbsent(m[1..], c);
    }
  }

  /**
   What a join comes to, told from the state before it: it succeeds exactly when the room
   outlasts the client's leaving and asks for no other password, and then the client is last.
   */
  lemma JoinOutcome(s: State, id: RoomId, password: string, c: ClientId)
    requires Inv(s) && c in s.current
    ensures Linked(s, c)
    ensures Join(s, id, password, c).1 ==
            if !Outlasts(s, id, c) then -2
            else if s.rooms[id].password != "" && s.rooms[id].password != password then -3
            else 0
    ensures Join(s, id, password, c).1 == 0 ==>
              && id in Join(s, id, password, c).0.rooms
              && Join(s, id, password, c).0.rooms[id].members == Without(s.rooms[id].members, c) + [c]
  {
    LeaveOutlasts(s, id, c);
    JoinKeeps(s, id, password, c);
  }

  /**
   A room is created exactly when no live room has its name and fewer than 32 are live, under
   an id no live room has.
   */
  lemma CreateOutcome(s: State, name: string, password: string)
    requires Inv(s) && |name| <= 31 && |password| <= 63
    ensures NextFree(s.disk, 0) < 0x8000_0000
    ensures var (s', code) := Create(s, name, password);
            && (code == -1 <==> exists id :: id in s.rooms && s.rooms[id].name == name)
            && (code == -2 <==> (forall id :: id in s.rooms ==> s.rooms[id].name != name) && |s.rooms| >= 32)
            && (code >= 0 <==> (forall id :: id in s.rooms ==> s.rooms[id].name != name) && |s.rooms| < 32)
            && (code >= 0 ==> code !in s.rooms && s'.rooms == s.rooms[code := Room(name, password, [])])
            && (code < 0 ==> s' == s && code in {-1, -2})
  {
    LeastFreeIsSmall(s);
    assert MirroredAt(s, NextFree(s.disk, 0));
  }

  // ----- whole runs ------------------------------------------------------------------------------------------

  datatype Command =
    | Connect(c: ClientId)
    | CreateRoom(c: ClientId, name: string, password: string)
    | JoinRoom(c: ClientId, name: string, password: string)
    | LeaveRoom(c: ClientId)                      // LEAVE and LOGOUT
    | Kick(c: ClientId, target: ClientId)
    | Drop(c: ClientId)

  // What `accept` and the command handlers guarantee of a command before it acts.
  ghost predicate Legal(s: State, cmd: Command) {
    match cmd
    case Connect(c) => c !in s.current && |s.current| < MAX_CLIENTS
    case CreateRoom(c, name, password) => c in s.current && 0 < |name| <= 31 && |password| <= 63
    case JoinRoom(c, _, _) => c in s.current
    case LeaveRoom(c) => c in s.current
    case Kick(c, target) =>
      c in s.current && target in s.current && s.current[c].Some? && s.current[target] == s.current[c]
    case Drop(c) => c in s.current
  }

  lemma ConnectKeeps(s: State, c: ClientId)
    requires Inv(s) && c !in s.current && |s.current| < MAX_CLIENTS
    ensures Inv(s.(current := s.current[c := None]))
  {
    var s' := s.(current := s.current[c := None]);
    assert s'.current.Keys == s.current.Keys + {c};
    assert |s'.current.Keys| == |s'.current| && |s.current.Keys| == |s.current|;
    MirroredFrame(s, s');
    forall i, j ensures NamesApart(s', i, j) { assert NamesApart(s, i, j); }
    forall j ensures ListedOnce(s', j) { assert ListedOnce(s, j); }
    forall j, x ensures ListedAt(s', j, x) { assert ListedAt(s, j, x); }
    forall x ensures PointsAtLive(s', x) { assert PointsAtLive(s, x); }
  }

  ghost function Do(s: State, cmd: Command): State
    requires Inv(s) && Legal(s, cmd)
  {
    assert forall c | c in s.current :: PointsAtLive(s, c);
    match cmd
    case Connect(c) => s.(current := s.current[c := None])
    case CreateRoom(_, name, password) => CreateKeeps(s, name, password); Create(s, name, password).0
    case JoinRoom(c, name, password) =>
      if Named(s, name).None? then s else Join(s, Named(s, name).value, password, c).0
    case LeaveRoom(c) => Leave(s, c).0
    case Kick(_, target) => Leave(s, target).0
    case Drop(c) => Disconnect(s, c)
  }

  lemma CommandKeeps(s: State, cmd: Command)
    requires Inv(s) && Legal(s, cmd)
    ensures Inv(Do(s, cmd)) && Do(s, cmd).found == s.found
  {
    match cmd {
      case Connect(c) => ConnectKeeps(s, c);
      case CreateRoom(_, name, password) => CreateKeeps(s, name, password);
      case JoinRoom(c, name, password) =>
        if Named(s, name).Some? {
          JoinKeeps(s, Named(s, name).value, password, c);
        }
      case LeaveRoom(c) => LeaveKeeps(s, c);
      case Kick(_, target) => LeaveKeeps(s, target);
      case Drop(c) => DisconnectKeeps(s, c);
    }
  }

  ghost predicate LegalRun(s: State, run: seq<Command>)
    requires Inv(s)
    decreases run
  {
    run == [] || (Legal(s, run[0]) && (CommandKeeps(s, run[0]); LegalRun(Do(s, run[0]), run[1..])))
  }

  ghost function After(s: State, run: seq<Command>): State
    requires Inv(s) && LegalRun(s, run)
    decreases run
  {
    if run == [] then s else CommandKeeps(s, run[0]); After(Do(s, run[0]), run[1..])
  }

  lemma {:induction false} RunKeeps(s: State, run: seq<Command>)
    requires Inv(s) && LegalRun(s, run)
    ensures Inv(After(s, run)) && After(s, run).found == s.found
    decreases run
  {
    if run != [] {
      CommandKeeps(s, run[0]);
      RunKeeps(Do(s, run[0]), run[1..]);
    }
  }

  // An empty registry over whatever room file there is: rooms are not reloaded.
  function Start(f: RoomFile): State {
    State(map[], f, map[], f)
  }

  lemma StartHolds(f: RoomFile)
    requires Fits(f)
    ensures Inv(Start(f))
  {
  }

  /**
   After every run of connect, create, join, leave, logout, kick and disconnect, from any room
   file, the registry, the clients' room pointers and the room file agree, and the records the
   process found active are as it found them.
   */
  lemma RegistryConsistent(f: RoomFile, run: seq<Command>)
    requires Fits(f) && LegalRun(Start(f), run)
    ensures Inv(After(Start(f), run)) && After(Start(f), run).found == f
  {
    StartHolds(f);
    RunKeeps(Start(f), run);
  }
}
