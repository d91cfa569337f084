/**
 The room registry as the server keeps it: heap rooms in a doubly linked list, participant
 arrays shifted in place, and pointers from clients to rooms.
 */
module RoomManager {
  import opened Common
  import opened RoomRecord
  import opened Wal
  import CText
  import C = WalCrash
  import D = FileDb
  import R = Registry
  import opened Registry

  type Name = s: string | |s| <= 31
  type Password = s: string | |s| <= 63

  class Room {
    const id: RoomId
    const name: Name
    const password: Password
    const participants: array<ClientId>
    var count: nat
    var prev: Room?
    var next: Room?

    ghost predicate Sized()
      reads this`count
    {
      participants.Length == MAX_CLIENTS && count <= MAX_CLIENTS
    }

    ghost function Members(): seq<ClientId>
      requires Sized()
      reads this`count, participants
    {
      participants[..count]
    }

    ghost function Value(): R.Room
      requires Sized()
      reads this`count, participants
    {
      R.Room(name, password, Members())
    }

    constructor (id: RoomId, name: Name, password: Password)
      ensures Sized() && fresh(participants)
      ensures this.id == id && Value() == R.Room(name, password, [])
      ensures prev == null && next == null
    {
      this.id, this.name, this.password := id, name, password;
      participants := new ClientId[MAX_CLIENTS](_ => 0);
      count, prev, next := 0, null, null;
    }

    method Add(c: ClientId)
      requires Sized() && count < MAX_CLIENTS
      modifies this`count, participants
      ensures Sized() && Members() == old(Members()) + [c]
    {
      participants[count] := c;
      count := count + 1;
    }

    method IndexOf(c: ClientId) returns (i: nat)
      requires Sized()
      ensures i <= count && c !in Members()[..i]
      ensures i < count ==> participants[i] == c
    {
      i := 0;
      while i < count && participants[i] != c
        invariant i <= count
        invariant c !in Members()[..i]
      {
        assert Members()[..i + 1] == Members()[..i] + [Members()[i]];
        i := i + 1;
      }
    }

    // Shifts the participants after place `i` down by one, in place.
    method CloseGap(i: nat)
      requires Sized() && i < count
      modifies this`count, participants
      ensures Sized() && Members() == old(Members()[..i] + Members()[i + 1..])
    {
      ghost var m := Members();
      var last := count - 1;
      for j := i to last
        invariant count == |m| == last + 1
        invariant forall k :: 0 <= k < i ==> participants[k] == m[k]
        invariant forall k {:trigger participants[k]} :: i <= k < j ==> participants[k] == m[k + 1]
        invariant forall k :: j < k <= last ==> participants[k] == m[k]
      {
        participants[j] := participants[j + 1];
      }
      count := last;
      assert participants[..count] == m[..i] + m[i + 1..];
    }

    // Takes a participant off the list, if it is there.
    method Remove(c: ClientId) returns (found: bool)
      requires Sized()
      modifies this`count, participants
      ensures Sized() && Members() == Without(old(Members()), c)
      ensures found == (c in old(Members()))
    {
      var i := IndexOf(c);
      found := i < count;
      if found {
        WithoutAt(Members(), c, i);
        CloseGap(i);
      } else {
        assert Members()[..i] == Members();
        WithoutAbsent(Members(), c);
      }
    }
  }

  // The room at a place of the list, or null off either end.
  ghost function Nth(spine: seq<Room>, i: int): Room? {
    if 0 <= i < |spine| then spine[i] else null
  }

  // No room is on the list twice.
  ghost predicate ApartAt(spine: seq<Room>, i: nat, j: nat) {
    i < j < |spine| ==> spine[i] != spine[j]
  }

  ghost predicate Apart(spine: seq<Room>) {
    forall i, j :: ApartAt(spine, i, j)
  }

  // `repr` is the set of rooms on the list.
  ghost predicate HeldAt(spine: seq<Room>, repr: set<Room>, i: nat) {
    i < |spine| ==> spine[i] in repr
  }

  ghost predicate Placed(spine: seq<Room>, repr: set<Room>, r: Room) {
    r in repr ==> exists i :: 0 <= i < |spine| && spine[i] == r
  }

  ghost predicate Lists(spine: seq<Room>, repr: set<Room>) {
    && (forall i :: HeldAt(spine, repr, i))
    && (forall r {:trigger Placed(spine, repr, r)} :: r in repr ==> Placed(spine, repr, r))
  }

  ghost function Here(spine: seq<Room>, i: nat): set<Room> {
    if i < |spine| then {spine[i]} else {}
  }

  // The room at place `i` is linked to its neighbours on the list.
  ghost predicate LinkedAt(spine: seq<Room>, i: nat)
    reads Here(spine, i)`prev, Here(spine, i)`next
  {
    i < |spine| ==> spine[i].prev == Nth(spine, i - 1) && spine[i].next == Nth(spine, i + 1)
  }

  // ----- what the list stands for ----------------------------------------------------------

  // `nodes` holds the rooms on the list by id.
  ghost predicate KeyedAt(nodes: map<RoomId, Room>, r: Room) {
    r.id in nodes && nodes[r.id] == r
  }

  ghost predicate FoundAt(repr: set<Room>, nodes: map<RoomId, Room>, id: RoomId) {
    id in nodes ==> nodes[id] in repr && nodes[id].id == id
  }

  ghost predicate Keyed(repr: set<Room>, nodes: map<RoomId, Room>) {
    && (forall r {:trigger KeyedAt(nodes, r)} :: r in repr ==> KeyedAt(nodes, r))
    && (forall id :: FoundAt(repr, nodes, id))
  }

  // Where clients point, and the ids of the rooms that are there.
  type Pointers = map<ClientId, Option<Room>>
  type Places = map<ClientId, Option<RoomId>>

  // A client's pointer is null, or leads to the room on the list that `places` names.
  ghost predicate PointsAt(repr: set<Room>, current: Pointers,
                           places: Places, c: ClientId) {
    c in current ==>
      && c in places
      && match current[c]
         case None => places[c].None?
         case Some(r) => r in repr && places[c] == Some(r.id)
  }

  ghost predicate Pointing(repr: set<Room>, current: Pointers, places: Places) {
    current.Keys == places.Keys && forall c :: PointsAt(repr, current, places, c)
  }

  // A room has the fields and the participants `rooms` says.
  ghost predicate ValuedAt(rooms: map<RoomId, R.Room>, r: Room)
    reads r`count, r.participants
  {
    r.Sized() && r.id in rooms && r.Value() == rooms[r.id]
  }

  ghost function Arrays(repr: set<Room>): set<array<ClientId>> {
    set r | r in repr :: r.participants
  }

  ghost predicate Valued(repr: set<Room>, rooms: map<RoomId, R.Room>)
    reads repr`count, Arrays(repr)
  {
    forall r {:trigger ValuedAt(rooms, r)} :: r in repr ==> ValuedAt(rooms, r)
  }

  // Every room has a participant array of its own.
  ghost predicate OwnArray(r: Room, q: Room) {
    r != q ==> r.participants != q.participants
  }

  ghost predicate Unshared(repr: set<Room>) {
    forall r, q {:trigger OwnArray(r, q)} :: r in repr && q in repr ==> OwnArray(r, q)
  }

  // ----- one room's participants among the others -----------------------------------------------

  ghost function Extended(v: R.Room, c: ClientId): R.Room
    requires |v.members| < MAX_CLIENTS
  {
    v.(members := v.members + [c])
  }

  // No other room sees a change to the participants of this one.
  method Enlist(r: Room, c: ClientId, ghost repr: set<Room>, ghost nodes: map<RoomId, Room>,
                ghost rooms: map<RoomId, R.Room>)
    requires Keyed(repr, nodes) && Unshared(repr) && Valued(repr, rooms)
    requires r in repr && r.Sized() && r.count < MAX_CLIENTS
    modifies r`count, r.participants
    ensures r.Sized() && r.count == old(r.count) + 1
    ensures r.id in rooms && |rooms[r.id].members| == old(r.count)
    ensures Valued(repr, rooms[r.id := Extended(rooms[r.id], c)])
  {
    assert ValuedAt(rooms, r);
    r.Add(c);
    ghost var rooms' := rooms[r.id := Extended(rooms[r.id], c)];
    forall q | q in repr
      ensures ValuedAt(rooms', q)
    {
      assert KeyedAt(nodes, q) && KeyedAt(nodes, r) && OwnArray(q, r) && old(ValuedAt(rooms, q));
    }
  }

  method Delist(r: Room, c: ClientId, ghost repr: set<Room>, ghost nodes: map<RoomId, Room>,
                ghost rooms: map<RoomId, R.Room>)
    returns (found: bool)
    requires Keyed(repr, nodes) && Unshared(repr) && Valued(repr, rooms) && r in repr
    modifies r`count, r.participants
    ensures r.Sized() && r.id in rooms && r.count == |Reduced(rooms[r.id], c).members|
    ensures Valued(repr, rooms[r.id := Reduced(rooms[r.id], c)])
    ensures found == (c in rooms[r.id].members)
  {
    assert ValuedAt(rooms, r);
    found := r.Remove(c);
    ghost var rooms' := rooms[r.id := Reduced(rooms[r.id], c)];
    forall q | q in repr
      ensures ValuedAt(rooms', q)
    {
      assert KeyedAt(nodes, q) && KeyedAt(nodes, r) && OwnArray(q, r) && old(ValuedAt(rooms, q));
    }
  }

  class RoomManager {
    var head: Room?
    var roomCount: nat
    var current: Pointers
    const db: D.Database

    // The list from head to tail, its rooms as a set and by id, and the value all of it stands for.
    ghost var spine: seq<Room>
    ghost var repr: set<Room>
    ghost var nodes: map<RoomId, Room>
    ghost var view: R.State

    // The room file as found, and the record writes since, in order.
    ghost const found: RoomFile
    ghost var written: seq<C.Write>

    // The list is acyclic and its links mirror each other.
    ghost predicate Chain()
      reads this`head, this`spine, this`repr, repr`prev, repr`next
    {
      && Lists(spine, repr) && Apart(spine)
      && head == Nth(spine, 0)
      && forall i {:trigger LinkedAt(spine, i)} :: HeldAt(spine, repr, i) && LinkedAt(spine, i)
    }

    ghost predicate Shape()
      reads this, repr, Arrays(repr), db
    {
      && Chain()
      && roomCount == |spine| && nodes.Keys == view.rooms.Keys
      && Keyed(repr, nodes)
      && Valued(repr, view.rooms) && Unshared(repr)
      && db.rooms == view.disk
      && Pointing(repr, current, view.current)
    }

    // All rooms that were not there are new.
    twostate predicate Grew(was: set<Room>)
      reads this
    {
      forall r :: r in repr ==> r in was || (fresh(r) && fresh(r.participants))
    }

    // Rooms are not reloaded: the list starts empty over whatever file recovery has left.
    constructor (db: D.Database)
      requires Fits(db.rooms) && db.log == ""
      ensures this.db == db && found == db.rooms && Shape() && view == R.Start(found) && R.Inv(view)
      ensures written == [] && IsLog(found, written, db.rooms, db.log)
    {
      head, roomCount, current := null, 0, map[];
      this.db, found, written := db, db.rooms, [];
      spine, repr, nodes, view := [], {}, map[], R.Start(db.rooms);
      R.StartHolds(db.rooms);
    }

    // ----- searching ---------------------------------------------------------------------

    method ScanForId(id: RoomId) returns (r: Room?, ghost k: nat)
      requires Chain()
      ensures r == Nth(spine, k) && (r != null ==> r.id == id)
      ensures r == null ==> forall i :: 0 <= i < |spine| ==> spine[i].id != id
    {
      r, k := head, 0;
      while r != null && r.id != id
        invariant 0 <= k <= |spine|
        invariant r == Nth(spine, k)
        invariant forall i :: 0 <= i < k ==> spine[i].id != id
        decreases |spine| - k
      {
        assert LinkedAt(spine, k);
        r := r.next;
        k := k + 1;
      }
    }

    method FindById(id: RoomId) returns (r: Room?, ghost k: nat)
      requires Chain() && Keyed(repr, nodes)
      ensures (r != null) == (id in nodes)
      ensures r != null ==> r == nodes[id] && r.id == id
      ensures r == Nth(spine, k)
    {
      r, k := ScanForId(id);
      assert r != null ==> HeldAt(spine, repr, k) && KeyedAt(nodes, r);
      assert FoundAt(repr, nodes, id);
      assert id in nodes ==> Placed(spine, repr, nodes[id]);
    }

    method ScanForName(name: string) returns (r: Room?, ghost k: nat)
      requires Chain()
      ensures r == Nth(spine, k) && (r != null ==> r.name == name)
      ensures r == null ==> forall i :: 0 <= i < |spine| ==> spine[i].name != name
    {
      r, k := head, 0;
      while r != null && r.name != name
        invariant 0 <= k <= |spine|
        invariant r == Nth(spine, k)
        invariant forall i :: 0 <= i < k ==> spine[i].name != name
        decreases |spine| - k
      {
        assert LinkedAt(spine, k);
        r := r.next;
        k := k + 1;
      }
    }

    lemma NameOf(id: RoomId)
      requires Keyed(repr, nodes) && nodes.Keys == view.rooms.Keys && Valued(repr, view.rooms)
      requires id in nodes
      ensures nodes[id] in repr && view.rooms[id].name == nodes[id].name
    {
      assert FoundAt(repr, nodes, id) && ValuedAt(view.rooms, nodes[id]);
    }

    method FindByName(name: string) returns (r: Room?)
      requires Shape() && NamesDiffer(view)
      ensures (r != null) == Named(view, name).Some?
      ensures r != null ==> r in repr && Named(view, name) == Some(r.id)
    {
      ghost var k;
      r, k := ScanForName(name);
      if r != null {
        assert HeldAt(spine, repr, k) && KeyedAt(nodes, r);
        NameOf(r.id);
        NamedIs(view, r.id);
      } else {
        forall id | id in view.rooms
          ensures view.rooms[id].name != name
        {
          NameOf(id);
          assert Placed(spine, repr, nodes[id]);
        }
      }
    }

    // ----- linking and unlinking ----------------------------------------------------------

    method Append(r: Room)
      requires Chain() && r !in repr && r.prev == null && r.next == null
      modifies this`head, this`spine, this`repr, repr`next, r`prev
      ensures spine == old(spine) + [r] && repr == old(repr) + {r}
      ensures Chain()
    {
      ghost var s := spine;
      if head == null {
        head := r;
      } else {
        var last: Room := head;
        ghost var k := 0;
        while last.next != null
          invariant 0 <= k < |s| && last == s[k]
          decreases |s| - k
        {
          assert LinkedAt(s, k);
          last := last.next;
          k := k + 1;
        }
        assert LinkedAt(s, k);
        last.next := r;
        r.prev := last;
      }
      GrownList(s, repr, r);
      spine, repr := s + [r], repr + {r};
      forall i: nat
        ensures HeldAt(spine, repr, i) && LinkedAt(spine, i)
      {
        assert old(LinkedAt(s, i)) && old(HeldAt(s, repr, i));
        assert i < |s| ==> ApartAt(s, i, |s| - 1);
      }
    }

    // Makes the neighbours of the room at place `k` point past it.
    method Bypass(r: Room, ghost k: nat)
      requires Chain() && k < |spine| && spine[k] == r
      modifies this`head, repr`next, repr`prev
      ensures head == Nth(spine, if k == 0 then 1 else 0)
      ensures forall j :: Skips(spine, k, j)
    {
      assert LinkedAt(spine, k) && HeldAt(spine, repr, k + 1);
      assert k > 0 ==> HeldAt(spine, repr, k - 1);
      var before, after := r.prev, r.next;
      if before != null {
        before.next := after;
      } else {
        head := after;
      }
      if after != null {
        after.prev := before;
      }
      forall j: nat
        ensures Skips(spine, k, j)
      {
        assert old(LinkedAt(spine, j));
        assert k > 0 ==> ApartAt(spine, j, k - 1) && ApartAt(spine, k - 1, j);
        assert ApartAt(spine, j, k + 1) && ApartAt(spine, k + 1, j);
      }
    }

    method Unlink(r: Room, ghost k: nat)
      requires Chain() && k < |spine| && spine[k] == r
      modifies this`head, this`spine, this`repr, repr`next, repr`prev
      ensures spine == Cut(old(spine), k) && repr == old(repr) - {r}
      ensures Chain()
    {
      Bypass(r, k);
      Bridged(spine, k);
      NthCut(spine, k, 0);
      CutList(spine, repr, k);
      spine, repr := Cut(spine, k), repr - {r};
      assert forall i {:trigger LinkedAt(spine, i)} :: HeldAt(spine, repr, i);
    }

    // ----- the commands -------------------------------------------------------------------

    // Sets a client's room pointer.
    method Repoint(c: ClientId, to: Option<Room>)
      requires Shape() && (to.Some? ==> to.value in repr)
      modifies this`current, this`view
      ensures Shape() && current == old(current)[c := to]
      ensures view == old(view).(current := old(view).current[c := if to.Some? then Some(to.value.id) else None])
    {
      Repointed(repr, current, view.current, c, to);
      current := current[c := to];
      view := view.(current := view.current[c := if to.Some? then Some(to.value.id) else None]);
    }

    // Takes a client out of the table.
    method Forget(c: ClientId)
      requires Shape()
      modifies this`current, this`view
      ensures Shape() && current == old(current) - {c} && view == old(view).(current := old(view).current - {c})
    {
      Forgotten(repr, current, view.current, c);
      current := current - {c};
      view := view.(current := view.current - {c});
    }

    // The room counter is the number of live rooms.
    lemma CountsRooms()
      requires Shape()
      ensures roomCount == |view.rooms|
    {
      ListCount(spine, repr);
      KeyCount(repr, nodes);
      assert |nodes.Keys| == |nodes| && |view.rooms.Keys| == |view.rooms|;
    }

    // Writes a record of the room file.
    method Store(id: RoomId, rec: Record)
      requires Shape()
      modifies this`written, this`view, db
      ensures Shape() && view == old(view).(disk := Put(old(view).disk, id, rec))
      ensures old(IsLog(found, written, db.rooms, db.log)) ==> IsLog(found, written, db.rooms, db.log)
    {
      LogWrite(db, found, written, C.Write(id, rec));
      written := written + [C.Write(id, rec)];
      view := view.(disk := Put(view.disk, id, rec));
    }

    // Puts a new room on the list.
    method Insert(r: Room)
      requires Shape() && r !in repr && r.participants !in Arrays(repr) && r.Sized()
      requires r.prev == null && r.next == null && r.id !in nodes
      modifies this`head, this`roomCount, this`spine, this`repr, this`nodes, this`view, repr`next, r`prev
      ensures Shape() && repr == old(repr) + {r}
      ensures view == old(view).(rooms := old(view).rooms[r.id := r.Value()])
    {
      GrownKeyed(repr, nodes, r);
      GrownPointing(repr, current, view.current, r);
      GrownValued(repr, nodes, view.rooms, r);
      ghost var rooms := view.rooms[r.id := r.Value()];
      Append(r);
      roomCount := roomCount + 1;
      nodes := nodes[r.id := r];
      view := view.(rooms := rooms);
    }

    // A new room under a free id, on the list.
    method Open(id: RoomId, name: Name, password: Password)
      requires Shape() && id !in nodes
      modifies this`head, this`roomCount, this`spine, this`repr, this`nodes, this`view, repr`next
      ensures Shape() && view == old(view).(rooms := old(view).rooms[id := R.Room(name, password, [])])
      ensures Grew(old(repr))
    {
      var r := new Room(id, name, password);
      Insert(r);
    }

    // A new room under a free id, on disk and then on the list.
    method Establish(id: RoomId, name: Name, password: Password)
      requires Shape() && id !in nodes
      modifies this, db, repr`next
      ensures Shape() && Grew(old(repr))
      ensures var r := R.Room(name, password, []);
              view == old(view).(rooms := old(view).rooms[id := r], disk := Put(old(view).disk, id, RecordOf(id, r)))
      ensures old(IsLog(found, written, db.rooms, db.log)) ==> IsLog(found, written, db.rooms, db.log)
    {
      Store(id, Record(id, name, password, 1, 0));
      Open(id, name, password);
    }

    method Create(name: Name, password: Password) returns (code: int)
      requires Shape() && R.Inv(view)
      modifies this, db, repr`next
      ensures Shape()
      ensures NextFree(old(view).disk, 0) < 0x8000_0000
      ensures (view, code) == R.Create(old(view), name, password)
      ensures Grew(old(repr))
      ensures old(IsLog(found, written, db.rooms, db.log)) ==> IsLog(found, written, db.rooms, db.log)
    {
      LeastFreeIsSmall(view);
      CountsRooms();
      var taken := FindByName(name);
      if taken != null {
        return -1;
      }
      if roomCount >= MAX_ROOMS {
        return -2;
      }
      var id := db.NextFreeRoomId();
      NextFreeIs(db.rooms, 0, id);
      assert MirroredAt(view, id);
      Establish(id, name, password);
      return id;
    }

    // Takes the room at place `k`, at which nobody points, off the list.
    method Extract(r: Room, ghost k: nat)
      requires Shape() && k < |spine| && spine[k] == r && Unpointed(current, r)
      modifies this`head, this`roomCount, this`spine, this`repr, this`nodes, this`view, repr`prev, repr`next
      ensures Shape() && view == old(view).(rooms := old(view).rooms - {r.id})
      ensures repr == old(repr) - {r}
    {
      assert HeldAt(spine, repr, k);
      ShrunkKeyed(repr, nodes, r);
      ShrunkPointing(repr, current, view.current, r);
      ShrunkValued(repr, nodes, view.rooms, r);
      Unlink(r, k);
      roomCount := roomCount - 1;
      nodes := nodes - {r.id};
      view := view.(rooms := view.rooms - {r.id});
    }

    method DeleteRoom(id: RoomId) returns (code: int)
      requires Shape() && (id in nodes ==> Unpointed(current, nodes[id]))
      modifies this, db, repr`prev, repr`next
      ensures Shape() && view == R.Delete(old(view), id)
      ensures code == if id in old(view).rooms then 1 else 0
      ensures repr <= old(repr)
      ensures old(IsLog(found, written, db.rooms, db.log)) ==> IsLog(found, written, db.rooms, db.log)
    {
      var r, k := FindById(id);
      if r == null {
        return 0;
      }
      Extract(r, k);
      if id < |db.rooms| && db.rooms[id].isActive != 0 {
        Store(id, db.rooms[id].(isActive := 0));
      }
      return 1;
    }

    // Adds a client to a room's participants.
    method Attach(r: Room, c: ClientId)
      requires Shape() && r in repr && r.Sized() && r.count < MAX_CLIENTS
      modifies r`count, r.participants, this`view
      ensures Shape() && r.Sized() && r.count == old(r.count) + 1
      ensures r.id in old(view).rooms && |old(view).rooms[r.id].members| == old(r.count)
      ensures view == old(view).(rooms := old(view).rooms[r.id := Extended(old(view).rooms[r.id], c)])
    {
      Enlist(r, c, repr, nodes, view.rooms);
      view := view.(rooms := view.rooms[r.id := Extended(view.rooms[r.id], c)]);
    }

    // Takes a client out of a room's participants.
    method Detach(r: Room, c: ClientId) returns (found: bool)
      requires Shape() && r in repr
      modifies r`count, r.participants, this`view
      ensures Shape() && r.Sized()
      ensures r.id in old(view).rooms && r.count == |Reduced(old(view).rooms[r.id], c).members|
      ensures view == old(view).(rooms := old(view).rooms[r.id := Reduced(old(view).rooms[r.id], c)])
      ensures found == (c in old(view).rooms[r.id].members)
    {
      found := Delist(r, c, repr, nodes, view.rooms);
      view := view.(rooms := view.rooms[r.id := Reduced(view.rooms[r.id], c)]);
    }

    // Stores a room's number of participants, and deletes the room when there are none.
    method Settle(r: Room)
      requires Shape() && r in repr && r.Sized() && (r.count == 0 ==> Unpointed(current, r))
      modifies this, db, repr`prev, repr`next
      ensures Shape() && repr <= old(repr)
      ensures r.id in old(view).rooms && r.count == |old(view).rooms[r.id].members|
      ensures var s := old(view).(disk := StoreCount(old(view).disk, r.id, r.count));
              view == if r.count == 0 then R.Delete(s, r.id) else s
      ensures old(IsLog(found, written, db.rooms, db.log)) ==> IsLog(found, written, db.rooms, db.log)
    {
      assert ValuedAt(view.rooms, r) && KeyedAt(nodes, r);
      if r.id < |db.rooms| {
        Store(r.id, db.rooms[r.id].(userCount := r.count));
      }
      if r.count == 0 {
        var _ := DeleteRoom(r.id);
      }
    }

    // Takes a client out of the room it points at, its pointer included.
    method Withdraw(r: Room, c: ClientId)
      requires Shape() && r in repr && c in current
      modifies r`count, r.participants, this`view, this`current
      ensures Shape() && r.Sized()
      ensures r.id in old(view).rooms && var v := Reduced(old(view).rooms[r.id], c);
              && r.count == |v.members|
              && view == old(view).(rooms := old(view).rooms[r.id := v], current := view.current)
      ensures if c in old(view).rooms[r.id].members
              then current == old(current)[c := None] && view.current == old(view).current[c := None]
              else current == old(current) && view.current == old(view).current
    {
      var found := Detach(r, c);
      if found {
        Repoint(c, None);
      }
    }

    // Takes a client out of the room it is in, which goes when it was the last one there.
    method GoOut(r: Room, c: ClientId)
      requires Shape() && MembersAgree(view) && c in current && current[c] == Some(r)
      modifies this, db, repr, Arrays(repr)
      ensures Shape() && repr <= old(repr) && r.id in old(view).rooms
      ensures view == TakeOut(old(view), r.id, c).(current := old(view).current[c := None])
      ensures old(IsLog(found, written, db.rooms, db.log)) ==> IsLog(found, written, db.rooms, db.log)
    {
      assert PointsAt(repr, current, view.current, c) && ListedAt(view, r.id, c) && PointsAtLive(view, c);
      ghost var was, s := current, view;
      Withdraw(r, c);
      if r.count == 0 {
        LastOut(repr, was, s, r, c);
      }
      Settle(r);
    }

    method LeaveRoom(c: ClientId) returns (code: int)
      requires Shape() && R.Inv(view) && c in current
      modifies this, db, repr, Arrays(repr)
      ensures Shape() && repr <= old(repr) && c in current
      ensures Linked(old(view), c) && (view, code) == R.Leave(old(view), c)
      ensures old(IsLog(found, written, db.rooms, db.log)) ==> IsLog(found, written, db.rooms, db.log)
    {
      assert PointsAt(repr, current, view.current, c) && PointsAtLive(view, c);
      if current[c].None? {
        return -1;
      }
      var r := current[c].value;
      assert ListedAt(view, r.id, c);
      GoOut(r, c);
      return 0;
    }

    // Adds a client to a room, on the list, in the client and on disk.
    method Admit(r: Room, c: ClientId)
      requires Shape() && r in repr && r.Sized() && r.count < MAX_CLIENTS
      modifies this`current, this`written, this`view, db, r`count, r.participants
      ensures Shape()
      ensures r.id in old(view).rooms && var v := old(view).rooms[r.id];
              && |v.members| == old(r.count)
              && view == old(view).(rooms := old(view).rooms[r.id := v.(members := v.members + [c])],
                                    disk := StoreCount(old(view).disk, r.id, |v.members| + 1),
                                    current := old(view).current[c := Some(r.id)])
      ensures old(IsLog(found, written, db.rooms, db.log)) ==> IsLog(found, written, db.rooms, db.log)
    {
      Attach(r, c);
      Repoint(c, Some(r));
      if r.id < |db.rooms| {
        Store(r.id, db.rooms[r.id].(userCount := r.count));
      }
    }

    // Puts a client that is in no room into a room.
    method Enter(id: RoomId, password: string, c: ClientId) returns (code: int)
      requires Shape() && c in current
      modifies this`current, this`written, this`view, db, repr`count, Arrays(repr)
      ensures Shape()
      ensures (view, code) == R.Enter(old(view), id, password, c)
      ensures old(IsLog(found, written, db.rooms, db.log)) ==> IsLog(found, written, db.rooms, db.log)
    {
      var r, k := FindById(id);
      if r == null {
        return -2;
      }
      assert HeldAt(spine, repr, k) && ValuedAt(view.rooms, r);
      if |r.password| > 0 && r.password != password {
        return -3;
      }
      if r.count >= MAX_CLIENTS {
        return -4;
      }
      Admit(r, c);
      return 0;
    }

    method JoinRoom(id: RoomId, password: string, c: ClientId) returns (code: int)
      requires Shape() && R.Inv(view) && c in current
      modifies this, db, repr, Arrays(repr)
      ensures Shape() && repr <= old(repr)
      ensures Linked(old(view), c) && (view, code) == R.Join(old(view), id, password, c)
      ensures old(IsLog(found, written, db.rooms, db.log)) ==> IsLog(found, written, db.rooms, db.log)
    {
      var _ := LeaveRoom(c);
      code := Enter(id, password, c);
    }

    // Takes a client that is no longer in the table out of the room it was in.
    method TakeAway(r: Room, c: ClientId, ghost was: Pointers, ghost s: R.State)
      requires Shape() && r in repr && current == was - {c} && view == s.(current := s.current - {c})
      requires Pointing(repr, was, s.current) && MembersAgree(s)
      modifies this, db, repr, Arrays(repr)
      ensures Shape() && repr <= old(repr) && r.id in s.rooms
      ensures view == TakeOut(s, r.id, c).(current := s.current - {c})
      ensures old(IsLog(found, written, db.rooms, db.log)) ==> IsLog(found, written, db.rooms, db.log)
    {
      assert ValuedAt(view.rooms, r);
      var _ := Detach(r, c);
      if r.count == 0 {
        LastOut(repr, was, s, r, c);
      }
      Settle(r);
    }

    method DropClient(c: ClientId)
      requires Shape() && R.Inv(view) && c in current
      modifies this, db, repr, Arrays(repr)
      ensures Shape() && repr <= old(repr)
      ensures Linked(old(view), c) && view == R.Disconnect(old(view), c)
      ensures old(IsLog(found, written, db.rooms, db.log)) ==> IsLog(found, written, db.rooms, db.log)
    {
      assert PointsAt(repr, current, view.current, c) && PointsAtLive(view, c);
      var at := current[c];
      ghost var was, s := current, view;
      Forget(c);
      if at.Some? {
        TakeAway(at.value, c, was, s);
      }
    }

    // ----- whole runs ---------------------------------------------------------------------

    // One command, as its handler carries it out.
    method Execute(cmd: R.Command)
      requires Shape() && R.Inv(view) && R.Legal(view, cmd)
      modifies this, db, repr, Arrays(repr)
      ensures Shape() && view == R.Do(old(view), cmd)
      ensures Grew(old(repr))
      ensures old(IsLog(found, written, db.rooms, db.log)) ==> IsLog(found, written, db.rooms, db.log)
    {
      match cmd
      case Connect(c) => Repoint(c, None);
      case CreateRoom(_, name, password) => var _ := Create(name, password);
      case JoinRoom(c, name, password) =>
        var r := FindByName(name);
        if r != null {
          var _ := JoinRoom(r.id, password, c);
        }
      case LeaveRoom(c) => var _ := LeaveRoom(c);
      case Kick(_, target) => var _ := LeaveRoom(target);
      case Drop(c) => DropClient(c);
    }

    // Every run of commands on the heap does what it does to the registry as a value.
    method Serve(run: seq<R.Command>)
      requires Shape() && R.Inv(view) && R.LegalRun(view, run)
      modifies this, db, repr, Arrays(repr)
      ensures Shape() && view == R.After(old(view), run) && R.Inv(view)
      ensures Grew(old(repr))
      ensures old(IsLog(found, written, db.rooms, db.log)) ==> IsLog(found, written, db.rooms, db.log)
      decreases run
    {
      if run != [] {
        CommandKeeps(view, run[0]);
        Execute(run[0]);
        Serve(run[1..]);
      }
    }
  }

  lemma {:induction false} NextFreeIs(f: RoomFile, i: nat, id: nat)
    requires i <= id <= |f| && (id < |f| ==> f[id].isActive == 0)
    requires forall j :: i <= j < id ==> f[j].isActive != 0
    ensures NextFree(f, i) == id
    decreases id - i
  {
    if i < id {
      NextFreeIs(f, i + 1, id);
    }
  }

  // The file and the log are those that the writes leave, one after the other, so the crash
  // theorems speak of them.
  ghost predicate IsLog(found: RoomFile, written: seq<C.Write>, rooms: RoomFile, log: string) {
    rooms == C.RunFile(found, written) && log == CText.Unlines(C.RunTexts(found, written))
  }

  method LogWrite(db: D.Database, ghost found: RoomFile, ghost written: seq<C.Write>, w: C.Write)
    modifies db
    ensures db.rooms == Put(old(db.rooms), w.id, w.rec)
    ensures old(IsLog(found, written, db.rooms, db.log)) ==> IsLog(found, written + [w], db.rooms, db.log)
  {
    WriteLogged(found, written, w);
    var _ := db.WriteRoom(w.id, w.rec, None);
  }

  // One more write of a run, in the file and in the log.
  lemma WriteLogged(f: RoomFile, ws: seq<C.Write>, w: C.Write)
    ensures var prior := ReadRaw(C.RunFile(f, ws), w.id);
            && C.RunFile(f, ws + [w]) == Put(C.RunFile(f, ws), w.id, w.rec)
            && CText.Unlines(C.RunTexts(f, ws + [w])) ==
               CText.Unlines(C.RunTexts(f, ws)) + CText.Unlines(C.TxnTexts(prior, w))
  {
    assert (ws + [w])[..|ws|] == ws;
    CText.UnlinesConcat(C.RunTexts(f, ws), C.TxnTexts(ReadRaw(C.RunFile(f, ws), w.id), w));
  }

  // ----- counting --------------------------------------------------------------------------------

  lemma {:induction false} ListCount(spine: seq<Room>, repr: set<Room>)
    requires Lists(spine, repr) && Apart(spine)
    ensures |repr| == |spine|
  {
    if spine == [] {
      assert forall r | r in repr :: Placed(spine, repr, r);
      assert repr == {};
    } else {
      assert HeldAt(spine, repr, 0);
      CutList(spine, repr, 0);
      assert Cut(spine, 0) == spine[1..];
      ListCount(spine[1..], repr - {spine[0]});
    }
  }

  lemma {:induction false} KeyCount(repr: set<Room>, nodes: map<RoomId, Room>)
    requires Keyed(repr, nodes)
    ensures |nodes.Keys| == |repr|
    decreases repr
  {
    if repr == {} {
      assert forall id | id in nodes :: FoundAt(repr, nodes, id);
      assert nodes.Keys == {};
    } else {
      var r :| r in repr;
      assert KeyedAt(nodes, r);
      ShrunkKeyed(repr, nodes, r);
      KeyCount(repr - {r}, nodes - {r.id});
      assert (nodes - {r.id}).Keys == nodes.Keys - {r.id};
    }
  }

  // ----- adding a room -------------------------------------------------------------------------

  lemma GrownList(spine: seq<Room>, repr: set<Room>, r: Room)
    requires Lists(spine, repr) && Apart(spine) && r !in repr
    ensures Lists(spine + [r], repr + {r}) && Apart(spine + [r])
  {
    var s, p := spine + [r], repr + {r};
    forall i
      ensures HeldAt(s, p, i)
    {
      assert HeldAt(spine, repr, i);
    }
    forall q | q in p
      ensures Placed(s, p, q)
    {
      if q == r {
        assert s[|spine|] == q;
      } else {
        assert Placed(spine, repr, q);
        var i :| 0 <= i < |spine| && spine[i] == q;
        assert s[i] == q;
      }
    }
    forall i, j
      ensures ApartAt(s, i, j)
    {
      assert ApartAt(spine, i, j) && HeldAt(spine, repr, i);
    }
  }

  lemma GrownKeyed(repr: set<Room>, nodes: map<RoomId, Room>, r: Room)
    requires Keyed(repr, nodes) && r.id !in nodes
    ensures Keyed(repr + {r}, nodes[r.id := r])
  {
    var p, n := repr + {r}, nodes[r.id := r];
    forall q | q in p
      ensures KeyedAt(n, q)
    {
      assert q in repr ==> KeyedAt(nodes, q);
    }
    forall id
      ensures FoundAt(p, n, id)
    {
      assert FoundAt(repr, nodes, id);
    }
  }

  lemma GrownPointing(repr: set<Room>, current: Pointers, places: Places, r: Room)
    requires Pointing(repr, current, places)
    ensures Pointing(repr + {r}, current, places)
  {
    var p := repr + {r};
    forall c
      ensures PointsAt(p, current, places, c)
    {
      assert PointsAt(repr, current, places, c);
    }
  }

  lemma GrownValued(repr: set<Room>, nodes: map<RoomId, Room>, rooms: map<RoomId, R.Room>, r: Room)
    requires Valued(repr, rooms) && Keyed(repr, nodes) && r.id !in nodes && nodes.Keys == rooms.Keys && r.Sized()
    requires Unshared(repr) && r.participants !in Arrays(repr)
    ensures Valued(repr + {r}, rooms[r.id := r.Value()]) && Unshared(repr + {r})
  {
    var p, rooms' := repr + {r}, rooms[r.id := r.Value()];
    forall q | q in p
      ensures ValuedAt(rooms', q)
    {
      assert q in repr ==> ValuedAt(rooms, q) && KeyedAt(nodes, q);
    }
    forall x, y | x in p && y in p
      ensures OwnArray(x, y)
    {
      assert x in repr && y in repr ==> OwnArray(x, y);
    }
  }

  lemma Repointed(repr: set<Room>, current: Pointers, places: Places,
                  c: ClientId, to: Option<Room>)
    requires Pointing(repr, current, places) && (to.Some? ==> to.value in repr)
    ensures Pointing(repr, current[c := to], places[c := if to.Some? then Some(to.value.id) else None])
  {
    var current', places' := current[c := to], places[c := if to.Some? then Some(to.value.id) else None];
    forall x
      ensures PointsAt(repr, current', places', x)
    {
      assert PointsAt(repr, current, places, x);
    }
  }

  lemma Forgotten(repr: set<Room>, current: Pointers, places: Places, c: ClientId)
    requires Pointing(repr, current, places)
    ensures Pointing(repr, current - {c}, places - {c})
  {
    var current', places' := current - {c}, places - {c};
    forall x
      ensures PointsAt(repr, current', places', x)
    {
      assert PointsAt(repr, current, places, x);
    }
  }

  // ----- taking a room away ------------------------------------------------------------------------

  ghost predicate Unpointed(current: Pointers, r: Room) {
    forall c :: c in current ==> current[c] != Some(r)
  }

  // Once its last participant is gone, nobody points at a room.
  lemma LastOut(repr: set<Room>, current: Pointers, s: R.State, r: Room, c: ClientId)
    requires Pointing(repr, current, s.current) && MembersAgree(s)
    requires r.id in s.rooms && Reduced(s.rooms[r.id], c).members == []
    ensures Unpointed(current[c := None], r) && Unpointed(current - {c}, r)
  {
    forall x | x in current && x != c
      ensures current[x] != Some(r)
    {
      assert PointsAt(repr, current, s.current, x) && ListedAt(s, r.id, x) && ListedOnce(s, r.id);
      WithoutRemoves(s.rooms[r.id].members, c);
      assert x !in Without(s.rooms[r.id].members, c);
    }
  }

  lemma ShrunkKeyed(repr: set<Room>, nodes: map<RoomId, Room>, r: Room)
    requires Keyed(repr, nodes) && r in repr
    ensures Keyed(repr - {r}, nodes - {r.id})
  {
    var p, n := repr - {r}, nodes - {r.id};
    assert KeyedAt(nodes, r);
    forall q | q in p
      ensures KeyedAt(n, q)
    {
      assert KeyedAt(nodes, q);
    }
    forall id
      ensures FoundAt(p, n, id)
    {
      assert FoundAt(repr, nodes, id);
    }
  }

  lemma ShrunkPointing(repr: set<Room>, current: Pointers, places: Places, r: Room)
    requires Pointing(repr, current, places) && Unpointed(current, r)
    ensures Pointing(repr - {r}, current, places)
  {
    var p := repr - {r};
    forall c
      ensures PointsAt(p, current, places, c)
    {
      assert PointsAt(repr, current, places, c);
    }
  }

  lemma ShrunkValued(repr: set<Room>, nodes: map<RoomId, Room>, rooms: map<RoomId, R.Room>, r: Room)
    requires Keyed(repr, nodes) && Valued(repr, rooms) && r in repr
    ensures Valued(repr - {r}, rooms - {r.id})
  {
    var p, rooms' := repr - {r}, rooms - {r.id};
    assert KeyedAt(nodes, r) && ValuedAt(rooms, r);
    forall q | q in p
      ensures ValuedAt(rooms', q)
    {
      assert ValuedAt(rooms, q) && KeyedAt(nodes, q);
    }
  }

  ghost function Cut(s: seq<Room>, k: nat): seq<Room>
    requires k < |s|
  {
    s[..k] + s[k + 1..]
  }

  lemma NthCut(s: seq<Room>, k: nat, i: int)
    requires k < |s|
    ensures Nth(Cut(s, k), i) == if i < k then Nth(s, i) else Nth(s, i + 1)
  {
  }

  // The place in `s` of what is at place `i` once place `k` is cut out.
  function Past(k: nat, i: nat): nat {
    if i < k then i else i + 1
  }

  lemma CutList(s: seq<Room>, repr: set<Room>, k: nat)
    requires k < |s| && Apart(s) && Lists(s, repr)
    ensures Apart(Cut(s, k)) && Lists(Cut(s, k), repr - {s[k]})
  {
    var s', p := Cut(s, k), repr - {s[k]};
    forall i
      ensures HeldAt(s', p, i)
    {
      assert HeldAt(s, repr, Past(k, i));
      assert ApartAt(s, Past(k, i), k) && ApartAt(s, k, Past(k, i));
    }
    forall r | r in p
      ensures Placed(s', p, r)
    {
      assert Placed(s, repr, r);
      var i :| 0 <= i < |s| && s[i] == r;
      assert r == s'[if i < k then i else i - 1];
    }
    forall i, j
      ensures ApartAt(s', i, j)
    {
      assert ApartAt(s, Past(k, i), Past(k, j));
    }
  }

  // What the links of place `j` are once they skip place `k`.
  ghost predicate Skips(s: seq<Room>, k: nat, j: nat)
    reads Here(s, j)`prev, Here(s, j)`next
  {
    j < |s| && j != k ==>
      && s[j].prev == (if j == k + 1 then Nth(s, k - 1) else Nth(s, j - 1))
      && s[j].next == (if j + 1 == k then Nth(s, k + 1) else Nth(s, j + 1))
  }

  lemma BridgedAt(s: seq<Room>, k: nat, i: nat)
    requires k < |s| && Skips(s, k, Past(k, i))
    ensures LinkedAt(Cut(s, k), i)
  {
    NthCut(s, k, i - 1);
    NthCut(s, k, i);
    NthCut(s, k, i + 1);
  }

  // A list whose links skip place `k` is linked once that place is cut out.
  lemma Bridged(s: seq<Room>, k: nat)
    requires k < |s|
    requires forall j :: Skips(s, k, j)
    ensures forall i :: LinkedAt(Cut(s, k), i)
  {
    forall i: nat
      ensures LinkedAt(Cut(s, k), i)
    {
      assert Skips(s, k, Past(k, i));
      BridgedAt(s, k, i);
    }
  }
}
