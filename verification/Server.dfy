/**
 The command handlers over sessions and rooms together: who may create rooms, kick and mute.
 A client is named by its slot. Each command is one atomic step.
 */
module Server {
  import opened Common
  import opened Wal
  import opened RegistryOutcome
  import A = Auth
  import C = Credentials
  import R = Registry

  // Arguments are as `sscanf` leaves them: cut to the field, empty where one is missing.
  type Word = s: string | |s| <= 31
  type LongWord = s: string | |s| <= 63

  datatype State = State(auth: A.State, reg: R.State, muted: set<nat>)

  datatype Request =
    | Connect(slot: nat)
    | Disconnect(slot: nat)
    | Register(slot: nat, name: Word, password: LongWord)
    | Login(slot: nat, name: Word, password: LongWord)
    | Logout(slot: nat)
    | Promote(slot: nat, target: Word, role: string)
    | Create(slot: nat, name: Word, password: LongWord)
    | Join(slot: nat, name: Word, password: LongWord)
    | Leave(slot: nat)
    | Kick(slot: nat, target: Word)
    | Mute(slot: nat, target: Word)

  // ----- the invariant ---------------------------------------------------------------------------

  // The session table and the registry know the same clients, and who is in a room is logged in.
  predicate Agrees(s: State, slot: nat) {
    && (slot in s.reg.current <==> A.Connected(s.auth, slot))
    && (slot in s.reg.current && s.reg.current[slot].Some? ==> A.LoggedIn(s.auth, slot))
    && (slot in s.muted ==> A.Connected(s.auth, slot))
  }

  ghost predicate Inv(s: State) {
    && A.Inv(s.auth) && R.Inv(s.reg) && |s.auth.table| == MAX_CLIENTS
    && forall slot :: Agrees(s, slot)
  }

  // ----- the handlers ------------------------------------------------------------------------------

  // The check at the head of CREATE, KICK and MUTE.
  predicate MayGive(s: State, slot: nat, op: A.Opcode) {
    A.LoggedIn(s.auth, slot) && A.CheckPermission(s.auth.table[slot].value.role, op)
  }

  predicate HasName(s: State, slot: nat, name: string) {
    A.Connected(s.auth, slot) && s.auth.table[slot].value.username == name
  }

  // The first of these clients with this user name.
  function FirstNamed(s: State, members: seq<nat>, name: string): Option<nat> {
    if members == [] then None
    else if HasName(s, members[0], name) then Some(members[0])
    else FirstNamed(s, members[1..], name)
  }

  // Whom a KICK or MUTE means: the first participant of the client's own room with that name.
  function Target(s: State, slot: nat, name: string): Option<nat> {
    if slot in s.reg.current && s.reg.current[slot].Some? && s.reg.current[slot].value in s.reg.rooms && name != ""
    then FirstNamed(s, s.reg.rooms[s.reg.current[slot].value].members, name)
    else None
  }

  lemma {:induction false} FirstNamedIs(s: State, members: seq<nat>, name: string)
    ensures FirstNamed(s, members, name).Some? <==> exists m :: m in members && HasName(s, m, name)
    ensures FirstNamed(s, members, name).Some? ==>
              FirstNamed(s, members, name).value in members && HasName(s, FirstNamed(s, members, name).value, name)
  {
    if members != [] {
      FirstNamedIs(s, members[1..], name);
      assert members == [members[0]] + members[1..];
    }
  }

  // The target shares the client's room.
  lemma TargetShares(s: State, slot: nat, name: string)
    requires Inv(s) && Target(s, slot, name).Some?
    ensures var t := Target(s, slot, name).value;
            && t in s.reg.current && s.reg.current[slot].Some? && s.reg.current[t] == s.reg.current[slot]
            && HasName(s, t, name)
  {
    var id := s.reg.current[slot].value;
    FirstNamedIs(s, s.reg.rooms[id].members, name);
    assert R.ListedAt(s.reg, id, Target(s, slot, name).value);
  }

  lemma RoomForMore(s: State, slot: nat)
    requires Inv(s) && slot < MAX_CLIENTS && s.auth.table[slot].None?
    ensures slot !in s.reg.current && |s.reg.current| < MAX_CLIENTS
  {
    assert Agrees(s, slot);
    SlotsCount(MAX_CLIENTS);
    var others := Slots(MAX_CLIENTS) - {slot};
    forall k | k in s.reg.current
      ensures k in others
    {
      assert Agrees(s, k);
    }
    R.SubsetCount(s.reg.current.Keys, others);
    assert |s.reg.current.Keys| == |s.reg.current|;
  }

  ghost function Slots(n: nat): set<nat> {
    if n == 0 then {} else Slots(n - 1) + {n - 1}
  }

  lemma {:induction false} SlotsCount(n: nat)
    ensures |Slots(n)| == n && forall i: nat :: i in Slots(n) <==> i < n
  {
    if n > 0 {
      SlotsCount(n - 1);
    }
  }

  // The room command a request comes to once its handler lets it through.
  ghost function RoomCommand(s: State, req: Request): Option<R.Command> {
    match req
    case Connect(slot) =>
      if slot < |s.auth.table| && s.auth.table[slot].None? then Some(R.Connect(slot)) else None
    case Disconnect(slot) => if A.Connected(s.auth, slot) then Some(R.Drop(slot)) else None
    case Logout(slot) => if A.LoggedIn(s.auth, slot) then Some(R.LeaveRoom(slot)) else None
    case Create(slot, name, password) =>
      if MayGive(s, slot, A.Opcode.Create) && name != "" then Some(R.CreateRoom(slot, name, password)) else None
    case Join(slot, name, password) =>
      if A.LoggedIn(s.auth, slot) && name != "" then Some(R.JoinRoom(slot, name, password)) else None
    case Leave(slot) => if A.LoggedIn(s.auth, slot) then Some(R.LeaveRoom(slot)) else None
    case Kick(slot, target) =>
      if MayGive(s, slot, A.Opcode.Kick) && Target(s, slot, target).Some?
      then Some(R.Kick(slot, Target(s, slot, target).value)) else None
    case _ => None
  }

  // What a request does to sessions and users file.
  function AuthCommand(req: Request): Option<A.Command> {
    match req
    case Connect(slot) => Some(A.Connect(slot))
    case Disconnect(slot) => Some(A.Disconnect(slot))
    case Register(slot, name, password) => Some(A.DoRegister(slot, name, password))
    case Login(slot, name, password) => Some(A.DoLogin(slot, name, password))
    case Logout(slot) => Some(A.DoLogout(slot))
    case Promote(slot, target, role) => Some(A.DoPromote(slot, target, role))
    case _ => None
  }

  function Toggled(muted: set<nat>, t: nat): set<nat> {
    if t in muted then muted - {t} else muted + {t}
  }

  function MutedAfter(s: State, req: Request): set<nat> {
    match req
    case Disconnect(slot) => s.muted - {slot}
    case Mute(slot, target) =>
      if MayGive(s, slot, A.Opcode.Mute) && Target(s, slot, target).Some?
      then Toggled(s.muted, Target(s, slot, target).value) else s.muted
    case _ => s.muted
  }

  lemma RoomCommandLegal(s: State, req: Request)
    requires Inv(s) && RoomCommand(s, req).Some?
    ensures R.Legal(s.reg, RoomCommand(s, req).value)
  {
    assert Agrees(s, req.slot);
    match req {
      case Connect(slot) => RoomForMore(s, slot);
      case Kick(slot, target) => TargetShares(s, slot, target);
      case _ =>
    }
  }

  ghost function Do(h: A.Hash, s: State, req: Request): State
    requires Inv(s)
  {
    var auth := if AuthCommand(req).Some? then A.Do(h, s.auth, AuthCommand(req).value) else s.auth;
    var reg := if RoomCommand(s, req).Some?
               then RoomCommandLegal(s, req); R.Do(s.reg, RoomCommand(s, req).value) else s.reg;
    State(auth, reg, MutedAfter(s, req))
  }

  // ----- every request keeps the invariant ----------------------------------------------------------

  // What a room command does to the pointer of a client.
  lemma PointerStep(s: R.State, cmd: R.Command, slot: nat)
    requires R.Inv(s) && R.Legal(s, cmd)
    ensures slot in R.Do(s, cmd).current <==>
            (slot in s.current || (cmd.Connect? && cmd.c == slot)) && !(cmd.Drop? && cmd.c == slot)
    ensures slot in s.current && slot in R.Do(s, cmd).current && R.Do(s, cmd).current[slot] != s.current[slot] ==>
              || (cmd.JoinRoom? && cmd.c == slot)
              || (cmd.LeaveRoom? && cmd.c == slot && R.Do(s, cmd).current[slot] == None)
              || (cmd.Kick? && cmd.target == slot && R.Do(s, cmd).current[slot] == None)
    ensures slot !in s.current && slot in R.Do(s, cmd).current ==> R.Do(s, cmd).current[slot] == None
    ensures cmd.LeaveRoom? && cmd.c == slot ==> slot in R.Do(s, cmd).current && R.Do(s, cmd).current[slot] == None
  {
    match cmd {
      case Connect(c) => ConnectOutcome(s, c);
      case CreateRoom(c, name, password) => R.CreateKeeps(s, name, password);
      case JoinRoom(c, name, password) =>
        if id :| id in s.rooms && s.rooms[id].name == name {
          JoinRoomOutcome(s, c, name, password);
        } else {
          JoinRoomOutcome(s, c, name, password);
        }
      case LeaveRoom(c) => LeaveOutcome(s, c, 0);
      case Kick(c, target) => KickOutcome(s, c, target, 0);
      case Drop(c) => DropOutcome(s, c, 0);
    }
  }

  // What an account command does to a session.
  lemma SessionStep(h: A.Hash, s: A.State, cmd: A.Command, slot: nat)
    ensures |A.Do(h, s, cmd).table| == |s.table|
    ensures A.Connected(A.Do(h, s, cmd), slot) <==>
            (A.Connected(s, slot) || (cmd.Connect? && cmd.slot == slot && slot < |s.table|))
            && !(cmd.Disconnect? && cmd.slot == slot)
    ensures A.LoggedIn(s, slot) && A.Connected(A.Do(h, s, cmd), slot) && !(cmd.DoLogout? && cmd.slot == slot) ==>
              A.LoggedIn(A.Do(h, s, cmd), slot)
  {
  }

  lemma AgreesStep(h: A.Hash, s: State, req: Request, slot: nat)
    requires Inv(s)
    ensures Agrees(Do(h, s, req), slot)
  {
    assert Agrees(s, slot) && Agrees(s, req.slot);
    if AuthCommand(req).Some? {
      SessionStep(h, s.auth, AuthCommand(req).value, slot);
    }
    if RoomCommand(s, req).Some? {
      RoomCommandLegal(s, req);
      PointerStep(s.reg, RoomCommand(s, req).value, slot);
    }
    if req.Mute? && Target(s, req.slot, req.target).Some? {
      TargetShares(s, req.slot, req.target);
      assert Agrees(s, Target(s, req.slot, req.target).value);
    }
  }

  lemma StepKeeps(h: A.Hash, s: State, req: Request)
    requires Inv(s)
    ensures Inv(Do(h, s, req))
  {
    var s' := Do(h, s, req);
    if AuthCommand(req).Some? {
      A.CommandKeeps(h, s.auth, AuthCommand(req).value);
      SessionStep(h, s.auth, AuthCommand(req).value, 0);
    }
    if RoomCommand(s, req).Some? {
      RoomCommandLegal(s, req);
      R.CommandKeeps(s.reg, RoomCommand(s, req).value);
    }
    forall slot: nat
      ensures Agrees(s', slot)
    {
      AgreesStep(h, s, req, slot);
    }
  }

  ghost function After(h: A.Hash, s: State, run: seq<Request>): (r: State)
    requires Inv(s)
    ensures Inv(r)
  {
    if run == [] then s
    else
      StepKeeps(h, After(h, s, run[..|run| - 1]), run[|run| - 1]);
      Do(h, After(h, s, run[..|run| - 1]), run[|run| - 1])
  }

  // The server as it starts over a users file and a room file.
  ghost predicate Starts(s: State, users: seq<A.User>, f: RoomFile) {
    s == State(A.Opened(users, MAX_CLIENTS), R.Start(f), {}) && A.Unique(users) && R.Fits(f)
  }

  lemma StartHolds(s: State, users: seq<A.User>, f: RoomFile)
    requires Starts(s, users, f)
    ensures Inv(s)
  {
    R.StartHolds(f);
  }

  // ----- privilege -------------------------------------------------------------------------------------

  // The client is logged in as ADMIN or MODERATOR.
  predicate Privileged(s: State, slot: nat) {
    && slot < |s.auth.table| && s.auth.table[slot].Some? && s.auth.table[slot].value.loggedIn
    && (s.auth.table[slot].value.role == 1 || s.auth.table[slot].value.role == 2)
  }

  lemma MayGiveIff(s: State, slot: nat)
    ensures MayGive(s, slot, A.Opcode.Create) <==> Privileged(s, slot)
    ensures MayGive(s, slot, A.Opcode.Kick) <==> Privileged(s, slot)
    ensures MayGive(s, slot, A.Opcode.Mute) <==> Privileged(s, slot)
  {
    if A.LoggedIn(s.auth, slot) {
      C.PermissionTable(s.auth.table[slot].value.role);
    }
  }

  // CREATE, KICK and MUTE of anyone else are refused: nothing at all changes.
  lemma RefusedWithoutPrivilege(h: A.Hash, s: State, req: Request)
    requires Inv(s) && (req.Create? || req.Kick? || req.Mute?) && !Privileged(s, req.slot)
    ensures Do(h, s, req) == s
  {
    MayGiveIff(s, req.slot);
  }

  /**
   A privileged client is not refused: CREATE makes the room wherever name and number allow.
   */
  lemma CreateByPrivileged(h: A.Hash, s: State, slot: nat, name: Word, password: LongWord)
    requires Inv(s) && Privileged(s, slot) && name != ""
    requires (forall id :: id in s.reg.rooms ==> s.reg.rooms[id].name != name) && |s.reg.rooms| < 32
    ensures exists id: RoomId :: id !in s.reg.rooms &&
              Do(h, s, Create(slot, name, password)).reg.rooms == s.reg.rooms[id := R.Room(name, password, [])]
  {
    MayGiveIff(s, slot);
    RoomCommandLegal(s, Create(slot, name, password));
    CreateRoomOutcome(s.reg, slot, name, password);
  }

  // This client is the one a KICK or MUTE by `slot` means: a participant of the same room with
  // that user name, and no participant before it has it.
  ghost predicate Meant(s: State, slot: nat, name: string, t: nat) {
    && name != "" && slot in s.reg.current && s.reg.current[slot].Some? && s.reg.current[slot].value in s.reg.rooms
    && var m := s.reg.rooms[s.reg.current[slot].value].members;
       exists i :: 0 <= i < |m| && m[i] == t && HasName(s, t, name) &&
                   forall j :: 0 <= j < i ==> !HasName(s, m[j], name)
  }

  lemma {:induction false} FirstNamedAt(s: State, m: seq<nat>, name: string, i: nat)
    requires i < |m| && HasName(s, m[i], name) && forall j :: 0 <= j < i ==> !HasName(s, m[j], name)
    ensures FirstNamed(s, m, name) == Some(m[i])
  {
    if i > 0 {
      FirstNamedAt(s, m[1..], name, i - 1);
    }
  }

  lemma {:induction false} FirstNamedPlace(s: State, m: seq<nat>, name: string) returns (i: nat)
    requires FirstNamed(s, m, name).Some?
    ensures i < |m| && m[i] == FirstNamed(s, m, name).value && HasName(s, m[i], name)
    ensures forall j :: 0 <= j < i ==> !HasName(s, m[j], name)
  {
    if HasName(s, m[0], name) {
      i := 0;
    } else {
      var k := FirstNamedPlace(s, m[1..], name);
      i := k + 1;
      assert forall j | 0 < j < i :: m[j] == m[1..][j - 1];
    }
  }

  lemma TargetIff(s: State, slot: nat, name: string, t: nat)
    ensures Target(s, slot, name) == Some(t) <==> Meant(s, slot, name, t)
  {
    if Target(s, slot, name) == Some(t) {
      var i := FirstNamedPlace(s, s.reg.rooms[s.reg.current[slot].value].members, name);
    }
    if Meant(s, slot, name, t) {
      var m := s.reg.rooms[s.reg.current[slot].value].members;
      var i :| 0 <= i < |m| && m[i] == t && HasName(s, t, name) && forall j :: 0 <= j < i ==> !HasName(s, m[j], name);
      FirstNamedAt(s, m, name, i);
    }
  }

  /**
   KICK by a privileged client takes out the participant it means, and nobody else.
   */
  lemma KickByPrivileged(h: A.Hash, s: State, slot: nat, name: Word, t: nat)
    requires Inv(s) && Privileged(s, slot) && Meant(s, slot, name, t)
    ensures Do(h, s, Kick(slot, name)).reg.current == s.reg.current[t := None]
    ensures Do(h, s, Kick(slot, name)).auth == s.auth && Do(h, s, Kick(slot, name)).muted == s.muted
  {
    MayGiveIff(s, slot);
    TargetIff(s, slot, name, t);
    RoomCommandLegal(s, Kick(slot, name));
    KickOutcome(s.reg, slot, t, 0);
  }

  // MUTE by a privileged client mutes the participant it means, or unmutes it.
  lemma MuteByPrivileged(h: A.Hash, s: State, slot: nat, name: Word, t: nat)
    requires Inv(s) && Privileged(s, slot) && Meant(s, slot, name, t)
    ensures var s' := Do(h, s, Mute(slot, name));
            && s'.auth == s.auth && s'.reg == s.reg && (t in s'.muted <==> t !in s.muted)
            && forall x :: x != t ==> (x in s'.muted <==> x in s.muted)
  {
    MayGiveIff(s, slot);
    TargetIff(s, slot, name, t);
  }

  // ----- what the other requests come to ---------------------------------------------------------------

  // LOGIN lets in whoever gives the right name and password, and moves nobody.
  lemma LoginRequest(h: A.Hash, s: State, slot: nat, name: Word, password: LongWord, i: nat)
    requires Inv(s) && C.IsGuest(s.auth, slot) && name != "" && password != "" && C.NamedAt(s.auth.users, i, name)
    ensures var s' := Do(h, s, Login(slot, name, password));
            && s'.reg == s.reg && s'.muted == s.muted
            && if h(password) == s.auth.users[i].hash
               then s'.auth.table == s.auth.table[slot := Some(A.Session(true, name, C.Code(s.auth.users[i].role)))]
               else s'.auth == s.auth
  {
    C.LoginOutcome(h, s.auth, slot, name, password);
    C.AuthenticateIff(h, s.auth.users, name, password);
    if j: nat :| C.LoginAt(s.auth.users, j, name, h(password)) {
      C.OnlyOne(s.auth.users, name, i);
      C.OnlyOne(s.auth.users, name, j);
    }
    assert h(password) == s.auth.users[i].hash ==> C.LoginAt(s.auth.users, i, name, h(password));
  }

  // REGISTER and PROMOTE do to the users file what they say, and move nobody.
  lemma AccountRequest(h: A.Hash, s: State, slot: nat, name: Word, password: LongWord, role: string)
    requires Inv(s)
    ensures var s' := Do(h, s, Register(slot, name, password));
            s' == State(A.Do(h, s.auth, A.DoRegister(slot, name, password)), s.reg, s.muted)
    ensures var s' := Do(h, s, Promote(slot, name, role));
            s' == State(A.Do(h, s.auth, A.DoPromote(slot, name, role)), s.reg, s.muted)
  {
  }

  // LOGOUT takes a client that is logged in out of its room and makes it a guest.
  lemma LogoutRequest(h: A.Hash, s: State, slot: nat)
    requires Inv(s) && A.LoggedIn(s.auth, slot)
    ensures var s' := Do(h, s, Logout(slot));
            && s'.reg.current == s.reg.current[slot := None]
            && s'.auth.table == s.auth.table[slot := Some(A.Session(false, "", 4))]
  {
    assert Agrees(s, slot);
    LeaveOutcome(s.reg, slot, 0);
    C.SessionOutcome(h, s.auth, slot);
  }

  // LEAVE takes a client that is logged in out of its room.
  lemma LeaveRequest(h: A.Hash, s: State, slot: nat)
    requires Inv(s) && A.LoggedIn(s.auth, slot)
    ensures Do(h, s, Leave(slot)).reg.current == s.reg.current[slot := None] && Do(h, s, Leave(slot)).auth == s.auth
  {
    assert Agrees(s, slot);
    LeaveOutcome(s.reg, slot, 0);
  }

  // JOIN takes a client that is logged in to the room with the name, where that admits it.
  lemma JoinRequest(h: A.Hash, s: State, slot: nat, name: Word, password: LongWord, id: RoomId)
    requires Inv(s) && A.LoggedIn(s.auth, slot) && name != ""
    requires id in s.reg.rooms && s.reg.rooms[id].name == name
    ensures var s' := Do(h, s, Join(slot, name, password));
            && slot in s.reg.current && s'.auth == s.auth
            && s'.reg.current == s.reg.current[slot := if Admits(s.reg, id, password, slot) then Some(id) else None]
  {
    assert Agrees(s, slot);
    JoinRoomOutcome(s.reg, slot, name, password);
  }

  // A client that is not logged in can neither join nor leave.
  lemma GuestsStayOut(h: A.Hash, s: State, req: Request)
    requires Inv(s) && !A.LoggedIn(s.auth, req.slot) && (req.Join? || req.Leave? || req.Logout?)
    ensures Do(h, s, req) == s
  {
  }

  // A connection takes a free slot, and a disconnection frees it, everywhere.
  lemma ConnectionRequest(h: A.Hash, s: State, slot: nat)
    requires Inv(s) && slot < 50
    ensures s.auth.table[slot].None? ==>
              var s' := Do(h, s, Connect(slot));
              && s'.auth.table == s.auth.table[slot := Some(A.Session(false, "", 4))]
              && s'.reg.current == s.reg.current[slot := None]
    ensures s.auth.table[slot].Some? ==>
              var s' := Do(h, s, Disconnect(slot));
              && s'.auth.table == s.auth.table[slot := None]
              && s'.reg.current == s.reg.current - {slot} && s'.muted == s.muted - {slot}
  {
    assert Agrees(s, slot);
    C.SessionOutcome(h, s.auth, slot);
    if s.auth.table[slot].None? {
      RoomForMore(s, slot);
      ConnectOutcome(s.reg, slot);
    } else {
      DropOutcome(s.reg, slot, 0);
    }
  }

  // ----- whole runs ------------------------------------------------------------------------------------

  // Request `k` of the run is a CREATE of this room, by a client that was then privileged.
  ghost predicate CreatedAt(h: A.Hash, s: State, run: seq<Request>, k: nat, name: string, password: string)
    requires Inv(s)
  {
    && k < |run| && run[k].Create? && run[k].name == name && run[k].password == password
    && Privileged(After(h, s, run[..k]), run[k].slot)
  }

  // A live room has kept its name and password, or has just been created.
  lemma RoomStep(h: A.Hash, s: State, req: Request, id: RoomId)
    requires Inv(s) && id in Do(h, s, req).reg.rooms
    ensures var r := Do(h, s, req).reg.rooms[id];
            || (id in s.reg.rooms && r.name == s.reg.rooms[id].name && r.password == s.reg.rooms[id].password)
            || (req.Create? && req.name == r.name && req.password == r.password && Privileged(s, req.slot))
  {
    if RoomCommand(s, req).Some? {
      RoomCommandLegal(s, req);
      MayGiveIff(s, req.slot);
      match RoomCommand(s, req).value {
        case Connect(c) => ConnectOutcome(s.reg, c);
        case CreateRoom(c, name, password) => CreateRoomOutcome(s.reg, c, name, password);
        case JoinRoom(c, name, password) => JoinKeepsRoom(s.reg, c, name, password, id);
        case LeaveRoom(c) => LeaveOutcome(s.reg, c, id);
        case Kick(c, target) => KickOutcome(s.reg, c, target, id);
        case Drop(c) => DropOutcome(s.reg, c, id);
      }
    }
  }

  /**
   Every live room of every run was created, under its name and with its password, by a client
   that was then logged in as ADMIN or MODERATOR.
   */
  lemma {:induction false} RoomsAreCreatedByPrivileged(h: A.Hash, s: State, run: seq<Request>, id: RoomId)
    requires Inv(s) && s.reg.rooms == map[] && id in After(h, s, run).reg.rooms
    ensures exists k: nat ::
              CreatedAt(h, s, run, k, After(h, s, run).reg.rooms[id].name, After(h, s, run).reg.rooms[id].password)
  {
    var init, req := run[..|run| - 1], run[|run| - 1];
    var before := After(h, s, init);
    var r := After(h, s, run).reg.rooms[id];
    RoomStep(h, before, req, id);
    if id in before.reg.rooms && r.name == before.reg.rooms[id].name && r.password == before.reg.rooms[id].password {
      RoomsAreCreatedByPrivileged(h, s, init, id);
      var k: nat :| CreatedAt(h, s, init, k, r.name, r.password);
      assert init[..k] == run[..k];
      assert CreatedAt(h, s, run, k, r.name, r.password);
    } else {
      assert CreatedAt(h, s, run, |run| - 1, r.name, r.password);
    }
  }

  // Client `t` is taken out of the room it is in by this request.
  ghost predicate TakenOut(h: A.Hash, s: State, req: Request, t: nat)
    requires Inv(s)
  {
    && t in s.reg.current && s.reg.current[t].Some?
    && t in Do(h, s, req).reg.current && Do(h, s, req).reg.current[t] != s.reg.current[t]
  }

  lemma KickStep(h: A.Hash, s: State, req: Request, t: nat)
    requires Inv(s) && TakenOut(h, s, req, t)
    ensures || (req.slot == t && (req.Join? || req.Leave? || req.Logout?))
            || (req.Kick? && Privileged(s, req.slot) && Meant(s, req.slot, req.target, t))
  {
    RoomCommandLegal(s, req);
    PointerStep(s.reg, RoomCommand(s, req).value, t);
    MayGiveIff(s, req.slot);
    if req.Kick? {
      TargetIff(s, req.slot, req.target, t);
    }
  }

  // This request mutes the client or unmutes it.
  ghost predicate Switched(h: A.Hash, s: State, req: Request, t: nat)
    requires Inv(s)
  {
    (t in Do(h, s, req).muted) != (t in s.muted)
  }

  lemma MuteStep(h: A.Hash, s: State, req: Request, t: nat)
    requires Inv(s) && Switched(h, s, req, t)
    ensures || (req.Disconnect? && req.slot == t)
            || (req.Mute? && Privileged(s, req.slot) && Meant(s, req.slot, req.target, t))
  {
    MayGiveIff(s, req.slot);
    if req.Mute? {
      TargetIff(s, req.slot, req.target, t);
    }
  }

  /**
   In every run, a client that is taken out of its room without asking for it was kicked by a
   client that was then in the same room and logged in as ADMIN or MODERATOR, by its user name.
   And only such a client mutes anyone.
   */
  lemma KicksAndMutesAreByPrivileged(h: A.Hash, s: State, run: seq<Request>, k: nat, t: nat)
    requires Inv(s) && k < |run|
    ensures var before := After(h, s, run[..k]);
            TakenOut(h, before, run[k], t) ==>
              || (run[k].slot == t && (run[k].Join? || run[k].Leave? || run[k].Logout?))
              || (run[k].Kick? && Privileged(before, run[k].slot) && Meant(before, run[k].slot, run[k].target, t))
    ensures var before := After(h, s, run[..k]);
            Switched(h, before, run[k], t) ==>
              || (run[k].Disconnect? && run[k].slot == t)
              || (run[k].Mute? && Privileged(before, run[k].slot) && Meant(before, run[k].slot, run[k].target, t))
  {
    var before := After(h, s, run[..k]);
    if TakenOut(h, before, run[k], t) {
      KickStep(h, before, run[k], t);
    }
    if Switched(h, before, run[k], t) {
      MuteStep(h, before, run[k], t);
    }
  }

  // The role a client acts with is the one the users file gives its user.
  lemma PrivilegeIsTheFiles(s: State, slot: nat) returns (i: nat)
    requires Inv(s) && Privileged(s, slot)
    ensures C.NamedAt(s.auth.users, i, s.auth.table[slot].value.username)
    ensures s.auth.users[i].role == "ADMIN" || s.auth.users[i].role == "MODERATOR"
  {
    assert A.CachedAt(s.auth, slot);
    i := A.Find(s.auth.users, s.auth.table[slot].value.username, 0);
  }
}
