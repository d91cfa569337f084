/**
 What the account commands answer and change, told from the users file and the session table
 alone: who can log in with which password, now and at the end of any run.
 */
module Credentials {
  import opened Common
  import opened Auth

  // Record `i` is an active one with this name.
  predicate NamedAt(users: seq<User>, i: nat, name: string) {
    i < |users| && users[i].active && users[i].username == name
  }

  ghost predicate Taken(users: seq<User>, name: string) {
    exists i: nat :: NamedAt(users, i, name)
  }

  // Record `i` is an active one with this name and this password hash.
  predicate LoginAt(users: seq<User>, i: nat, name: string, digest: Digest) {
    NamedAt(users, i, name) && users[i].hash == digest
  }

  // The role codes of the protocol.
  function Code(role: string): int {
    if role == "ADMIN" then 1 else if role == "MODERATOR" then 2 else 3
  }

  lemma TakenIff(users: seq<User>, name: string)
    ensures Known(users, name) <==> Taken(users, name)
  {
    if Known(users, name) {
      assert NamedAt(users, Find(users, name, 0), name);
    }
    if i: nat :| NamedAt(users, i, name) {
      assert Matches(users[i], name);
    }
  }

  // Active names are unique, so the record found is the only one with the name.
  lemma OnlyOne(users: seq<User>, name: string, i: nat)
    requires Unique(users) && NamedAt(users, i, name)
    ensures Find(users, name, 0) == i
  {
    var k := Find(users, name, 0);
    assert Matches(users[i], name);
    assert NamesDifferAt(users, i, k) && NamesDifferAt(users, k, i);
  }

  /**
   A login is accepted if and only if an active record has this name and the hash of this
   password, and it is given that record's role.
   */
  lemma AuthenticateIff(h: Hash, users: seq<User>, name: string, password: string)
    requires Unique(users)
    ensures Authenticate(h, users, name, password).Some? <==> exists i: nat :: LoginAt(users, i, name, h(password))
    ensures forall i: nat :: LoginAt(users, i, name, h(password)) ==>
              Authenticate(h, users, name, password) == Some(Code(users[i].role))
  {
    forall i: nat | NamedAt(users, i, name)
      ensures Find(users, name, 0) == i
    {
      OnlyOne(users, name, i);
    }
    if Known(users, name) {
      assert NamedAt(users, Find(users, name, 0), name);
    }
    if Authenticate(h, users, name, password).Some? {
      assert LoginAt(users, Find(users, name, 0), name, h(password));
    }
  }

  // ----- sessions --------------------------------------------------------------------------------

  // Everything but the session at this slot is as it was.
  predicate OnlySession(s: State, s': State, slot: nat) {
    && s'.users == s.users && |s'.table| == |s.table|
    && forall k :: 0 <= k < |s.table| && k != slot ==> s'.table[k] == s.table[k]
  }

  predicate IsGuest(s: State, slot: nat) {
    slot < |s.table| && s.table[slot].Some? && !s.table[slot].value.loggedIn
  }

  // What LOGIN asks of the client, the arguments and the file.
  ghost predicate LoginIsRight(h: Hash, s: State, slot: nat, name: string, password: string) {
    IsGuest(s, slot) && name != "" && password != "" && exists i: nat :: LoginAt(s.users, i, name, h(password))
  }

  /**
   LOGIN changes something if and only if the client is not logged in yet and name and password
   are right. It then gives that client, and no other, the name and the record's role.
   */
  lemma LoginOutcome(h: Hash, s: State, slot: nat, name: string, password: string)
    requires Unique(s.users)
    ensures var s' := Do(h, s, DoLogin(slot, name, password));
            && OnlySession(s, s', slot)
            && (s' != s <==> LoginIsRight(h, s, slot, name, password))
            && (forall i: nat :: LoginIsRight(h, s, slot, name, password) && LoginAt(s.users, i, name, h(password)) ==>
                  slot < |s'.table| && s'.table[slot] == Some(Session(true, name, Code(s.users[i].role))))
  {
    AuthenticateIff(h, s.users, name, password);
  }

  // LOGOUT, connecting and disconnecting change that client's session, and no other.
  lemma SessionOutcome(h: Hash, s: State, slot: nat)
    ensures var s' := Do(h, s, DoLogout(slot));
            && OnlySession(s, s', slot)
            && (slot < |s.table| ==>
                  s'.table[slot] == if s.table[slot].Some? && s.table[slot].value.loggedIn
                                    then Some(Session(false, "", 4)) else s.table[slot])
    ensures var s' := Do(h, s, Connect(slot));
            && OnlySession(s, s', slot)
            && (slot < |s.table| ==>
                  s'.table[slot] == if s.table[slot].None? then Some(Session(false, "", 4)) else s.table[slot])
    ensures var s' := Do(h, s, Disconnect(slot));
            OnlySession(s, s', slot) && (slot < |s.table| ==> s'.table[slot] == None)
  {
  }

  // ----- registration --------------------------------------------------------------------------------

  // The places of the active records.
  ghost function ActiveAt(users: seq<User>): set<nat> {
    set i: nat | i < |users| && users[i].active
  }

  lemma {:induction false} CountActiveIs(users: seq<User>)
    ensures CountActive(users) == |ActiveAt(users)|
  {
    if users != [] {
      var init, n := users[..|users| - 1], |users| - 1;
      CountActiveIs(init);
      assert ActiveAt(users) == ActiveAt(init) + if users[n].active then {n as nat} else {};
    } else {
      assert ActiveAt(users) == {};
    }
  }

  ghost predicate MayRegister(s: State, slot: nat, name: string, password: string) {
    IsGuest(s, slot) && name != "" && password != "" && !Taken(s.users, name)
  }

  /**
   REGISTER adds one record at the end, for a client that is not logged in and a name not taken:
   a plain user with that name and the hash of that password. Otherwise nothing changes.
   */
  lemma RegisterOutcome(h: Hash, s: State, slot: nat, name: string, password: string)
    ensures var s' := Do(h, s, DoRegister(slot, name, password));
            && s'.table == s.table
            && s'.users == if MayRegister(s, slot, name, password)
                           then s.users + [User(|ActiveAt(s.users)|, name, "USER", h(password), true)]
                           else s.users
  {
    TakenIff(s.users, name);
    CountActiveIs(s.users);
  }

  // Who can log in once a user is added: the new one with its password, everyone else as before.
  lemma AddedCanLogIn(h: Hash, users: seq<User>, name: string, password: string, who: string, attempt: string)
    requires !Known(users, name)
    ensures Authenticate(h, AddUser(h, users, name, password, "USER").0, who, attempt) ==
            if who == name then if h(attempt) == h(password) then Some(3) else None
            else Authenticate(h, users, who, attempt)
  {
    var users' := AddUser(h, users, name, password, "USER").0;
    assert forall j | 0 <= j < |users| :: users'[j] == users[j];
    if who == name {
      FindIs(users', name, 0, |users|);
    } else if Known(users, who) {
      FindIs(users', who, 0, Find(users, who, 0));
    } else {
      FindIs(users', who, 0, |users'|);
    }
  }

  // ----- promotion -------------------------------------------------------------------------------------

  lemma LowerOfUpper(a: string, b: string)
    requires Upper(a) == b && forall i :: 0 <= i < |b| ==> 'A' <= b[i] <= 'Z'
    ensures SameIgnoringCase(a, b)
  {
    forall i | 0 <= i < |a|
      ensures LowerChar(a[i]) == LowerChar(b[i])
    {
      assert b[i] == UpperChar(a[i]);
    }
  }

  // A role is accepted in whatever case it is spelt, and no other word is.
  lemma RoleNameIff(role: string)
    ensures RoleName(role) <==> Upper(role) in {"ADMIN", "MODERATOR", "USER"}
  {
    if RoleName(role) {
      RoleNamesAreThree(role);
    } else if Upper(role) == "ADMIN" {
      LowerOfUpper(role, "ADMIN");
    } else if Upper(role) == "MODERATOR" {
      LowerOfUpper(role, "MODERATOR");
    } else if Upper(role) == "USER" {
      LowerOfUpper(role, "USER");
    }
  }

  lemma RoleSpellings()
    ensures Upper("moderator") == "MODERATOR" && Upper("AdMiN") == "ADMIN" && Upper("USER") == "USER"
    ensures !RoleName("GUEST") && !RoleName("ROOT")
  {
    RoleNameIff("GUEST");
    RoleNameIff("ROOT");
    assert Upper("GUEST")[0] == 'G' && Upper("ROOT")[0] == 'R';
  }

  // What PROMOTE asks of the client and the arguments.
  ghost predicate PromotionIsRight(s: State, slot: nat, target: string, role: string) {
    && slot < |s.table| && s.table[slot].Some? && s.table[slot].value.loggedIn && s.table[slot].value.role == 1
    && target != "" && Upper(role) in {"ADMIN", "MODERATOR", "USER"}
  }

  lemma MayPromoteIff(s: State, slot: nat, target: string, role: string)
    ensures MayPromote(s, slot, target, role) <==> PromotionIsRight(s, slot, target, role)
  {
    RoleNameIff(role);
    assert role == "" ==> Upper(role) == "";
  }

  /**
   PROMOTE takes effect if and only if it comes from a client logged in as ADMIN, names a user and
   one of the three roles. It then sets that record's role and that of the user's sessions, and
   changes nothing else.
   */
  lemma PromoteOutcome(h: Hash, s: State, slot: nat, target: string, role: string, i: nat)
    requires Unique(s.users) && NamedAt(s.users, i, target)
    ensures var s' := Do(h, s, DoPromote(slot, target, role));
            if PromotionIsRight(s, slot, target, role) then
              && s'.users == s.users[i := s.users[i].(role := Upper(role))]
              && |s'.table| == |s.table|
              && forall k :: 0 <= k < |s.table| ==>
                   s'.table[k] == if s.table[k].Some? && s.table[k].value.username == target
                                  then Some(s.table[k].value.(role := Code(Upper(role)))) else s.table[k]
            else s' == s
  {
    MayPromoteIff(s, slot, target, role);
    OnlyOne(s.users, target, i);
  }

  // Nobody is promoted under a name nobody has.
  lemma PromoteNobody(h: Hash, s: State, slot: nat, target: string, role: string)
    requires !Taken(s.users, target)
    ensures Do(h, s, DoPromote(slot, target, role)) == s
  {
    TakenIff(s.users, target);
  }

  // ----- passwords over whole runs -----------------------------------------------------------------------

  // Name, hash and activity of a record never change.
  predicate SameAccount(u: User, v: User) {
    u.username == v.username && u.hash == v.hash && u.active == v.active
  }

  lemma AccountStep(h: Hash, s: State, cmd: Command, i: nat)
    requires i < |s.users|
    ensures i < |Do(h, s, cmd).users| && SameAccount(s.users[i], Do(h, s, cmd).users[i])
  {
  }

  lemma {:induction false} AccountKept(h: Hash, s: State, run: seq<Command>, k: nat, i: nat)
    requires k <= |run| && i < |After(h, s, run[..k]).users|
    ensures i < |After(h, s, run).users| && SameAccount(After(h, s, run[..k]).users[i], After(h, s, run).users[i])
  {
    if k == |run| {
      assert run[..k] == run;
    } else {
      var init := run[..|run| - 1];
      assert init[..k] == run[..k];
      AccountKept(h, s, init, k, i);
      AccountStep(h, After(h, s, init), run[|run| - 1], i);
    }
  }

  /**
   Whoever registers can log in from then on, to the end of any run, exactly with a password of
   the same hash.
   */
  lemma RegisteredLogsIn(h: Hash, s: State, run: seq<Command>, k: nat, attempt: string)
    requires Inv(s) && k < |run| && run[k].DoRegister?
    requires MayRegister(After(h, s, run[..k]), run[k].slot, run[k].name, run[k].password)
    ensures Authenticate(h, After(h, s, run).users, run[k].name, attempt).Some? <==> h(attempt) == h(run[k].password)
  {
    var before, cmd := After(h, s, run[..k]), run[k];
    var i := |before.users|;
    RegisterOutcome(h, before, cmd.slot, cmd.name, cmd.password);
    assert run[..k + 1][..k] == run[..k] && run[..k + 1][k] == cmd;
    AccountKept(h, s, run, k + 1, i);
    RunKeeps(h, s, run);
    var users := After(h, s, run).users;
    AuthenticateIff(h, users, cmd.name, attempt);
    assert NamedAt(users, i, cmd.name);
    OnlyOne(users, cmd.name, i);
    if j: nat :| LoginAt(users, j, cmd.name, h(attempt)) {
      OnlyOne(users, cmd.name, j);
    }
    assert h(attempt) == h(cmd.password) ==> LoginAt(users, i, cmd.name, h(attempt));
  }

  // A user that was in the file from the start keeps its password.
  lemma FoundUserLogsIn(h: Hash, s: State, run: seq<Command>, name: string, i: nat, attempt: string)
    requires Inv(s) && NamedAt(s.users, i, name)
    ensures Authenticate(h, After(h, s, run).users, name, attempt).Some? <==> h(attempt) == s.users[i].hash
  {
    AccountKept(h, s, run, 0, i);
    RunKeeps(h, s, run);
    var users := After(h, s, run).users;
    AuthenticateIff(h, users, name, attempt);
    assert NamedAt(users, i, name);
    if j: nat :| LoginAt(users, j, name, h(attempt)) {
      OnlyOne(users, name, i);
      OnlyOne(users, name, j);
    }
    assert h(attempt) == s.users[i].hash ==> LoginAt(users, i, name, h(attempt));
  }

  // The seeded administrator logs in exactly with a password of the hash of "admin123".
  lemma AdminLogsIn(h: Hash, slots: nat, run: seq<Command>, attempt: string)
    ensures Authenticate(h, After(h, Opened(Seeded(h), slots), run).users, "admin", attempt).Some? <==>
            h(attempt) == h("admin123")
  {
    var s := Opened(Seeded(h), slots);
    RolesAreCached(h, Seeded(h), slots, []);
    assert NamedAt(s.users, 0, "admin");
    FoundUserLogsIn(h, s, run, "admin", 0, attempt);
  }

  // ----- permissions ------------------------------------------------------------------------------------

  // Which commands a role may give, role by role.
  lemma PermissionTable(role: int)
    ensures CheckPermission(role, Promote) <==> role == 1
    ensures forall op :: op in {Opcode.Create, Opcode.Kick, Opcode.Mute} ==>
              (CheckPermission(role, op) <==> role == 1 || role == 2)
    ensures forall op :: op in {Opcode.Login, Opcode.Logout, Opcode.Join, Opcode.Leave, Opcode.List, Opcode.Status} ==>
              CheckPermission(role, op)
    ensures !CheckPermission(role, Other)
  {
  }
}
