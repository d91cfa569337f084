/**
 Users and roles: the users file, the sessions of connected clients, and the commands that
 change them. Each command is one atomic step. A session's role is a cache of the file's.
 */
module Auth {
  import opened Common

  const ADMIN: int := 1
  const MODERATOR: int := 2
  const USER: int := 3
  const GUEST: int := 4

  // The 64 hexadecimal digits of a password hash.
  type Digest = d: seq<bv8> | |d| == 64 witness seq(64, _ => 0)

  datatype User = User(id: int, username: string, role: string, hash: Digest, active: bool)

  // A connected client. Nobody is logged in under the empty name.
  datatype Session = Session(loggedIn: bool, username: string, role: int)

  type Hash = string -> Digest

  // ----- the users file ------------------------------------------------------------------------

  predicate Matches(u: User, name: string) {
    u.active && u.username == name
  }

  // The first active record with a name, or the end of the file.
  function Find(users: seq<User>, name: string, i: nat): (k: nat)
    requires i <= |users|
    ensures i <= k <= |users| && (k < |users| ==> Matches(users[k], name))
    ensures forall j :: i <= j < k ==> !Matches(users[j], name)
    decreases |users| - i
  {
    if i == |users| || Matches(users[i], name) then i else Find(users, name, i + 1)
  }

  predicate Known(users: seq<User>, name: string) {
    Find(users, name, 0) < |users|
  }

  // Any role that is not one of the two privileged ones counts as USER.
  function RoleCode(role: string): int {
    if role == "ADMIN" then ADMIN else if role == "MODERATOR" then MODERATOR else USER
  }

  // The role the file gives a user.
  function FileRole(users: seq<User>, name: string): int
    requires Known(users, name)
  {
    RoleCode(users[Find(users, name, 0)].role)
  }

  // `auth_authenticate`: the user's role where name and password are right.
  function Authenticate(h: Hash, users: seq<User>, name: string, password: string): Option<int> {
    if Known(users, name) && h(password) == users[Find(users, name, 0)].hash then Some(FileRole(users, name)) else None
  }

  function CountActive(users: seq<User>): nat {
    if users == [] then 0 else CountActive(users[..|users| - 1]) + if users[|users| - 1].active then 1 else 0
  }

  // `auth_add_user`: false and nothing changed where the name is taken.
  function AddUser(h: Hash, users: seq<User>, name: string, password: string, role: string): (seq<User>, bool) {
    if Known(users, name) then (users, false)
    else (users + [User(CountActive(users), name, role, h(password), true)], true)
  }

  // `auth_promote_user`: false and nothing changed where there is no such user.
  function PromoteUser(users: seq<User>, name: string, role: string): (seq<User>, bool) {
    var k := Find(users, name, 0);
    if k < |users| then (users[k := users[k].(role := role)], true) else (users, false)
  }

  // ----- permissions -----------------------------------------------------------------------------

  datatype Opcode = Login | Logout | Create | Join | Leave | List | Kick | Mute | Status | Promote | Other

  // `auth_check_permission`
  predicate CheckPermission(role: int, command: Opcode) {
    match command
    case Login | Logout | Join | Leave | List | Status => true
    case Promote => role == ADMIN
    case Create | Kick | Mute => role == ADMIN || role == MODERATOR
    case Other => false
  }

  // How privileged a role is.
  function Rank(role: int): nat {
    if role == ADMIN then 2 else if role == MODERATOR then 1 else 0
  }

  // A more privileged role may do whatever a less privileged one may.
  lemma PermissionsGrow(a: int, b: int, command: Opcode)
    requires Rank(a) <= Rank(b) && CheckPermission(a, command)
    ensures CheckPermission(b, command)
  {
  }

  // ----- role names --------------------------------------------------------------------------------

  function UpperChar(c: char): char {
    if 'a' <= c <= 'z' then c - 32 as char else c
  }

  function LowerChar(c: char): char {
    if 'A' <= c <= 'Z' then c + 32 as char else c
  }

  function Upper(s: string): string {
    seq(|s|, i requires 0 <= i < |s| => UpperChar(s[i]))
  }

  // `strcasecmp(a, b) == 0`
  predicate SameIgnoringCase(a: string, b: string) {
    |a| == |b| && forall i :: 0 <= i < |a| ==> LowerChar(a[i]) == LowerChar(b[i])
  }

  predicate RoleName(role: string) {
    SameIgnoringCase(role, "MODERATOR") || SameIgnoringCase(role, "USER") || SameIgnoringCase(role, "ADMIN")
  }

  lemma UpperOfSame(a: string, b: string)
    requires SameIgnoringCase(a, b) && forall i :: 0 <= i < |b| ==> 'A' <= b[i] <= 'Z'
    ensures Upper(a) == b
  {
    forall i | 0 <= i < |a|
      ensures Upper(a)[i] == b[i]
    {
      assert LowerChar(a[i]) == LowerChar(b[i]);
    }
  }

  // A role name that passes the check is stored in one of three spellings.
  lemma RoleNamesAreThree(role: string)
    requires RoleName(role)
    ensures Upper(role) in {"ADMIN", "MODERATOR", "USER"}
  {
    if SameIgnoringCase(role, "MODERATOR") {
      UpperOfSame(role, "MODERATOR");
    } else if SameIgnoringCase(role, "USER") {
      UpperOfSame(role, "USER");
    } else {
      UpperOfSame(role, "ADMIN");
    }
  }

  // ----- the commands ---------------------------------------------------------------------------------

  // `table` has a place for every client slot.
  datatype State = State(users: seq<User>, table: seq<Option<Session>>)

  // Arguments are as `sscanf` leaves them: the empty string where one is missing.
  datatype Command =
    | Connect(slot: nat)
    | Disconnect(slot: nat)
    | DoRegister(slot: nat, name: string, password: string)
    | DoLogin(slot: nat, name: string, password: string)
    | DoLogout(slot: nat)
    | DoPromote(slot: nat, target: string, role: string)

  predicate Connected(s: State, slot: nat) {
    slot < |s.table| && s.table[slot].Some?
  }

  predicate LoggedIn(s: State, slot: nat) {
    Connected(s, slot) && s.table[slot].value.loggedIn
  }

  function Register(h: Hash, s: State, slot: nat, name: string, password: string): State {
    if !Connected(s, slot) || LoggedIn(s, slot) || name == "" || password == "" then s
    else s.(users := AddUser(h, s.users, name, password, "USER").0)
  }

  function LogIn(h: Hash, s: State, slot: nat, name: string, password: string): State {
    if !Connected(s, slot) || LoggedIn(s, slot) || name == "" || password == "" then s
    else
      var role := Authenticate(h, s.users, name, password);
      if role.None? then s else s.(table := s.table[slot := Some(Session(true, name, role.value))])
  }

  function LogOut(s: State, slot: nat): State {
    if !LoggedIn(s, slot) then s else s.(table := s.table[slot := Some(Session(false, "", GUEST))])
  }

  // Gives every connected client with this name a role.
  function Refreshed(table: seq<Option<Session>>, name: string, role: int): (t: seq<Option<Session>>)
    ensures |t| == |table|
  {
    seq(|table|, i requires 0 <= i < |table| => RefreshedOne(table[i], name, role))
  }

  function RefreshedOne(c: Option<Session>, name: string, role: int): Option<Session> {
    if c.Some? && c.value.username == name then Some(c.value.(role := role)) else c
  }

  // Whether a PROMOTE gets as far as the users file.
  predicate MayPromote(s: State, slot: nat, target: string, role: string) {
    && LoggedIn(s, slot) && CheckPermission(s.table[slot].value.role, Promote)
    && target != "" && role != "" && RoleName(role)
  }

  function PromoteBy(s: State, slot: nat, target: string, role: string): State {
    if !MayPromote(s, slot, target, role) then s
    else
      var (users, ok) := PromoteUser(s.users, target, Upper(role));
      if ok then State(users, Refreshed(s.table, target, RoleCode(Upper(role)))) else s
  }

  function Do(h: Hash, s: State, cmd: Command): State {
    match cmd
    case Connect(slot) =>
      if slot < |s.table| && s.table[slot].None? then s.(table := s.table[slot := Some(Session(false, "", GUEST))])
      else s
    case Disconnect(slot) => if Connected(s, slot) then s.(table := s.table[slot := None]) else s
    case DoRegister(slot, name, password) => Register(h, s, slot, name, password)
    case DoLogin(slot, name, password) => LogIn(h, s, slot, name, password)
    case DoLogout(slot) => LogOut(s, slot)
    case DoPromote(slot, target, role) => PromoteBy(s, slot, target, role)
  }

  // The state after a run, command by command.
  function After(h: Hash, s: State, run: seq<Command>): State {
    if run == [] then s else Do(h, After(h, s, run[..|run| - 1]), run[|run| - 1])
  }

  // ----- the invariant -----------------------------------------------------------------------------------

  // Two active records never have the same name.
  predicate NamesDifferAt(users: seq<User>, i: nat, j: nat) {
    i < j < |users| && users[i].active && users[j].active ==> users[i].username != users[j].username
  }

  ghost predicate Unique(users: seq<User>) {
    forall i, j :: NamesDifferAt(users, i, j)
  }

  // A client that is logged in has the role the file gives its user; another one has no name.
  predicate CachedAt(s: State, slot: nat) {
    Connected(s, slot) ==>
      var c := s.table[slot].value;
      if c.loggedIn then c.username != "" && Known(s.users, c.username) && c.role == FileRole(s.users, c.username)
      else c.username == "" && c.role == GUEST
  }

  ghost predicate Inv(s: State) {
    Unique(s.users) && forall slot :: CachedAt(s, slot)
  }

  // Finding the only record that matches.
  lemma {:induction false} FindIs(users: seq<User>, name: string, i: nat, k: nat)
    requires i <= k <= |users| && (k < |users| ==> Matches(users[k], name))
    requires forall j :: i <= j < k ==> !Matches(users[j], name)
    ensures Find(users, name, i) == k
    decreases k - i
  {
    if i < k {
      FindIs(users, name, i + 1, k);
    }
  }

  lemma AddedUser(h: Hash, users: seq<User>, name: string, password: string, role: string, other: string)
    requires !Known(users, name) && Known(users, other)
    ensures var users' := AddUser(h, users, name, password, role).0;
            Known(users', other) && FileRole(users', other) == FileRole(users, other)
  {
    FindIs(AddUser(h, users, name, password, role).0, other, 0, Find(users, other, 0));
  }

  lemma AddedUnique(h: Hash, users: seq<User>, name: string, password: string, role: string)
    requires Unique(users) && !Known(users, name)
    ensures Unique(AddUser(h, users, name, password, role).0)
  {
    var users' := AddUser(h, users, name, password, role).0;
    forall i: nat, j: nat
      ensures NamesDifferAt(users', i, j)
    {
      assert NamesDifferAt(users, i, j);
      assert i < |users| ==> !Matches(users[i], name);
    }
  }

  lemma PromotedUser(users: seq<User>, name: string, role: string, other: string)
    requires Known(users, name) && Known(users, other)
    ensures var users' := PromoteUser(users, name, role).0;
            && Known(users', other)
            && FileRole(users', other) == if other == name then RoleCode(role) else FileRole(users, other)
  {
    FindIs(PromoteUser(users, name, role).0, other, 0, Find(users, other, 0));
  }

  lemma PromotedUnique(users: seq<User>, name: string, role: string)
    requires Unique(users)
    ensures Unique(PromoteUser(users, name, role).0)
  {
    var users' := PromoteUser(users, name, role).0;
    forall i: nat, j: nat
      ensures NamesDifferAt(users', i, j)
    {
      assert NamesDifferAt(users, i, j);
    }
  }

  lemma RegisterKeeps(h: Hash, s: State, slot: nat, name: string, password: string)
    requires Inv(s)
    ensures Inv(Register(h, s, slot, name, password))
  {
    var s' := Register(h, s, slot, name, password);
    if s' != s {
      AddedUnique(h, s.users, name, password, "USER");
      forall k: nat
        ensures CachedAt(s', k)
      {
        assert CachedAt(s, k);
        if LoggedIn(s, k) {
          AddedUser(h, s.users, name, password, "USER", s.table[k].value.username);
        }
      }
    }
  }

  lemma PromoteKeeps(s: State, slot: nat, target: string, role: string)
    requires Inv(s)
    ensures Inv(PromoteBy(s, slot, target, role))
  {
    var s' := PromoteBy(s, slot, target, role);
    if s' != s {
      PromotedUnique(s.users, target, Upper(role));
      forall k: nat
        ensures CachedAt(s', k)
      {
        assert CachedAt(s, k);
        if LoggedIn(s, k) {
          PromotedUser(s.users, target, Upper(role), s.table[k].value.username);
        }
      }
    }
  }

  lemma CommandKeeps(h: Hash, s: State, cmd: Command)
    requires Inv(s)
    ensures Inv(Do(h, s, cmd))
  {
    var s' := Do(h, s, cmd);
    match cmd {
      case DoRegister(slot, name, password) => RegisterKeeps(h, s, slot, name, password);
      case DoPromote(slot, target, role) => PromoteKeeps(s, slot, target, role);
      case _ =>
        assert s'.users == s.users;
        forall k: nat
          ensures CachedAt(s', k)
        {
          assert CachedAt(s, k);
        }
    }
  }

  lemma {:induction false} RunKeeps(h: Hash, s: State, run: seq<Command>)
    requires Inv(s)
    ensures Inv(After(h, s, run))
  {
    if run != [] {
      RunKeeps(h, s, run[..|run| - 1]);
      CommandKeeps(h, After(h, s, run[..|run| - 1]), run[|run| - 1]);
    }
  }

  // The server as it starts over a users file: nobody is connected.
  function Opened(users: seq<User>, slots: nat): State {
    State(users, seq(slots, _ => None))
  }

  // The file as it is first created: one administrator.
  function Seeded(h: Hash): seq<User> {
    [User(0, "admin", "ADMIN", h("admin123"), true)]
  }

  /**
   After every run over a file with unique active names, such as the seeded one, active names are
   unique and every session has the role the users file gives its user.
   */
  lemma RolesAreCached(h: Hash, users: seq<User>, slots: nat, run: seq<Command>)
    requires Unique(users) || users == Seeded(h)
    ensures Inv(After(h, Opened(users, slots), run))
  {
    assert Inv(Opened(users, slots));
    RunKeeps(h, Opened(users, slots), run);
  }

  // ----- where roles come from --------------------------------------------------------------------------

  // Command `k` of the run is a PROMOTE that takes effect on record `i`: it comes from a client
  // that is then logged in as ADMIN, names a valid role, and finds this record.
  ghost predicate Effective(h: Hash, s: State, run: seq<Command>, k: nat, i: nat) {
    && k < |run| && run[k].DoPromote?
    && var before := After(h, s, run[..k]);
    && MayPromote(before, run[k].slot, run[k].target, run[k].role)
    && i < |before.users| && Find(before.users, run[k].target, 0) == i
  }

  ghost predicate LastEffective(h: Hash, s: State, run: seq<Command>, k: nat, i: nat) {
    Effective(h, s, run, k, i) && forall m: nat :: k < m ==> !Effective(h, s, run, m, i)
  }

  // The role a record has before any PROMOTE: its own in the file, or that of a registration.
  function FirstRole(s: State, i: nat): string {
    if i < |s.users| then s.users[i].role else "USER"
  }

  lemma EffectivePrefix(h: Hash, s: State, run: seq<Command>, k: nat, i: nat)
    requires k < |run| - 1
    ensures Effective(h, s, run, k, i) <==> Effective(h, s, run[..|run| - 1], k, i)
  {
    assert run[..|run| - 1][..k] == run[..k];
  }

  // What one command does to the record at place `i`.
  lemma RecordStep(h: Hash, s: State, cmd: Command, i: nat)
    requires i < |Do(h, s, cmd).users|
    ensures Do(h, s, cmd).users[i].role ==
            if i >= |s.users| then "USER"
            else if cmd.DoPromote? && MayPromote(s, cmd.slot, cmd.target, cmd.role) && Find(s.users, cmd.target, 0) == i
            then Upper(cmd.role)
            else s.users[i].role
    ensures |Do(h, s, cmd).users| >= |s.users|
  {
  }

  lemma {:induction false} FileGrows(h: Hash, s: State, run: seq<Command>, k: nat)
    requires k <= |run|
    ensures |After(h, s, run[..k]).users| <= |After(h, s, run).users|
  {
    if k == |run| {
      assert run[..k] == run;
    } else {
      var init := run[..|run| - 1];
      FileGrows(h, s, init, k);
      assert init[..k] == run[..k];
      assert |After(h, s, init).users| <= |Do(h, After(h, s, init), run[|run| - 1]).users|;
    }
  }

  // A record that is not yet in the file cannot have been promoted.
  lemma NotYetEffective(h: Hash, s: State, run: seq<Command>, k: nat, i: nat)
    requires run != [] && i >= |After(h, s, run[..|run| - 1]).users|
    ensures !Effective(h, s, run, k, i)
  {
    if k < |run| {
      FileGrows(h, s, run[..|run| - 1], k);
      assert run[..|run| - 1][..k] == run[..k];
    }
  }

  // The role of a record is the one given by the last PROMOTE that took effect on it, or its
  // first one where none did.
  ghost predicate AsGranted(h: Hash, s: State, run: seq<Command>, i: nat, role: string) {
    || (exists k: nat :: LastEffective(h, s, run, k, i) && role == Upper(run[k].role))
    || ((forall k: nat :: !Effective(h, s, run, k, i)) && role == FirstRole(s, i))
  }

  lemma UntouchedHistory(h: Hash, s: State, run: seq<Command>, i: nat, role: string)
    requires run != [] && AsGranted(h, s, run[..|run| - 1], i, role) && !Effective(h, s, run, |run| - 1, i)
    ensures AsGranted(h, s, run, i, role)
  {
    var init := run[..|run| - 1];
    forall k: nat
      ensures Effective(h, s, run, k, i) <==> Effective(h, s, init, k, i)
    {
      if k < |run| - 1 {
        EffectivePrefix(h, s, run, k, i);
      }
    }
    if k: nat :| LastEffective(h, s, init, k, i) && role == Upper(init[k].role) {
      assert LastEffective(h, s, run, k, i);
    }
  }

  /**
   The exact history of every role in the users file, over every run: that of the last PROMOTE
   by an administrator that took effect on the record, else the one it came with.
   */
  lemma {:induction false} RoleHistory(h: Hash, s: State, run: seq<Command>, i: nat)
    requires i < |After(h, s, run).users|
    ensures AsGranted(h, s, run, i, After(h, s, run).users[i].role)
  {
    if run != [] {
      var init, cmd := run[..|run| - 1], run[|run| - 1];
      var before := After(h, s, init);
      RecordStep(h, before, cmd, i);
      if i >= |before.users| {
        FileGrows(h, s, init, 0);
        forall k: nat
          ensures !Effective(h, s, run, k, i)
        {
          NotYetEffective(h, s, run, k, i);
        }
      } else if Effective(h, s, run, |run| - 1, i) {
        assert LastEffective(h, s, run, |run| - 1, i);
      } else {
        RoleHistory(h, s, init, i);
        UntouchedHistory(h, s, run, i, before.users[i].role);
      }
    }
  }

  // From the seeded file on, every privileged role but the administrator's first was granted.
  lemma SeededProvenance(h: Hash, slots: nat, run: seq<Command>, i: nat)
    requires i < |After(h, Opened(Seeded(h), slots), run).users|
    requires var u := After(h, Opened(Seeded(h), slots), run).users[i];
             RoleCode(u.role) != USER && !(i == 0 && u.role == "ADMIN")
    ensures exists k: nat :: LastEffective(h, Opened(Seeded(h), slots), run, k, i)
  {
    RoleHistory(h, Opened(Seeded(h), slots), run, i);
  }

  // Nobody but the administrator is privileged, in the file or in a session.
  ghost predicate Plain(s: State) {
    && |s.users| > 0 && s.users[0].username == "admin" && s.users[0].active
    && (forall i :: 0 < i < |s.users| ==> RoleCode(s.users[i].role) == USER)
    && (forall i :: 0 <= i < |s.table| && s.table[i].Some? ==> s.table[i].value.role in {USER, GUEST})
  }

  lemma PlainStep(h: Hash, s: State, cmd: Command)
    requires Plain(s) && (cmd.DoLogin? ==> cmd.name != "admin")
    ensures Plain(Do(h, s, cmd))
  {
    var s' := Do(h, s, cmd);
    assert cmd.DoPromote? ==> s' == s;
    assert cmd.DoRegister? ==> s'.table == s.table;
  }

  /**
   All privilege descends from the administrator's account: while nobody asks to log in under
   that name, nobody is ever more than a plain user.
   */
  lemma {:induction false} PrivilegeDescendsFromAdmin(h: Hash, slots: nat, run: seq<Command>)
    requires forall k :: 0 <= k < |run| && run[k].DoLogin? ==> run[k].name != "admin"
    ensures Plain(After(h, Opened(Seeded(h), slots), run))
  {
    if run != [] {
      PrivilegeDescendsFromAdmin(h, slots, run[..|run| - 1]);
      PlainStep(h, After(h, Opened(Seeded(h), slots), run[..|run| - 1]), run[|run| - 1]);
    }
  }
}
