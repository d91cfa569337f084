/**
 The users file and the session table as the server updates them: scanned from the start,
 appended to, and overwritten in place.
 */
module UserStore {
  import opened Common
  import opened Auth

  // `safe_memcmp`: 0 exactly for equal contents, whatever the place of the first difference.
  method SafeMemcmp(a: seq<bv8>, b: seq<bv8>, size: nat) returns (result: bv8)
    requires size <= |a| && size <= |b|
    ensures result == 0 <==> a[..size] == b[..size]
  {
    result := 0;
    for i := 0 to size
      invariant result == 0 <==> a[..i] == b[..i]
    {
      assert a[..i + 1] == a[..i] + [a[i]] && b[..i + 1] == b[..i] + [b[i]];
      OrOfDifference(result, a[i], b[i]);
      result := result | (a[i] ^ b[i]);
    }
  }

  lemma OrOfDifference(r: bv8, x: bv8, y: bv8)
    ensures r | (x ^ y) == 0 <==> r == 0 && x == y
  {
  }

  class UserStore {
    const hash: Hash
    const table: array<Option<Session>>
    var users: seq<User>

    ghost function View(): State
      reads this, table
    {
      State(users, table[..])
    }

    // The file as found, or with one administrator where there is none.
    constructor (hash: Hash, file: Option<seq<User>>, slots: nat)
      ensures fresh(table) && this.hash == hash
      ensures View() == Opened(if file.Some? then file.value else Seeded(hash), slots)
    {
      this.hash := hash;
      table := new Option<Session>[slots](_ => None);
      users := match file case Some(u) => u case None => Seeded(hash);
    }

    // ----- the users file -------------------------------------------------------------------

    method Locate(name: string) returns (k: nat)
      ensures k == Find(users, name, 0)
    {
      k := 0;
      while k < |users| && !(users[k].active && users[k].username == name)
        invariant k <= |users|
        invariant Find(users, name, k) == Find(users, name, 0)
      {
        k := k + 1;
      }
    }

    method Authenticate(name: string, password: string) returns (role: Option<int>)
      ensures role == Auth.Authenticate(hash, users, name, password)
    {
      var k := Locate(name);
      if k == |users| {
        return None;
      }
      var computed := hash(password);
      var difference := SafeMemcmp(computed, users[k].hash, 64);
      assert computed[..64] == computed && users[k].hash[..64] == users[k].hash;
      if difference != 0 {
        return None;
      }
      if users[k].role == "ADMIN" {
        return Some(ADMIN);
      } else if users[k].role == "MODERATOR" {
        return Some(MODERATOR);
      } else {
        return Some(USER);
      }
    }

    method AddUser(name: string, password: string, role: string) returns (ok: bool)
      modifies this`users
      ensures (users, ok) == Auth.AddUser(hash, old(users), name, password, role)
    {
      var count, k := 0, 0;
      while k < |users|
        invariant k <= |users|
        invariant count == CountActive(users[..k])
        invariant Find(users, name, k) == Find(users, name, 0)
      {
        assert users[..k + 1][..k] == users[..k];
        if users[k].active {
          count := count + 1;
        }
        if users[k].active && users[k].username == name {
          return false;
        }
        k := k + 1;
      }
      assert users[..k] == users;
      users := users + [User(count, name, role, hash(password), true)];
      return true;
    }

    method PromoteUser(name: string, role: string) returns (ok: bool)
      modifies this`users
      ensures (users, ok) == Auth.PromoteUser(old(users), name, role)
    {
      var k := Locate(name);
      if k == |users| {
        return false;
      }
      users := users[k := users[k].(role := role)];
      return true;
    }

    // ----- the handlers ---------------------------------------------------------------------

    method Login(slot: nat, name: string, password: string)
      modifies table
      ensures View() == LogIn(hash, old(View()), slot, name, password)
    {
      if slot < table.Length && table[slot].Some? && !table[slot].value.loggedIn && name != "" && password != "" {
        var role := Authenticate(name, password);
        if role.Some? {
          table[slot] := Some(Session(true, name, role.value));
        }
      }
    }

    method Register(slot: nat, name: string, password: string)
      modifies this`users
      ensures View() == Auth.Register(hash, old(View()), slot, name, password)
    {
      if slot < table.Length && table[slot].Some? && !table[slot].value.loggedIn && name != "" && password != "" {
        var _ := AddUser(name, password, "USER");
      }
    }

    method Logout(slot: nat)
      modifies table
      ensures View() == LogOut(old(View()), slot)
    {
      if slot < table.Length && table[slot].Some? && table[slot].value.loggedIn {
        table[slot] := Some(Session(false, "", GUEST));
      }
    }

    // Gives every connected client with this name a role, in place.
    method Refresh(name: string, role: int)
      modifies table
      ensures table[..] == Refreshed(old(table[..]), name, role)
    {
      for i := 0 to table.Length
        invariant forall k :: 0 <= k < i ==> table[k] == RefreshedOne(old(table[k]), name, role)
        invariant forall k :: i <= k < table.Length ==> table[k] == old(table[k])
      {
        if table[i].Some? && table[i].value.username == name {
          table[i] := Some(table[i].value.(role := role));
        }
      }
    }

    method Promote(slot: nat, target: string, role: string)
      modifies this`users, table
      ensures View() == PromoteBy(old(View()), slot, target, role)
    {
      if slot < table.Length && table[slot].Some? && table[slot].value.loggedIn
         && CheckPermission(table[slot].value.role, Opcode.Promote) && target != "" && role != "" && RoleName(role) {
        var name := Upper(role);
        var ok := PromoteUser(target, name);
        if ok {
          Refresh(target, RoleCode(name));
        }
      }
    }

    method Connect(slot: nat)
      modifies table
      ensures View() == Do(hash, old(View()), Command.Connect(slot))
    {
      if slot < table.Length && table[slot].None? {
        table[slot] := Some(Session(false, "", GUEST));
      }
    }

    method Disconnect(slot: nat)
      modifies table
      ensures View() == Do(hash, old(View()), Command.Disconnect(slot))
    {
      if slot < table.Length && table[slot].Some? {
        table[slot] := None;
      }
    }

    // ----- whole runs -----------------------------------------------------------------------

    method Execute(cmd: Command)
      modifies this`users, table
      ensures View() == Do(hash, old(View()), cmd)
    {
      match cmd
      case Connect(slot) => Connect(slot);
      case Disconnect(slot) => Disconnect(slot);
      case DoRegister(slot, name, password) => Register(slot, name, password);
      case DoLogin(slot, name, password) => Login(slot, name, password);
      case DoLogout(slot) => Logout(slot);
      case DoPromote(slot, target, role) => Promote(slot, target, role);
    }

    // Every run of commands on the store does what it does to the state as a value, and leaves
    // every session with the role the file gives its user.
    method Serve(run: seq<Command>)
      requires Inv(View())
      modifies this`users, table
      ensures View() == After(hash, old(View()), run) && Inv(View())
    {
      ghost var s := View();
      for i := 0 to |run|
        invariant View() == After(hash, s, run[..i])
      {
        assert run[..i + 1][..i] == run[..i];
        Execute(run[i]);
      }
      assert run[..|run|] == run;
      RunKeeps(hash, s, run);
    }
  }
}
