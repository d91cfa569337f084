/**
 The table of connected clients, with the map from file descriptor to slot that replaces a
 linear scan of it.
 */
module ClientTable {
  import opened Common

  const FD_MAP_SIZE: nat := 4096

  // A connected client: its descriptor and the identity of its object.
  datatype Conn = Conn(fd: nat, ref: nat)

  // The number of occupied slots.
  function Occupied(table: seq<Option<Conn>>): (n: nat)
    ensures n <= |table|
  {
    if table == [] then 0
    else Occupied(table[..|table| - 1]) + (if table[|table| - 1].Some? then 1 else 0)
  }

  // The client a linear scan of the table finds for a descriptor.
  function Scan(table: seq<Option<Conn>>, fd: nat): Option<Conn> {
    if table == [] then None
    else if table[0].Some? && table[0].value.fd == fd then table[0]
    else Scan(table[1..], fd)
  }

  predicate IsOpen(table: seq<Option<Conn>>, fd: nat) {
    exists i :: 0 <= i < |table| && table[i].Some? && table[i].value.fd == fd
  }

  lemma {:induction false} OccupiedUpdate(table: seq<Option<Conn>>, i: nat, e: Option<Conn>)
    requires i < |table|
    ensures Occupied(table[i := e]) ==
            Occupied(table) - (if table[i].Some? then 1 else 0) + (if e.Some? then 1 else 0)
  {
    var n := |table| - 1;
    if i < n {
      OccupiedUpdate(table[..n], i, e);
      assert table[i := e][..n] == table[..n][i := e];
    } else {
      assert table[i := e][..n] == table[..n];
    }
  }

  lemma {:induction false} AllOccupied(table: seq<Option<Conn>>)
    requires forall i :: 0 <= i < |table| ==> table[i].Some?
    ensures Occupied(table) == |table|
  {
    if table != [] {
      AllOccupied(table[..|table| - 1]);
    }
  }

  lemma {:induction false} NoneOccupied(table: seq<Option<Conn>>)
    requires forall i :: 0 <= i < |table| ==> table[i].None?
    ensures Occupied(table) == 0
  {
    if table != [] {
      NoneOccupied(table[..|table| - 1]);
    }
  }

  lemma {:induction false} ScanFinds(table: seq<Option<Conn>>, fd: nat)
    ensures Scan(table, fd).Some? <==> IsOpen(table, fd)
    ensures Scan(table, fd).Some? ==> Scan(table, fd) in table && Scan(table, fd).value.fd == fd
  {
    if table != [] {
      ScanFinds(table[1..], fd);
      if IsOpen(table, fd) && !(table[0].Some? && table[0].value.fd == fd) {
        var i :| 0 <= i < |table| && table[i].Some? && table[i].value.fd == fd;
        assert table[1..][i - 1] == table[i];
      }
      if IsOpen(table[1..], fd) {
        var i :| 0 <= i < |table[1..]| && table[1..][i].Some? && table[1..][i].value.fd == fd;
        assert table[i + 1] == table[1..][i];
      }
    }
  }

  class ClientTable {
    const clients: array<Option<Conn>>
    const fdToSlot: array<int>
    var clientCount: int

    ghost predicate Valid()
      reads this, clients, fdToSlot
    {
      && clients.Length == MAX_CLIENTS && fdToSlot.Length == FD_MAP_SIZE
      && clientCount == Occupied(clients[..])
      // no descriptor is open twice
      && (forall i, j :: 0 <= i < j < MAX_CLIENTS && clients[i].Some? && clients[j].Some? ==>
            clients[i].value.fd != clients[j].value.fd)
      // the map and the table point at each other
      && (forall fd :: 0 <= fd < FD_MAP_SIZE && fdToSlot[fd] != -1 ==>
            0 <= fdToSlot[fd] < MAX_CLIENTS && clients[fdToSlot[fd]].Some? && clients[fdToSlot[fd]].value.fd == fd)
      && (forall i :: 0 <= i < MAX_CLIENTS && clients[i].Some? && clients[i].value.fd < FD_MAP_SIZE ==>
            fdToSlot[clients[i].value.fd] == i)
    }

    constructor ()
      ensures Valid() && fresh(clients) && fresh(fdToSlot)
      ensures forall i :: 0 <= i < clients.Length ==> clients[i] == None
    {
      clients := new Option<Conn>[MAX_CLIENTS](_ => None);
      fdToSlot := new int[FD_MAP_SIZE](_ => -1);
      clientCount := 0;
      new;
      NoneOccupied(clients[..]);
    }

    // The lowest free slot. The caller has checked the count, so there is one: the search
    // cannot come back empty-handed.
    method FreeSlot() returns (slot: nat)
      requires Valid() && clientCount < MAX_CLIENTS
      ensures slot < MAX_CLIENTS && clients[slot].None?
      ensures forall i :: 0 <= i < slot ==> clients[i].Some?
    {
      slot := 0;
      while slot < MAX_CLIENTS && clients[slot].Some?
        invariant slot <= MAX_CLIENTS
        invariant forall i :: 0 <= i < slot ==> clients[i].Some?
      {
        slot := slot + 1;
      }
      if slot == MAX_CLIENTS {
        AllOccupied(clients[..]);
        assert false;
      }
    }

    // Registers a connection that `accept` returned on a descriptor not already open.
    // It goes to the lowest free slot.
    method Accept(conn: Conn) returns (ok: bool, slot: nat)
      requires Valid() && !IsOpen(clients[..], conn.fd)
      modifies this, clients, fdToSlot
      ensures Valid()
      ensures ok <==> old(Occupied(clients[..])) < 50
      ensures !ok ==> clients[..] == old(clients[..])
      ensures ok ==> slot < MAX_CLIENTS && old(clients[slot]).None?
      ensures ok ==> clients[..] == old(clients[..])[slot := Some(conn)]
      ensures ok ==> forall i :: 0 <= i < slot ==> old(clients[i]).Some?
    {
      if clientCount >= MAX_CLIENTS {
        return false, 0;
      }
      slot := FreeSlot();
      ghost var before := clients[..];
      assert forall i | 0 <= i < MAX_CLIENTS && before[i].Some? :: before[i].value.fd != conn.fd;
      OccupiedUpdate(before, slot, Some(conn));
      clients[slot] := Some(conn);
      clientCount := clientCount + 1;
      if conn.fd < FD_MAP_SIZE {
        fdToSlot[conn.fd] := slot;
      }
      assert clients[..] == before[slot := Some(conn)];
      return true, slot;
    }

    /**
     For every descriptor the map covers, the lookup finds what a linear scan would; the others
     it never finds.
     */
    method Lookup(fd: nat) returns (c: Option<Conn>)
      requires Valid()
      ensures c == Mapped(clients[..], fd)
    {
      c := None;
      if fd < FD_MAP_SIZE {
        ghost var table := clients[..];
        ScanFinds(table, fd);
        var slot := fdToSlot[fd];
        if slot != -1 && slot < MAX_CLIENTS && clients[slot].Some? {
          c := clients[slot];
          assert table[slot] == c && IsOpen(table, fd);
          ScanUnique(table, fd, slot);
        } else if IsOpen(table, fd) {
          assert false;
        }
      }
    }

    method Disconnect(fd: nat) returns (gone: Option<Conn>)
      requires Valid()
      modifies this, clients, fdToSlot
      ensures Valid()
      ensures gone == old(Mapped(clients[..], fd))
      ensures gone.None? ==> clients[..] == old(clients[..])
      ensures gone.Some? ==> !IsOpen(clients[..], fd)
      ensures gone.Some? ==> exists slot :: 0 <= slot < MAX_CLIENTS && old(clients[slot]) == gone &&
                               clients[..] == old(clients[..])[slot := None]
    {
      gone := Lookup(fd);
      if gone.Some? {
        ghost var before := clients[..];
        ScanFinds(before, fd);
        var slot := fdToSlot[fd];
        ScanUnique(before, fd, slot);
        OccupiedUpdate(before, slot, None);
        clients[slot] := None;
        clientCount := clientCount - 1;
        fdToSlot[fd] := -1;
        assert clients[..] == before[slot := None];
      }
    }
  }

  lemma {:induction false} ScanUnique(table: seq<Option<Conn>>, fd: nat, slot: nat)
    requires slot < |table| && table[slot].Some? && table[slot].value.fd == fd
    requires forall i, j :: 0 <= i < j < |table| && table[i].Some? && table[j].Some? ==>
               table[i].value.fd != table[j].value.fd
    ensures Scan(table, fd) == table[slot]
  {
    if slot > 0 {
      ScanUnique(table[1..], fd, slot - 1);
    }
  }

  // What `Lookup` returns.
  function Mapped(table: seq<Option<Conn>>, fd: nat): Option<Conn> {
    if fd < FD_MAP_SIZE then Scan(table, fd) else None
  }

  /**
   The map agrees with the scan for every descriptor if and only if no open descriptor lies
   beyond it; a client on such a descriptor can be neither found nor disconnected.
   */
  lemma MapIsCompleteIff(table: seq<Option<Conn>>)
    ensures (forall fd: nat :: Mapped(table, fd) == Scan(table, fd)) <==>
            (forall fd: nat :: IsOpen(table, fd) ==> fd < 4096)
  {
    forall fd: nat
      ensures Mapped(table, fd) == Scan(table, fd) <==> (IsOpen(table, fd) ==> fd < FD_MAP_SIZE)
    {
      ScanFinds(table, fd);
    }
  }
}
