/**
 Room ids over runs: when they all stay valid indices into the per-room semaphores, and why a
 restart over a room file with active records breaks that.
 */
module RegistryRestart {
  import opened Common
  import opened RoomRecord
  import opened Wal
  import opened Registry

  // ----- ids stay small over a clear file --------------------------------------------------------

  ghost predicate SmallIds(s: State) {
    forall id :: id in s.rooms ==> id < MAX_ROOMS
  }

  // No command but CREATE brings a room to life.
  lemma OnlyCreateAdds(s: State, cmd: Command, id: RoomId)
    requires Inv(s) && Legal(s, cmd) && id in Do(s, cmd).rooms && id !in s.rooms
    ensures cmd.CreateRoom?
    ensures Create(s, cmd.name, cmd.password).1 == id
  {
    CommandKeeps(s, cmd);
    match cmd {
      case JoinRoom(c, name, password) =>
        if Named(s, name).Some? {
          LeaveOutlasts(s, id, c);
        }
      case LeaveRoom(c) => LeaveOutlasts(s, id, c);
      case Kick(_, target) => LeaveOutlasts(s, id, target);
      case Drop(c) =>
        if s.current[c].Some? {
          assert PointsAtLive(s, c);
          TakeOutShape(s, s.current[c].value, c);
        }
      case _ =>
    }
  }

  lemma CommandKeepsSmall(s: State, cmd: Command)
    requires Inv(s) && Legal(s, cmd) && ClearBelow(s.found, MAX_ROOMS) && SmallIds(s)
    ensures SmallIds(Do(s, cmd))
  {
    forall id | id in Do(s, cmd).rooms
      ensures id < MAX_ROOMS
    {
      if id !in s.rooms {
        OnlyCreateAdds(s, cmd, id);
        CreateKeeps(s, cmd.name, cmd.password);
      }
    }
  }

  lemma {:induction false} RunKeepsSmall(s: State, run: seq<Command>)
    requires Inv(s) && LegalRun(s, run) && ClearBelow(s.found, MAX_ROOMS) && SmallIds(s)
    ensures SmallIds(After(s, run))
    decreases run
  {
    if run != [] {
      CommandKeeps(s, run[0]);
      CommandKeepsSmall(s, run[0]);
      RunKeepsSmall(Do(s, run[0]), run[1..]);
    }
  }

  // ----- filling the registry -----------------------------------------------------------------------

  function Letters(n: nat): (s: string)
    ensures |s| == n && forall i :: 0 <= i < n ==> s[i] == 'a'
  {
    seq(n, _ => 'a')
  }

  // Thirty-two names, none empty.
  function RoomName(k: nat): (s: string)
    requires k < MAX_ROOMS
    ensures 0 < |s| <= 31
  {
    if k < 31 then Letters(k + 1) else "b"
  }

  lemma RoomNamesDiffer(j: nat, k: nat)
    requires j < k < MAX_ROOMS
    ensures RoomName(j) != RoomName(k)
  {
    assert RoomName(j)[0] == 'a';
  }

  // Commands by which client 0 creates rooms until there are MAX_ROOMS.
  function CreatesFrom(k: nat): seq<Command>
    requires k <= MAX_ROOMS
    decreases MAX_ROOMS - k
  {
    if k == MAX_ROOMS then [] else [CreateRoom(0, RoomName(k), "")] + CreatesFrom(k + 1)
  }

  ghost predicate NamedBelow(s: State, id: RoomId, k: nat)
    requires id in s.rooms && k <= MAX_ROOMS
  {
    exists j :: 0 <= j < k && s.rooms[id].name == RoomName(j)
  }

  // Client 0 is connected, there are `k` rooms, and their names are the first `k`.
  ghost predicate Filled(s: State, k: nat)
    requires k <= MAX_ROOMS
  {
    0 in s.current && |s.rooms| == k && forall id :: id in s.rooms ==> NamedBelow(s, id, k)
  }

  lemma FillStep(s: State, k: nat)
    requires Inv(s) && k < MAX_ROOMS && Filled(s, k)
    ensures Filled(Do(s, CreateRoom(0, RoomName(k), "")), k + 1)
  {
    var s' := Do(s, CreateRoom(0, RoomName(k), ""));
    forall id | id in s.rooms
      ensures s.rooms[id].name != RoomName(k)
    {
      assert NamedBelow(s, id, k);
      var j :| 0 <= j < k && s.rooms[id].name == RoomName(j);
      RoomNamesDiffer(j, k);
    }
    CreateOutcome(s, RoomName(k), "");
    var added: RoomId := Create(s, RoomName(k), "").1;
    NewKeyCount(s.rooms, added, Room(RoomName(k), "", []));
    forall id | id in s'.rooms
      ensures NamedBelow(s', id, k + 1)
    {
      if id == added {
        assert s'.rooms[id].name == RoomName(k);
      } else {
        assert NamedBelow(s, id, k);
        var j :| 0 <= j < k && s.rooms[id].name == RoomName(j);
        assert s'.rooms[id].name == RoomName(j);
      }
    }
  }

  // One legal command in front of a run.
  lemma RunCons(s: State, cmd: Command, rest: seq<Command>)
    requires Inv(s) && Legal(s, cmd) && Inv(Do(s, cmd)) && LegalRun(Do(s, cmd), rest)
    ensures LegalRun(s, [cmd] + rest) && After(s, [cmd] + rest) == After(Do(s, cmd), rest)
  {
    assert ([cmd] + rest)[0] == cmd && ([cmd] + rest)[1..] == rest;
  }

  lemma {:induction false} FillUp(s: State, k: nat)
    requires Inv(s) && k <= MAX_ROOMS && Filled(s, k)
    ensures LegalRun(s, CreatesFrom(k)) && |After(s, CreatesFrom(k)).rooms| == MAX_ROOMS
    decreases MAX_ROOMS - k
  {
    if k < MAX_ROOMS {
      var cmd := CreateRoom(0, RoomName(k), "");
      CommandKeeps(s, cmd);
      FillStep(s, k);
      FillUp(Do(s, cmd), k + 1);
      RunCons(s, cmd, CreatesFrom(k + 1));
    }
  }

  // A client connects and creates all the rooms there may be.
  lemma FillWhole(f: RoomFile) returns (run: seq<Command>)
    requires Fits(f)
    ensures LegalRun(Start(f), run) && |After(Start(f), run).rooms| == MAX_ROOMS
  {
    StartHolds(f);
    var s := Do(Start(f), Connect(0));
    CommandKeeps(Start(f), Connect(0));
    FillUp(s, 0);
    run := [Connect(0)] + CreatesFrom(0);
    RunCons(Start(f), Connect(0), CreatesFrom(0));
  }

  // Thirty-two live rooms beside a record left over below index 32 cannot all have small ids.
  lemma OneIsLarge(s: State, left: RoomId)
    requires Inv(s) && |s.rooms| == MAX_ROOMS && left < MAX_ROOMS && ReadRoom(s.found, left).Some?
    ensures !SmallIds(s)
  {
    assert MirroredAt(s, left);
    assert |s.rooms.Keys| == |s.rooms|;
    BelowCount(MAX_ROOMS);
    var room := Below(MAX_ROOMS) - {left};
    if SmallIds(s) {
      SubsetCount(s.rooms.Keys, room);
      assert false;
    }
  }

  // ----- the exact condition ---------------------------------------------------------------------------

  // Every id that any run from this file ever gives to a room is a valid semaphore index.
  ghost predicate IdsStaySmall(f: RoomFile)
    requires Fits(f)
  {
    forall run :: LegalRun(Start(f), run) ==> SmallIds(After(Start(f), run))
  }

  /**
   Room ids stay below MAX_ROOMS in every run if and only if the process found no active record
   below that index.
   */
  lemma IdsStaySmallIff(f: RoomFile)
    requires Fits(f)
    ensures IdsStaySmall(f) <==> ClearBelow(f, MAX_ROOMS)
  {
    StartHolds(f);
    if ClearBelow(f, MAX_ROOMS) {
      forall run | LegalRun(Start(f), run)
        ensures SmallIds(After(Start(f), run))
      {
        RunKeepsSmall(Start(f), run);
      }
    } else {
      var left: RoomId :| left < MAX_ROOMS && ReadRoom(f, left).Some?;
      var run := FillWhole(f);
      RunKeeps(Start(f), run);
      OneIsLarge(After(Start(f), run), left);
    }
  }

  /**
   One live room when the process ends is enough: rooms are not reloaded and their records not
   cleared, so the next process can be made to allocate an id past the semaphores.
   */
  lemma RestartWithLiveRoom(s: State, id: RoomId)
    requires Inv(s) && Fits(s.disk) && id in s.rooms && id < MAX_ROOMS
    ensures !IdsStaySmall(s.disk)
  {
    assert MirroredAt(s, id);
    IdsStaySmallIff(s.disk);
  }

  // With all 32 records still active, already the first room created gets id 32.
  lemma RestartWithFullFile(f: RoomFile, name: string, password: string)
    requires |f| == MAX_ROOMS && forall i :: 0 <= i < |f| ==> f[i].isActive != 0
    requires |name| <= 31 && |password| <= 63
    ensures NextFree(f, 0) == MAX_ROOMS && Create(Start(f), name, password).1 == MAX_ROOMS
  {
    assert ReadRoom(f, NextFree(f, 0)).None?;
  }
}
