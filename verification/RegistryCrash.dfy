/**
 The registry over the write-ahead log: a crash in the middle of a command, which may write
 several records, and what recovery makes of the room file.
 */
module RegistryCrash {
  import opened Common
  import opened CText
  import opened RoomRecord
  import opened Wal
  import opened WalCrash
  import opened Registry

  // ----- the record writes of a command ---------------------------------------------------------

  // A record write, and the registry that the room file mirrors once it is done.
  datatype Stage = Stage(w: Write, s: State)

  // The last stage's registry, or the one before all of them.
  ghost function End(s: State, stages: seq<Stage>): State {
    if stages == [] then s else stages[|stages| - 1].s
  }

  function Deactivated(r: Record): Record {
    r.(isActive := 0)
  }

  // The client's place goes and the count is stored; then, when it was the last one, the room goes.
  ghost function TakeOutStages(s: State, id: RoomId, c: ClientId): seq<Stage>
    requires id in s.rooms
  {
    var r := Reduced(s.rooms[id], c);
    var s1 := s.(rooms := s.rooms[id := r], disk := StoreCount(s.disk, id, |r.members|));
    [Stage(Write(id, RecordOf(id, r)), s1)]
    + if r.members == [] then [Stage(Write(id, Deactivated(RecordOf(id, r))), Delete(s1, id))] else []
  }

  ghost function LeaveStages(s: State, c: ClientId): seq<Stage>
    requires Linked(s, c)
  {
    if s.current[c].None? then [] else TakeOutStages(s, s.current[c].value, c)
  }

  ghost function EnterStages(s: State, id: RoomId, password: string, c: ClientId): seq<Stage> {
    var (s', code) := Enter(s, id, password, c);
    if code == 0 then [Stage(Write(id, RecordOf(id, s'.rooms[id])), s')] else []
  }

  ghost function CreateStages(s: State, name: string, password: string): seq<Stage>
    requires Inv(s) && |name| <= 31 && |password| <= 63
  {
    CreateKeeps(s, name, password);
    CreateOutcome(s, name, password);
    var (s', code) := Create(s, name, password);
    if code >= 0 then [Stage(Write(code, RecordOf(code, Room(name, password, []))), s')] else []
  }

  ghost function Stages(s: State, cmd: Command): seq<Stage>
    requires Inv(s) && Legal(s, cmd)
  {
    assert forall c | c in s.current :: PointsAtLive(s, c);
    match cmd
    case Connect(_) => []
    case CreateRoom(_, name, password) => CreateStages(s, name, password)
    case JoinRoom(c, name, password) =>
      if Named(s, name).None? then []
      else LeaveStages(s, c) + EnterStages(Leave(s, c).0, Named(s, name).value, password, c)
    case LeaveRoom(c) => LeaveStages(s, c)
    case Kick(_, target) => LeaveStages(s, target)
    case Drop(c) => LeaveStages(s, c)
  }

  // ----- every stage mirrors a registry -------------------------------------------------------------

  // Names and passwords are free of white space, as the handlers read them.
  ghost predicate SafeRooms(s: State) {
    forall id :: id in s.rooms ==> Safe(RecordOf(id, s.rooms[id]))
  }

  ghost predicate SafeCommand(cmd: Command) {
    cmd.CreateRoom? ==> SpaceFree(cmd.name) && SpaceFree(cmd.password)
  }

  ghost predicate Sound(s: State) {
    Mirrored(s) && SafeRooms(s)
  }

  // One stage after another: each writes one record, and leaves the file a mirror again.
  ghost predicate Chained(s: State, stages: seq<Stage>)
    decreases |stages|
  {
    stages == [] ||
    var g := stages[0];
    && g.s.disk == Put(s.disk, g.w.id, g.w.rec) && Safe(g.w.rec) && Sound(g.s)
    && Chained(g.s, stages[1..])
  }

  lemma ChainedOne(s: State, g: Stage)
    requires g.s.disk == Put(s.disk, g.w.id, g.w.rec) && Safe(g.w.rec) && Sound(g.s)
    ensures Chained(s, [g])
  {
    assert [g][1..] == [];
  }

  // What a chain writes depends only on the file it starts from.
  lemma ChainedFrom(s: State, s': State, stages: seq<Stage>)
    requires Chained(s, stages) && s'.disk == s.disk
    ensures Chained(s', stages)
  {
  }

  lemma {:induction false} ChainedConcat(s: State, a: seq<Stage>, b: seq<Stage>)
    requires Chained(s, a) && Chained(End(s, a), b)
    ensures Chained(s, a + b)
    decreases |a|
  {
    if a == [] {
      assert a + b == b;
    } else {
      assert (a + b)[1..] == a[1..] + b;
      assert End(s, a) == End(a[0].s, a[1..]);
      ChainedConcat(a[0].s, a[1..], b);
    }
  }

  lemma CountStored(s: State, id: RoomId, r': Room)
    requires Mirrored(s) && id in s.rooms
    requires r'.name == s.rooms[id].name && r'.password == s.rooms[id].password
    ensures StoreCount(s.disk, id, |r'.members|) == Put(s.disk, id, RecordOf(id, r'))
  {
    assert MirroredAt(s, id);
  }

  lemma DeletionStored(s: State, id: RoomId)
    requires Mirrored(s) && id in s.rooms
    ensures Delete(s, id).disk == Put(s.disk, id, Deactivated(RecordOf(id, s.rooms[id])))
  {
    assert MirroredAt(s, id);
  }

  lemma TakeOutChained(s: State, id: RoomId, c: ClientId)
    requires Sound(s) && id in s.rooms
    ensures Chained(s, TakeOutStages(s, id, c)) && End(s, TakeOutStages(s, id, c)).disk == TakeOut(s, id, c).disk
  {
    var r := Reduced(s.rooms[id], c);
    var s1 := s.(rooms := s.rooms[id := r], disk := StoreCount(s.disk, id, |r.members|));
    assert Safe(RecordOf(id, s.rooms[id]));
    CountStored(s, id, r);
    CountMirrors(s, id, r, s1);
    var g := Stage(Write(id, RecordOf(id, r)), s1);
    ChainedOne(s, g);
    if r.members == [] {
      DeletionStored(s1, id);
      DeleteMirrors(s1, id);
      ChainedOne(s1, Stage(Write(id, Deactivated(RecordOf(id, r))), Delete(s1, id)));
      ChainedConcat(s, [g], [Stage(Write(id, Deactivated(RecordOf(id, r))), Delete(s1, id))]);
    } else {
      assert [g] + [] == [g];
    }
  }

  lemma LeaveChained(s: State, c: ClientId)
    requires Inv(s) && SafeRooms(s) && c in s.current
    ensures Linked(s, c) && Chained(s, LeaveStages(s, c))
    ensures End(s, LeaveStages(s, c)).disk == Leave(s, c).0.disk == Disconnect(s, c).disk
  {
    assert PointsAtLive(s, c);
    if s.current[c].Some? {
      TakeOutChained(s, s.current[c].value, c);
    }
  }

  lemma LeaveSafe(s: State, c: ClientId)
    requires Inv(s) && SafeRooms(s) && c in s.current
    ensures Linked(s, c) && SafeRooms(Leave(s, c).0) && SafeRooms(Disconnect(s, c))
  {
    assert PointsAtLive(s, c);
    if s.current[c].Some? {
      TakeOutShape(s, s.current[c].value, c);
    }
  }

  lemma EnterChained(s: State, id: RoomId, password: string, c: ClientId)
    requires Inv(s) && SafeRooms(s) && c in s.current && s.current[c].None?
    ensures Chained(s, EnterStages(s, id, password, c)) && SafeRooms(Enter(s, id, password, c).0)
    ensures End(s, EnterStages(s, id, password, c)).disk == Enter(s, id, password, c).0.disk
  {
    var (s', code) := Enter(s, id, password, c);
    if code == 0 {
      EnterKeeps(s, id, c);
      CountStored(s, id, s'.rooms[id]);
      assert Safe(RecordOf(id, s.rooms[id]));
      ChainedOne(s, Stage(Write(id, RecordOf(id, s'.rooms[id])), s'));
    }
  }

  lemma CreateChained(s: State, name: string, password: string)
    requires Inv(s) && SafeRooms(s) && |name| <= 31 && |password| <= 63 && SpaceFree(name) && SpaceFree(password)
    ensures NextFree(s.disk, 0) < 0x8000_0000
    ensures Chained(s, CreateStages(s, name, password)) && SafeRooms(Create(s, name, password).0)
    ensures End(s, CreateStages(s, name, password)).disk == Create(s, name, password).0.disk
  {
    CreateKeeps(s, name, password);
    CreateOutcome(s, name, password);
    var (s', code) := Create(s, name, password);
    if code >= 0 {
      ChainedOne(s, Stage(Write(code, RecordOf(code, Room(name, password, []))), s'));
    }
  }

  lemma JoinChained(s: State, id: RoomId, password: string, c: ClientId)
    requires Inv(s) && SafeRooms(s) && c in s.current
    ensures Linked(s, c)
    ensures var stages := LeaveStages(s, c) + EnterStages(Leave(s, c).0, id, password, c);
            Chained(s, stages) && End(s, stages).disk == Join(s, id, password, c).0.disk
    ensures SafeRooms(Join(s, id, password, c).0)
  {
    LeaveKeeps(s, c);
    LeaveChained(s, c);
    LeaveSafe(s, c);
    var s1 := Leave(s, c).0;
    var a, b := LeaveStages(s, c), EnterStages(s1, id, password, c);
    EnterChained(s1, id, password, c);
    ChainedFrom(s1, End(s, a), b);
    ChainedConcat(s, a, b);
    EndConcat(s, a, b);
  }

  lemma CommandChained(s: State, cmd: Command)
    requires Inv(s) && SafeRooms(s) && Legal(s, cmd) && SafeCommand(cmd)
    ensures Chained(s, Stages(s, cmd)) && SafeRooms(Do(s, cmd)) && End(s, Stages(s, cmd)).disk == Do(s, cmd).disk
  {
    match cmd {
      case Connect(_) =>
      case CreateRoom(_, name, password) => CreateChained(s, name, password);
      case JoinRoom(c, name, password) =>
        if Named(s, name).Some? {
          JoinChained(s, Named(s, name).value, password, c);
        }
      case LeaveRoom(c) =>
        LeaveChained(s, c);
        LeaveSafe(s, c);
      case Kick(_, target) =>
        LeaveChained(s, target);
        LeaveSafe(s, target);
      case Drop(c) =>
        LeaveChained(s, c);
        LeaveSafe(s, c);
    }
  }

  // ----- whole runs ------------------------------------------------------------------------------------

  ghost function RunStages(s: State, run: seq<Command>): seq<Stage>
    requires Inv(s) && LegalRun(s, run)
    decreases run
  {
    if run == [] then []
    else
      CommandKeeps(s, run[0]);
      Stages(s, run[0]) + RunStages(Do(s, run[0]), run[1..])
  }

  lemma {:induction false} RunChained(s: State, run: seq<Command>)
    requires Inv(s) && LegalRun(s, run) && SafeRooms(s)
    requires forall i :: 0 <= i < |run| ==> SafeCommand(run[i])
    ensures Chained(s, RunStages(s, run)) && End(s, RunStages(s, run)).disk == After(s, run).disk
    decreases run
  {
    if run != [] {
      CommandKeeps(s, run[0]);
      CommandChained(s, run[0]);
      var s1, stages := Do(s, run[0]), Stages(s, run[0]);
      RunChained(s1, run[1..]);
      ChainedFrom(s1, End(s, stages), RunStages(s1, run[1..]));
      ChainedConcat(s, stages, RunStages(s1, run[1..]));
      EndConcat(s, stages, RunStages(s1, run[1..]));
    }
  }

  lemma EndConcat(s: State, a: seq<Stage>, b: seq<Stage>)
    ensures End(s, a + b) == if b == [] then End(s, a) else b[|b| - 1].s
  {
    assert b == [] ==> a + b == a;
  }

  ghost function WritesOf(stages: seq<Stage>): (ws: seq<Write>)
    ensures |ws| == |stages| && forall i :: 0 <= i < |ws| ==> ws[i] == stages[i].w
  {
    seq(|stages|, i requires 0 <= i < |stages| => stages[i].w)
  }

  lemma RunFileNext(f: RoomFile, ws: seq<Write>, n: nat)
    requires n < |ws|
    ensures RunFile(f, ws[..n + 1]) == Put(RunFile(f, ws[..n]), ws[n].id, ws[n].rec)
  {
    var all := ws[..n + 1];
    assert all[..|all| - 1] == ws[..n] && all[|all| - 1] == ws[n];
  }

  // The registry mirrored before write number `n`.
  ghost function Before(s: State, stages: seq<Stage>, n: nat): State
    requires n <= |stages|
  {
    if n == 0 then s else stages[n - 1].s
  }

  lemma {:induction false} ChainedAt(s: State, stages: seq<Stage>, n: nat)
    requires Chained(s, stages) && n < |stages|
    ensures Sound(stages[n].s) && Safe(stages[n].w.rec)
    ensures stages[n].s.disk == Put(Before(s, stages, n).disk, stages[n].w.id, stages[n].w.rec)
    decreases |stages|
  {
    if n > 0 {
      var rest := stages[1..];
      ChainedAt(stages[0].s, rest, n - 1);
      assert rest[n - 1] == stages[n];
      assert n > 1 ==> rest[n - 2] == stages[n - 1];
    }
  }

  lemma {:induction false} ChainedFile(s: State, stages: seq<Stage>, n: nat)
    requires Chained(s, stages) && n <= |stages|
    ensures Before(s, stages, n).disk == RunFile(s.disk, WritesOf(stages)[..n])
  {
    if n > 0 {
      ChainedFile(s, stages, n - 1);
      ChainedAt(s, stages, n - 1);
      RunFileNext(s.disk, WritesOf(stages), n - 1);
    }
  }

  lemma ChainedSafe(s: State, stages: seq<Stage>)
    requires Chained(s, stages)
    ensures SafeWrites(WritesOf(stages))
  {
    forall i | 0 <= i < |stages|
      ensures Safe(stages[i].w.rec)
    {
      ChainedAt(s, stages, i);
    }
  }

  // The process dies with `k` lines of write number `n` in the log, and the log copes with that.
  ghost predicate CrashedAt(f: RoomFile, stages: seq<Stage>, n: nat, k: nat, image: RoomFile) {
    && n < |stages| && k <= 4
    && CrashImage(f, WritesOf(stages)[..n], stages[n].w, k, image)
    && Copes(n, PriorOf(f, WritesOf(stages)[..n], stages[n].w), k)
  }

  ghost function CrashLog(f: RoomFile, stages: seq<Stage>, n: nat, k: nat): string
    requires n < |stages| && k <= 4
  {
    CrashText(f, WritesOf(stages)[..n], stages[n].w, k)
  }

  // How many of the writes have committed.
  function Done(n: nat, k: nat): nat {
    if k == 4 then n + 1 else n
  }

  lemma CommittedWrites(stages: seq<Stage>, n: nat, k: nat)
    requires n < |stages|
    ensures (if k == 4 then WritesOf(stages)[..n] + [stages[n].w] else WritesOf(stages)[..n]) ==
            WritesOf(stages)[..Done(n, k)]
  {
  }

  // ----- exactly when --------------------------------------------------------------------------------

  // The process dies with `k` lines of write number `n` in the log: whatever that leaves, recovery
  // makes the file read as the mirror of the registry at the last write that committed.
  ghost predicate AlwaysMirrored(s: State, stages: seq<Stage>, n: nat, k: nat)
    requires n < |stages| && k <= 4 && Readable(CrashLog(s.disk, stages, n, k))
  {
    forall image: RoomFile, id: nat :: CrashImage(s.disk, WritesOf(stages)[..n], stages[n].w, k, image) ==>
      ReadRoom(Recover(image, CrashLog(s.disk, stages, n, k)), id) ==
      ReadRoom(Before(s, stages, Done(n, k)).disk, id)
  }

  lemma StageExact(s: State, stages: seq<Stage>, n: nat, k: nat)
    requires Sound(s) && SafeFile(s.disk) && Chained(s, stages) && n < |stages| && k <= 4
    ensures Readable(CrashLog(s.disk, stages, n, k))
    ensures AlwaysMirrored(s, stages, n, k) <==> Copes(n, PriorOf(s.disk, WritesOf(stages)[..n], stages[n].w), k)
  {
    var ws, w := WritesOf(stages)[..n], stages[n].w;
    ChainedSafe(s, stages);
    CrashAtomicityExact(s.disk, ws, w, k);
    CommittedWrites(stages, n, k);
    ChainedFile(s, stages, Done(n, k));
    var committed := if k == 4 then ws + [w] else ws;
    forall id: nat
      ensures ReadRoom(Before(s, stages, Done(n, k)).disk, id) == LastCommitted(s.disk, committed, id)
    {
      RunReadsLastCommitted(s.disk, committed, id);
    }
    assert AlwaysMirrored(s, stages, n, k) <==> AlwaysRecovers(s.disk, ws, w, k);
  }

  // The record a write replaces, as the file before the write has it.
  ghost function Replaced(s: State, stages: seq<Stage>, n: nat): Option<Record>
    requires n < |stages|
  {
    ReadRaw(Before(s, stages, n).disk, stages[n].w.id)
  }

  /**
   For every run, every record write of it and every step of that write: recovery from a crash
   there always gives the mirror of the registry at the last committed write if and only if the
   log copes with it. For the data write that is: at most 127 writes went before, and the record
   replaced survives its OLD line.
   */
  lemma CrashInsideCommandExact(f: RoomFile, run: seq<Command>, n: nat, k: nat)
    requires Fits(f) && SafeFile(f) && LegalRun(Start(f), run) && k <= 4
    requires forall i :: 0 <= i < |run| ==> SafeCommand(run[i])
    requires n < |RunStages(Start(f), run)|
    ensures var stages := RunStages(Start(f), run);
            && Readable(CrashLog(f, stages, n, k))
            && (AlwaysMirrored(Start(f), stages, n, k) <==> Copes(n, Replaced(Start(f), stages, n), k))
  {
    StartHolds(f);
    RunChained(Start(f), run);
    StageExact(Start(f), RunStages(Start(f), run), n, k);
    ChainedFile(Start(f), RunStages(Start(f), run), n);
  }

  lemma AlwaysMirroredAt(s: State, stages: seq<Stage>, n: nat, k: nat, image: RoomFile, id: nat)
    requires n < |stages| && k <= 4 && Readable(CrashLog(s.disk, stages, n, k)) && AlwaysMirrored(s, stages, n, k)
    requires CrashImage(s.disk, WritesOf(stages)[..n], stages[n].w, k, image)
    ensures ReadRoom(Recover(image, CrashLog(s.disk, stages, n, k)), id) ==
            ReadRoom(Before(s, stages, Done(n, k)).disk, id)
  {
  }

  lemma BeforeMirrors(s: State, stages: seq<Stage>, n: nat)
    requires Sound(s) && Chained(s, stages) && n <= |stages|
    ensures Mirrored(Before(s, stages, n))
  {
    if n > 0 {
      ChainedAt(s, stages, n - 1);
    }
  }

  /**
   A crash inside a command. Over every run from any room file, when the process dies at any step
   of any record write, recovery leaves a file that reads as the mirror of a registry: the one
   right before that write, or right after it where the write had committed.
   */
  lemma CrashInsideCommand(f: RoomFile, run: seq<Command>, n: nat, k: nat, image: RoomFile, id: nat)
    requires Fits(f) && SafeFile(f) && LegalRun(Start(f), run)
    requires forall i :: 0 <= i < |run| ==> SafeCommand(run[i])
    requires CrashedAt(f, RunStages(Start(f), run), n, k, image)
    ensures var stages := RunStages(Start(f), run);
            && Readable(CrashLog(f, stages, n, k)) && Mirrored(Before(Start(f), stages, Done(n, k)))
            && ReadRoom(Recover(image, CrashLog(f, stages, n, k)), id) ==
               ReadRoom(Before(Start(f), stages, Done(n, k)).disk, id)
  {
    StartHolds(f);
    RunChained(Start(f), run);
    StageExact(Start(f), RunStages(Start(f), run), n, k);
    AlwaysMirroredAt(Start(f), RunStages(Start(f), run), n, k, image, id);
    BeforeMirrors(Start(f), RunStages(Start(f), run), Done(n, k));
  }

  // Which rooms have a record that survives: those with a password, unless name and password
  // happen to read as "OLD NULL".
  lemma RoomSurvivesIff(id: RoomId, r: Room)
    ensures SurvivesLog(RecordOf(id, r)) <==>
            r.name != "" && r.password != "" && !(HasSuffix(r.name, "OLD") && HasPrefix(r.password, "NULL"))
  {
  }

  // ----- a room without a password ----------------------------------------------------------------------

  // A client connects, creates a room without a password and joins it.
  function OpenRoomRun(c: ClientId, name: string): seq<Command> {
    [Connect(c)] + ([CreateRoom(c, name, "")] + ([JoinRoom(c, name, "")] + []))
  }

  lemma StagesCons(s: State, cmd: Command, rest: seq<Command>)
    requires Inv(s) && Legal(s, cmd) && Inv(Do(s, cmd)) && LegalRun(Do(s, cmd), rest)
    ensures LegalRun(s, [cmd] + rest)
    ensures RunStages(s, [cmd] + rest) == Stages(s, cmd) + RunStages(Do(s, cmd), rest)
  {
    assert ([cmd] + rest)[0] == cmd && ([cmd] + rest)[1..] == rest;
  }

  // The stages of the run: the creation's write, then the join's.
  lemma OpenRoomStages(f: RoomFile, c: ClientId, name: string)
    requires Fits(f) && 0 < |name| <= 31
    ensures LegalRun(Start(f), OpenRoomRun(c, name))
    ensures NextFree(f, 0) < 0x8000_0000
    ensures var stages := RunStages(Start(f), OpenRoomRun(c, name));
            && |stages| == 2 && stages[1].w.id == stages[0].w.id == NextFree(f, 0)
            && stages[0].s.disk == Put(f, NextFree(f, 0), RecordOf(NextFree(f, 0), Room(name, "", [])))
  {
    StartHolds(f);
    var s0 := Start(f);
    var s1 := Do(s0, Connect(c));
    CommandKeeps(s0, Connect(c));
    var create := CreateRoom(c, name, "");
    CreateOutcome(s1, name, "");
    var s2 := Do(s1, create);
    CommandKeeps(s1, create);
    var id: RoomId := NextFree(f, 0);
    NamedIs(s2, id);
    var join := JoinRoom(c, name, "");
    assert s2.current[c] == None;
    JoinOutcome(s2, id, "", c);
    CommandKeeps(s2, join);
    assert LegalRun(Do(s2, join), []);
    StagesCons(s2, join, []);
    StagesCons(s1, create, [join] + []);
    StagesCons(s0, Connect(c), [create] + ([join] + []));
  }

  /**
   The ordinary run outside the condition: the process dies while the first join of a room
   without a password writes its count, and recovery does not bring the room back as it was.
   */
  lemma OpenRoomIsLost(f: RoomFile, c: ClientId, name: string)
    requires Fits(f) && SafeFile(f) && 0 < |name| <= 31 && SpaceFree(name)
    ensures LegalRun(Start(f), OpenRoomRun(c, name))
    ensures var stages := RunStages(Start(f), OpenRoomRun(c, name));
            && |stages| == 2 && Readable(CrashLog(f, stages, 1, 3))
            && !AlwaysMirrored(Start(f), stages, 1, 3)
  {
    OpenRoomStages(f, c, name);
    var run := OpenRoomRun(c, name);
    assert run == [Connect(c), CreateRoom(c, name, ""), JoinRoom(c, name, "")];
    CrashInsideCommandExact(f, run, 1, 3);
    var id: RoomId := NextFree(f, 0);
    RoomSurvivesIff(id, Room(name, "", []));
    var stages := RunStages(Start(f), run);
    assert Replaced(Start(f), stages, 1) == Some(RecordOf(id, Room(name, "", [])));
  }
}
