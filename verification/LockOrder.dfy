/**
 The mutexes of the server: what each thread locks on each of its paths, and why threads that
 wait for each other never form a cycle.
 */
module LockOrder {
  datatype Lock = Clients | Rooms | Room(id: nat) | Tasks | Jitter | Ring | Log

  // Every path takes locks in rising rank. All room locks have the same rank.
  function Rank(l: Lock): nat {
    match l
    case Clients => 0
    case Rooms => 1
    case Room(_) => 2
    case Tasks => 3
    case Jitter => 3
    case Ring => 3
    case Log => 4
  }

  datatype Op = Acquire(lock: Lock) | Release(lock: Lock)

  // ----- paths ---------------------------------------------------------------------------------

  // The control flow of a function, as far as its locks are concerned.
  datatype Path =
    | Skip
    | Then(first: Path, second: Path)
    | Either(left: Path, right: Path)
    | Repeat(body: Path)
    | Within(lock: Lock, inside: Path)
    | WithinSomeRoom(inside: Path)

  // One way through a path.
  ghost predicate Yields(p: Path, ops: seq<Op>)
    decreases p, |ops|
  {
    match p
    case Skip => ops == []
    case Then(a, b) => exists i :: 0 <= i <= |ops| && Yields(a, ops[..i]) && Yields(b, ops[i..])
    case Either(a, b) => Yields(a, ops) || Yields(b, ops)
    case Repeat(a) => ops == [] || exists i :: 0 < i <= |ops| && Yields(a, ops[..i]) && Yields(p, ops[i..])
    case Within(l, a) => Bracketed(l, ops) && Yields(a, ops[1..|ops| - 1])
    case WithinSomeRoom(a) => (exists id :: Bracketed(Room(id), ops)) && Yields(a, ops[1..|ops| - 1])
  }

  predicate Bracketed(l: Lock, ops: seq<Op>) {
    |ops| >= 2 && ops[0] == Acquire(l) && ops[|ops| - 1] == Release(l)
  }

  // Everything locked on the path has at least this rank, and more inside each lock.
  predicate Ordered(bound: nat, p: Path)
    decreases p
  {
    match p
    case Skip => true
    case Then(a, b) => Ordered(bound, a) && Ordered(bound, b)
    case Either(a, b) => Ordered(bound, a) && Ordered(bound, b)
    case Repeat(a) => Ordered(bound, a)
    case Within(l, a) => bound <= Rank(l) && Ordered(Rank(l) + 1, a)
    case WithinSomeRoom(a) => bound <= 2 && Ordered(3, a)
  }

  // ----- what the threads lock -------------------------------------------------------------------

  function Maybe(p: Path): Path {
    Either(p, Skip)
  }

  // `log_message`
  function LogMessage(): Path {
    Within(Log, Skip)
  }

  // `db_write_room`: warnings, and the messages of a rollback.
  function WriteRoom(): Path {
    Repeat(LogMessage())
  }

  function RoomDelete(): Path {
    Then(Within(Rooms, Skip), Maybe(Then(Maybe(WriteRoom()), LogMessage())))
  }

  function FindRoom(): Path {
    Within(Rooms, Skip)
  }

  function RoomCreate(): Path {
    Then(FindRoom(), Maybe(Then(WriteRoom(), Maybe(Then(Within(Rooms, Skip), LogMessage())))))
  }

  function RoomLeave(): Path {
    Maybe(Then(WithinSomeRoom(Skip), Then(Maybe(WriteRoom()), Then(LogMessage(), Maybe(RoomDelete())))))
  }

  function RoomJoin(): Path {
    Then(Maybe(RoomLeave()),
         Then(Within(Rooms, Skip),
              Maybe(Then(WithinSomeRoom(Skip), Maybe(Then(Maybe(WriteRoom()), LogMessage()))))))
  }

  function RemoveClientFromRoom(): Path {
    Then(WithinSomeRoom(Skip), Then(Maybe(WriteRoom()), Maybe(RoomDelete())))
  }

  // Replies to the client and messages to the log. A reply that cannot be sent is logged too.
  function Replies(): Path {
    Repeat(LogMessage())
  }

  // LOGIN, REGISTER, STATUS and unknown commands
  function HandleSimple(): Path {
    Replies()
  }

  function HandleLogout(): Path {
    Then(Maybe(RoomLeave()), Replies())
  }

  function HandleCreate(): Path {
    Then(Maybe(RoomCreate()), Replies())
  }

  function HandleJoin(): Path {
    Then(Maybe(Then(FindRoom(), Maybe(RoomJoin()))), Replies())
  }

  function HandleLeave(): Path {
    Then(Maybe(RoomLeave()), Replies())
  }

  function HandleList(): Path {
    Then(Maybe(FindRoom()), Replies())
  }

  function HandleKick(): Path {
    Then(Maybe(Then(WithinSomeRoom(Skip), Maybe(RoomLeave()))), Replies())
  }

  // The reply is sent, and the message logged, while the room is locked.
  function HandleMute(): Path {
    Then(Maybe(WithinSomeRoom(Replies())), Replies())
  }

  function HandlePromote(): Path {
    Then(Replies(), Then(Maybe(Within(Clients, Skip)), Replies()))
  }

  function AccountCommand(): Path {
    Either(HandleSimple(), Either(HandleLogout(), HandlePromote()))
  }

  function RoomCommand(): Path {
    Either(Either(HandleCreate(), HandleJoin()), Either(HandleLeave(), HandleList()))
  }

  function HandleCommand(): Path {
    Either(Either(AccountCommand(), RoomCommand()), Either(HandleKick(), HandleMute()))
  }

  // Waiting on the condition variable gives the queue's lock back and takes it again.
  function WorkerTurn(): Path {
    Then(Repeat(Within(Tasks, Skip)),
         Then(Within(Tasks, Skip), Then(Maybe(HandleCommand()), Maybe(Within(Clients, Skip)))))
  }

  function AcceptNewClient(): Path {
    Either(Maybe(LogMessage()), Then(Within(Clients, Maybe(LogMessage())), Maybe(LogMessage())))
  }

  // Leaving the room, and deleting it, happen while the client table is locked.
  function DisconnectClient(): Path {
    Within(Clients, Maybe(Then(Maybe(RemoveClientFromRoom()), LogMessage())))
  }

  // A full queue is reported once its lock is released.
  function ProcessClientCommand(): Path {
    Then(Within(Tasks, Skip), Maybe(Then(Replies(), Within(Clients, Skip))))
  }

  function HandleTcpCommand(): Path {
    Either(Then(Maybe(LogMessage()), DisconnectClient()),
           Then(Within(Clients, Skip), Either(LogMessage(), ProcessClientCommand())))
  }

  function RingBufferPush(): Path {
    Either(LogMessage(), Within(Ring, Skip))
  }

  function HandleUdpPacket(): Path {
    Either(Maybe(LogMessage()), Then(Maybe(Within(Clients, Skip)), Maybe(RingBufferPush())))
  }

  function EpollTurn(): Path {
    Either(AcceptNewClient(), Either(HandleUdpPacket(), Either(HandleTcpCommand(), DisconnectClient())))
  }

  // Rooms are mixed one after the other with the list locked.
  function MixerTurn(): Path {
    Then(Repeat(Then(Within(Ring, Skip), Maybe(Within(Jitter, Skip)))),
         Within(Rooms, Repeat(WithinSomeRoom(Skip))))
  }

  function DisplayTurn(): Path {
    Then(Within(Rooms, Skip), Within(Clients, Skip))
  }

  datatype Role = Epoll | Worker | Mixer | Display | Fifo

  // One turn of a thread's main loop.
  function Turn(role: Role): Path {
    match role
    case Epoll => EpollTurn()
    case Worker => WorkerTurn()
    case Mixer => MixerTurn()
    case Display => DisplayTurn()
    case Fifo => Maybe(LogMessage())
  }

  // ----- threads -------------------------------------------------------------------------------------

  // What a thread holds, latest last, and what is left of its present turn.
  datatype Thread = Thread(role: Role, held: seq<Lock>, todo: seq<Op>)

  type State = seq<Thread>

  datatype Action = Begin(t: nat, ops: seq<Op>) | Go(t: nat)

  predicate Free(s: State, l: Lock) {
    forall t :: 0 <= t < |s| ==> l !in s[t].held
  }

  // A thread may go on unless it is about to take a lock somebody holds, itself included.
  predicate CanGo(s: State, t: nat) {
    t < |s| && s[t].todo != [] && (s[t].todo[0].Acquire? ==> Free(s, s[t].todo[0].lock))
  }

  ghost predicate Enabled(s: State, a: Action) {
    match a
    case Begin(t, ops) => t < |s| && s[t].todo == [] && Yields(Turn(s[t].role), ops)
    case Go(t) => CanGo(s, t)
  }

  function Released(held: seq<Lock>, l: Lock): seq<Lock> {
    if held == [] then [] else if held[|held| - 1] == l then held[..|held| - 1]
    else Released(held[..|held| - 1], l) + [held[|held| - 1]]
  }

  function Advanced(th: Thread): Thread
    requires th.todo != []
  {
    match th.todo[0]
    case Acquire(l) => th.(held := th.held + [l], todo := th.todo[1..])
    case Release(l) => th.(held := Released(th.held, l), todo := th.todo[1..])
  }

  ghost function Apply(s: State, a: Action): State
    requires Enabled(s, a)
  {
    match a
    case Begin(t, ops) => s[t := s[t].(todo := ops)]
    case Go(t) => s[t := Advanced(s[t])]
  }

  // ----- discipline ------------------------------------------------------------------------------------

  // Locks are taken above all that is held, given back latest first, and all given back.
  predicate Disciplined(held: seq<Lock>, todo: seq<Op>)
    decreases |todo|
  {
    if todo == [] then held == []
    else match todo[0]
      case Acquire(l) => Above(held, Rank(l)) && Disciplined(held + [l], todo[1..])
      case Release(l) => held != [] && held[|held| - 1] == l && Disciplined(held[..|held| - 1], todo[1..])
  }

  predicate Above(held: seq<Lock>, rank: nat) {
    forall i :: 0 <= i < |held| ==> Rank(held[i]) < rank
  }

  predicate Rising(held: seq<Lock>) {
    forall i, j :: 0 <= i < j < |held| ==> Rank(held[i]) < Rank(held[j])
  }

  // A path in rising order, followed by whatever is disciplined after it.
  lemma {:induction false} PathDisciplined(p: Path, bound: nat, held: seq<Lock>, ops: seq<Op>, rest: seq<Op>)
    requires Ordered(bound, p) && Yields(p, ops) && Above(held, bound) && Disciplined(held, rest)
    ensures Disciplined(held, ops + rest)
    decreases p, |ops|, 1
  {
    match p {
      case Skip => assert ops + rest == rest;
      case Then(a, b) =>
        var i :| 0 <= i <= |ops| && Yields(a, ops[..i]) && Yields(b, ops[i..]);
        PathDisciplined(b, bound, held, ops[i..], rest);
        PathDisciplined(a, bound, held, ops[..i], ops[i..] + rest);
        Regroup(ops, i, rest);
      case Either(a, b) =>
        if Yields(a, ops) {
          PathDisciplined(a, bound, held, ops, rest);
        } else {
          PathDisciplined(b, bound, held, ops, rest);
        }
      case Repeat(a) => RepeatDisciplined(p, bound, held, ops, rest);
      case Within(l, a) => LockDisciplined(l, a, bound, held, ops, rest);
      case WithinSomeRoom(a) =>
        var id :| Bracketed(Room(id), ops);
        LockDisciplined(Room(id), a, bound, held, ops, rest);
    }
  }

  lemma Regroup(ops: seq<Op>, i: nat, rest: seq<Op>)
    requires i <= |ops|
    ensures ops + rest == ops[..i] + (ops[i..] + rest)
  {
  }

  lemma {:induction false} RepeatDisciplined(p: Path, bound: nat, held: seq<Lock>, ops: seq<Op>, rest: seq<Op>)
    requires p.Repeat? && Ordered(bound, p) && Yields(p, ops) && Above(held, bound) && Disciplined(held, rest)
    ensures Disciplined(held, ops + rest)
    decreases p, |ops|, 0
  {
    if ops == [] {
      assert ops + rest == rest;
    } else {
      var i :| 0 < i <= |ops| && Yields(p.body, ops[..i]) && Yields(p, ops[i..]);
      RepeatDisciplined(p, bound, held, ops[i..], rest);
      PathDisciplined(p.body, bound, held, ops[..i], ops[i..] + rest);
      Regroup(ops, i, rest);
    }
  }

  lemma {:induction false} LockDisciplined(l: Lock, a: Path, bound: nat, held: seq<Lock>, ops: seq<Op>, rest: seq<Op>)
    requires bound <= Rank(l) && Ordered(Rank(l) + 1, a) && Bracketed(l, ops) && Yields(a, ops[1..|ops| - 1])
    requires Above(held, bound) && Disciplined(held, rest)
    ensures Disciplined(held, ops + rest)
    decreases a, |ops|
  {
    var inside, after := ops[1..|ops| - 1], [Release(l)] + rest;
    ReleaseStep(held, l, rest);
    AboveBoth(held, bound, l);
    PathDisciplined(a, Rank(l) + 1, held + [l], inside, after);
    AcquireStep(held, l, inside + after);
    Unbracketed(l, ops, rest);
  }

  lemma Unbracketed(l: Lock, ops: seq<Op>, rest: seq<Op>)
    requires Bracketed(l, ops)
    ensures ops + rest == [Acquire(l)] + (ops[1..|ops| - 1] + ([Release(l)] + rest))
  {
  }

  lemma ReleaseStep(held: seq<Lock>, l: Lock, rest: seq<Op>)
    requires Disciplined(held, rest)
    ensures Disciplined(held + [l], [Release(l)] + rest)
  {
    var h, ops := held + [l], [Release(l)] + rest;
    assert h[..|h| - 1] == held && ops[1..] == rest;
  }

  lemma AcquireStep(held: seq<Lock>, l: Lock, rest: seq<Op>)
    requires Above(held, Rank(l)) && Disciplined(held + [l], rest)
    ensures Disciplined(held, [Acquire(l)] + rest)
  {
    assert ([Acquire(l)] + rest)[1..] == rest;
  }

  lemma AboveBoth(held: seq<Lock>, bound: nat, l: Lock)
    requires Above(held, bound) && bound <= Rank(l)
    ensures Above(held, Rank(l)) && Above(held + [l], Rank(l) + 1)
  {
  }

  lemma LogOrdered(b: nat)
    requires b <= 4
    ensures Ordered(b, LogMessage()) && Ordered(b, Maybe(LogMessage())) && Ordered(b, Replies())
    ensures Ordered(b, WriteRoom()) && Ordered(b, Maybe(WriteRoom()))
  {
  }

  lemma DeleteOrdered(b: nat)
    requires b <= 1
    ensures Ordered(b, RoomDelete()) && Ordered(b, Maybe(RoomDelete()))
  {
    LogOrdered(b);
    assert Ordered(b, Then(Maybe(WriteRoom()), LogMessage()));
  }

  lemma LeaveOrdered(b: nat)
    requires b <= 1
    ensures Ordered(b, RoomLeave()) && Ordered(b, Maybe(RoomLeave()))
  {
    LogOrdered(b);
    DeleteOrdered(b);
    assert Ordered(b, Then(LogMessage(), Maybe(RoomDelete())));
    assert Ordered(b, Then(Maybe(WriteRoom()), Then(LogMessage(), Maybe(RoomDelete()))));
  }

  lemma CreateOrdered(b: nat)
    requires b <= 1
    ensures Ordered(b, RoomCreate()) && Ordered(b, Maybe(RoomCreate()))
  {
    LogOrdered(b);
    assert Ordered(b, Then(Within(Rooms, Skip), LogMessage()));
    assert Ordered(b, Then(WriteRoom(), Maybe(Then(Within(Rooms, Skip), LogMessage()))));
  }

  lemma JoinOrdered(b: nat)
    requires b <= 1
    ensures Ordered(b, HandleJoin())
  {
    LogOrdered(b);
    LeaveOrdered(b);
    var counted := Maybe(Then(Maybe(WriteRoom()), LogMessage()));
    var entered := Maybe(Then(WithinSomeRoom(Skip), counted));
    assert Ordered(b, counted);
    assert Ordered(b, entered);
    assert Ordered(b, Then(Within(Rooms, Skip), entered));
    assert Ordered(b, RoomJoin());
    assert Ordered(b, Then(FindRoom(), Maybe(RoomJoin())));
    assert Ordered(b, Maybe(Then(FindRoom(), Maybe(RoomJoin()))));
  }

  lemma DisconnectOrdered()
    ensures Ordered(0, DisconnectClient())
  {
    LogOrdered(1);
    DeleteOrdered(1);
    assert Ordered(1, Then(Maybe(WriteRoom()), Maybe(RoomDelete())));
    assert Ordered(1, RemoveClientFromRoom());
    assert Ordered(1, Maybe(RemoveClientFromRoom()));
    assert Ordered(1, Then(Maybe(RemoveClientFromRoom()), LogMessage()));
  }

  lemma AccountOrdered(b: nat)
    requires b == 0
    ensures Ordered(b, AccountCommand())
  {
    LogOrdered(b);
    LeaveOrdered(b);
    assert Ordered(b, HandleLogout());
    assert Ordered(b, Then(Maybe(Within(Clients, Skip)), Replies()));
    assert Ordered(b, HandlePromote());
  }

  lemma RoomCommandOrdered(b: nat)
    requires b == 0
    ensures Ordered(b, RoomCommand())
  {
    LogOrdered(b);
    CreateOrdered(b);
    JoinOrdered(b);
    LeaveOrdered(b);
    assert Ordered(b, HandleCreate()) && Ordered(b, HandleLeave());
    assert Ordered(b, Maybe(FindRoom()));
    assert Ordered(b, HandleList());
  }

  lemma KickAndMuteOrdered(b: nat)
    requires b == 0
    ensures Ordered(b, HandleKick()) && Ordered(b, HandleMute())
  {
    LogOrdered(b);
    LogOrdered(3);
    LeaveOrdered(b);
    assert Ordered(b, Then(WithinSomeRoom(Skip), Maybe(RoomLeave())));
    assert Ordered(b, Maybe(Then(WithinSomeRoom(Skip), Maybe(RoomLeave()))));
    assert Ordered(b, WithinSomeRoom(Replies()));
    assert Ordered(b, Maybe(WithinSomeRoom(Replies())));
  }

  lemma WorkerOrdered(b: nat)
    requires b == 0
    ensures Ordered(b, WorkerTurn())
  {
    AccountOrdered(b);
    RoomCommandOrdered(b);
    KickAndMuteOrdered(b);
    assert Ordered(b, HandleCommand());
    assert Ordered(b, Then(Maybe(HandleCommand()), Maybe(Within(Clients, Skip))));
    assert Ordered(b, Repeat(Within(Tasks, Skip)));
  }

  lemma AcceptOrdered(b: nat)
    requires b == 0
    ensures Ordered(b, AcceptNewClient())
  {
    LogOrdered(b);
    LogOrdered(1);
    assert Ordered(b, Then(Within(Clients, Maybe(LogMessage())), Maybe(LogMessage())));
  }

  lemma TcpOrdered(b: nat)
    requires b == 0
    ensures Ordered(b, HandleTcpCommand()) && Ordered(b, DisconnectClient())
  {
    LogOrdered(b);
    DisconnectOrdered();
    assert Ordered(b, Then(Replies(), Within(Clients, Skip)));
    assert Ordered(b, ProcessClientCommand());
    assert Ordered(b, Then(Maybe(LogMessage()), DisconnectClient()));
  }

  lemma UdpOrdered(b: nat)
    requires b == 0
    ensures Ordered(b, HandleUdpPacket())
  {
    LogOrdered(b);
    assert Ordered(b, RingBufferPush());
    assert Ordered(b, Then(Maybe(Within(Clients, Skip)), Maybe(RingBufferPush())));
  }

  lemma EpollOrdered(b: nat)
    requires b == 0
    ensures Ordered(b, EpollTurn())
  {
    AcceptOrdered(b);
    TcpOrdered(b);
    UdpOrdered(b);
    assert Ordered(b, Either(HandleTcpCommand(), DisconnectClient()));
  }

  lemma MixerOrdered(b: nat)
    requires b == 0
    ensures Ordered(b, MixerTurn()) && Ordered(b, DisplayTurn())
  {
    assert Ordered(b, Then(Within(Ring, Skip), Maybe(Within(Jitter, Skip))));
    assert Ordered(2, Repeat(WithinSomeRoom(Skip)));
  }

  // Every path of every thread takes its locks in rising order.
  lemma TurnsOrdered(role: Role)
    ensures Ordered(0, Turn(role))
  {
    match role {
      case Epoll => EpollOrdered(0);
      case Worker => WorkerOrdered(0);
      case Mixer => MixerOrdered(0);
      case Display => MixerOrdered(0);
      case Fifo => LogOrdered(0);
    }
  }

  // ----- paths that are really taken --------------------------------------------------------------

  lemma ThenYields(a: Path, b: Path, x: seq<Op>, y: seq<Op>)
    requires Yields(a, x) && Yields(b, y)
    ensures Yields(Then(a, b), x + y)
  {
    var ops := x + y;
    assert ops[..|x|] == x && ops[|x|..] == y;
  }

  // Taking a lock, doing this, and giving it back.
  function Locked(l: Lock, inside: seq<Op>): seq<Op> {
    [Acquire(l)] + inside + [Release(l)]
  }

  lemma WithinYields(l: Lock, a: Path, x: seq<Op>)
    requires Yields(a, x)
    ensures Yields(Within(l, a), Locked(l, x)) && (l.Room? ==> Yields(WithinSomeRoom(a), Locked(l, x)))
  {
    var ops := Locked(l, x);
    assert ops[1..|ops| - 1] == x;
    assert Bracketed(l, ops);
  }

  lemma OnceYields(a: Path, x: seq<Op>)
    requires Yields(a, x) && x != []
    ensures Yields(Repeat(a), x) && Yields(Maybe(a), x)
  {
    assert x[..|x|] == x && x[|x|..] == [];
    assert Yields(Repeat(a), []);
  }

  lemma LogYields()
    ensures Yields(LogMessage(), Locked(Log, [])) && Yields(Replies(), Locked(Log, []))
  {
    WithinYields(Log, Skip, []);
    OnceYields(LogMessage(), Locked(Log, []));
  }

  // MUTE logs with the room locked.
  lemma MuteHoldsTwo(id: nat)
    ensures Yields(HandleMute(), Locked(Room(id), Locked(Log, [])))
  {
    LogYields();
    var x := Locked(Room(id), Locked(Log, []));
    WithinYields(Room(id), Replies(), Locked(Log, []));
    OnceYields(WithinSomeRoom(Replies()), x);
    assert Yields(Replies(), []);
    ThenYields(Maybe(WithinSomeRoom(Replies())), Replies(), x, []);
    assert x + [] == x;
  }

  // A tick of the mixer locks one room after the other with the list locked.
  lemma MixerHoldsTwo(a: nat, b: nat)
    ensures Yields(MixerTurn(), Locked(Rooms, Locked(Room(a), []) + Locked(Room(b), [])))
  {
    var p := WithinSomeRoom(Skip);
    var x, y := Locked(Room(a), []), Locked(Room(b), []);
    WithinYields(Room(a), Skip, []);
    WithinYields(Room(b), Skip, []);
    OnceYields(p, y);
    assert (x + y)[..|x|] == x && (x + y)[|x|..] == y;
    assert Yields(Repeat(p), x + y);
    WithinYields(Rooms, Repeat(p), x + y);
    var drain := Repeat(Then(Within(Ring, Skip), Maybe(Within(Jitter, Skip))));
    assert Yields(drain, []);
    ThenYields(drain, Within(Rooms, Repeat(p)), [], Locked(Rooms, x + y));
    assert [] + Locked(Rooms, x + y) == Locked(Rooms, x + y);
  }

  // Disconnecting the last participant of a room: the room, the list and the log, one after the
  // other, with the client table locked.
  function LastOneGone(id: nat): seq<Op> {
    Locked(Room(id), []) + (Locked(Rooms, []) + Locked(Log, [])) + Locked(Log, [])
  }

  lemma DeleteYields()
    ensures Yields(Maybe(RoomDelete()), Locked(Rooms, []) + Locked(Log, []))
  {
    LogYields();
    WithinYields(Rooms, Skip, []);
    assert Yields(Maybe(WriteRoom()), []);
    ThenYields(Maybe(WriteRoom()), LogMessage(), [], Locked(Log, []));
    assert [] + Locked(Log, []) == Locked(Log, []);
    OnceYields(Then(Maybe(WriteRoom()), LogMessage()), Locked(Log, []));
    ThenYields(Within(Rooms, Skip), Maybe(Then(Maybe(WriteRoom()), LogMessage())), Locked(Rooms, []), Locked(Log, []));
    OnceYields(RoomDelete(), Locked(Rooms, []) + Locked(Log, []));
  }

  lemma RemovalYields(id: nat)
    ensures Yields(Maybe(RemoveClientFromRoom()), Locked(Room(id), []) + (Locked(Rooms, []) + Locked(Log, [])))
  {
    var d := Locked(Rooms, []) + Locked(Log, []);
    DeleteYields();
    WithinYields(Room(id), Skip, []);
    assert Yields(Maybe(WriteRoom()), []);
    ThenYields(Maybe(WriteRoom()), Maybe(RoomDelete()), [], d);
    assert [] + d == d;
    ThenYields(WithinSomeRoom(Skip), Then(Maybe(WriteRoom()), Maybe(RoomDelete())), Locked(Room(id), []), d);
    OnceYields(RemoveClientFromRoom(), Locked(Room(id), []) + d);
  }

  lemma DisconnectHoldsTwo(id: nat)
    ensures Yields(DisconnectClient(), Locked(Clients, LastOneGone(id)))
  {
    var x := Locked(Room(id), []) + (Locked(Rooms, []) + Locked(Log, []));
    RemovalYields(id);
    LogYields();
    ThenYields(Maybe(RemoveClientFromRoom()), LogMessage(), x, Locked(Log, []));
    OnceYields(Then(Maybe(RemoveClientFromRoom()), LogMessage()), LastOneGone(id));
    WithinYields(Clients, Maybe(Then(Maybe(RemoveClientFromRoom()), LogMessage())), LastOneGone(id));
  }

  // ----- the invariant -----------------------------------------------------------------------------------

  predicate Orderly(th: Thread) {
    Disciplined(th.held, th.todo) && Rising(th.held)
  }

  // No lock is held by two threads.
  predicate Exclusive(s: State, t: nat, u: nat) {
    t < |s| && u < |s| && t != u ==> forall l :: l in s[t].held ==> l !in s[u].held
  }

  ghost predicate Inv(s: State) {
    && (forall t :: 0 <= t < |s| ==> Orderly(s[t]))
    && (forall t, u :: Exclusive(s, t, u))
  }

  lemma AdvancedOrderly(th: Thread)
    requires Orderly(th) && th.todo != []
    ensures Orderly(Advanced(th))
    ensures th.todo[0].Release? ==> Advanced(th).held == th.held[..|th.held| - 1]
  {
  }

  lemma StepKeeps(s: State, a: Action)
    requires Inv(s) && Enabled(s, a)
    ensures Inv(Apply(s, a))
  {
    var s' := Apply(s, a);
    match a {
      case Begin(t, ops) =>
        assert s[t].held == [];
        TurnsOrdered(s[t].role);
        PathDisciplined(Turn(s[t].role), 0, [], ops, []);
        assert ops + [] == ops;
        forall u: nat, v: nat
          ensures Exclusive(s', u, v)
        {
          assert Exclusive(s, u, v);
        }
      case Go(t) =>
        AdvancedOrderly(s[t]);
        forall u: nat, v: nat
          ensures Exclusive(s', u, v)
        {
          assert Exclusive(s, u, v);
        }
    }
  }

  // ----- no cycle of waiting threads --------------------------------------------------------------------

  // Thread `t` is about to take a lock that thread `u` holds.
  predicate Waits(s: State, t: nat, u: nat) {
    t < |s| && u < |s| && s[t].todo != [] && s[t].todo[0].Acquire? && s[t].todo[0].lock in s[u].held
  }

  function Next(c: seq<nat>, i: nat): nat
    requires i < |c|
  {
    if i + 1 < |c| then c[i + 1] else c[0]
  }

  predicate WaitsAt(s: State, c: seq<nat>, i: nat) {
    i < |c| ==> Waits(s, c[i], Next(c, i))
  }

  ghost predicate Cycle(s: State, c: seq<nat>) {
    |c| > 0 && forall i :: WaitsAt(s, c, i)
  }

  // The rank of the lock a thread is about to take.
  function Wanted(s: State, t: nat): nat {
    if t < |s| && s[t].todo != [] && s[t].todo[0].Acquire? then Rank(s[t].todo[0].lock) else 0
  }

  // A thread waits for a lock of lower rank than whoever holds it waits for.
  lemma WaitsRise(s: State, t: nat, u: nat, v: nat)
    requires Inv(s) && Waits(s, t, u) && Waits(s, u, v)
    ensures Wanted(s, t) < Wanted(s, u)
  {
    assert Orderly(s[u]);
  }

  lemma {:induction false} ChainRises(s: State, c: seq<nat>, k: nat)
    requires Inv(s) && Cycle(s, c) && 0 < k < |c|
    ensures Wanted(s, c[0]) < Wanted(s, c[k])
  {
    assert WaitsAt(s, c, k - 1) && WaitsAt(s, c, k);
    WaitsRise(s, c[k - 1], c[k], Next(c, k));
    if k > 1 {
      ChainRises(s, c, k - 1);
    }
  }

  // Round the cycle the rank would have to rise above itself.
  lemma NoCycle(s: State, c: seq<nat>)
    requires Inv(s)
    ensures !Cycle(s, c)
  {
    if Cycle(s, c) {
      var last := |c| - 1;
      assert WaitsAt(s, c, last) && WaitsAt(s, c, 0);
      if last > 0 {
        ChainRises(s, c, last);
      }
      WaitsRise(s, c[last], c[0], Next(c, 0));
      assert false;
    }
  }

  // While some thread is in the middle of a turn, some thread can go on.
  lemma {:induction false} SomeoneCanGo(s: State, t: nat) returns (u: nat)
    requires Inv(s) && t < |s| && s[t].todo != []
    ensures CanGo(s, u)
    decreases if s[t].todo[0].Acquire? then 5 - Rank(s[t].todo[0].lock) else 0
  {
    if CanGo(s, t) {
      u := t;
    } else {
      var l := s[t].todo[0].lock;
      var v :| 0 <= v < |s| && l in s[v].held;
      assert Orderly(s[v]) && s[v].held != [];
      assert s[v].todo != [];
      u := SomeoneCanGo(s, v);
    }
  }

  lemma OneRoomAtATime(s: State, t: nat, a: nat, b: nat)
    requires Inv(s) && t < |s| && Room(a) in s[t].held && Room(b) in s[t].held
    ensures a == b
  {
    var i :| 0 <= i < |s[t].held| && s[t].held[i] == Room(a);
    var j :| 0 <= j < |s[t].held| && s[t].held[j] == Room(b);
    assert Orderly(s[t]);
  }

  // ----- whole runs -----------------------------------------------------------------------------------------

  ghost predicate Legal(s: State, run: seq<Action>)
    decreases |run|
  {
    run == [] || (Enabled(s, run[0]) && Legal(Apply(s, run[0]), run[1..]))
  }

  ghost function After(s: State, run: seq<Action>): State
    requires Legal(s, run)
    decreases |run|
  {
    if run == [] then s else After(Apply(s, run[0]), run[1..])
  }

  // Any number of threads of each role, all between turns.
  predicate Idle(s: State) {
    forall t :: 0 <= t < |s| ==> s[t].held == [] && s[t].todo == []
  }

  lemma {:induction false} RunKeeps(s: State, run: seq<Action>)
    requires Inv(s) && Legal(s, run)
    ensures Inv(After(s, run))
    decreases |run|
  {
    if run != [] {
      StepKeeps(s, run[0]);
      RunKeeps(Apply(s, run[0]), run[1..]);
    }
  }

  /**
   In every interleaving of any number of threads, no threads wait for each other in a cycle,
   no thread holds two room locks, and a turn once begun never leaves all threads stuck.
   */
  lemma DeadlockFree(s: State, run: seq<Action>)
    requires Idle(s) && Legal(s, run)
    ensures forall c :: !Cycle(After(s, run), c)
    ensures forall t, a, b ::
              0 <= t < |After(s, run)| && Room(a) in After(s, run)[t].held && Room(b) in After(s, run)[t].held ==>
              a == b
    ensures forall t :: 0 <= t < |After(s, run)| && After(s, run)[t].todo != [] ==> exists u :: CanGo(After(s, run), u)
  {
    RunKeeps(s, run);
    var s' := After(s, run);
    forall c
      ensures !Cycle(s', c)
    {
      NoCycle(s', c);
    }
    forall t, a, b | 0 <= t < |s'| && Room(a) in s'[t].held && Room(b) in s'[t].held
      ensures a == b
    {
      OneRoomAtATime(s', t, a, b);
    }
    forall t | 0 <= t < |s'| && s'[t].todo != []
      ensures exists u :: CanGo(s', u)
    {
      var u := SomeoneCanGo(s', t);
    }
  }
}
