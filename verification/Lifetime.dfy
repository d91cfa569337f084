/**
 The life of a client object: reference counts held by the client table, the task queue, the
 workers and the epoll thread, interleaved at the granularity of the locks.
 */
module Lifetime {
  import opened Common

  // A client object is named by its place in the order of allocation.
  type Ref = nat

  datatype Client = Client(refs: int, active: bool, freed: bool)

  datatype EpollPc =
    | Resting
    | Enqueuing(ref: Ref)  // has counted its reference, is about to queue the command
    | Rejecting(ref: Ref)  // found the queue full, has yet to give its reference back

  datatype WorkerPc =
    | Waiting
    | Took(ref: Ref)       // has taken a task, is about to look at its client
    | Running(ref: Ref)    // found the client active, carries out the command
    | Kicking(ref: Ref, target: Ref)  // found the target of a KICK, is about to use it
    | Releasing(ref: Ref)  // is done with the command, has yet to give the reference back

  // `leaked` counts, per client, the blank commands that were handled while it was active.
  // `frees` lists the calls to `free` in order. `listed` are the clients in some room's participant
  // array, `late` those of them that were put there when they were no longer active.
  datatype State = State(heap: seq<Client>, table: seq<Option<Ref>>, queue: seq<Ref>,
                         epoll: EpollPc, workers: seq<WorkerPc>, leaked: seq<nat>, frees: seq<Ref>,
                         listed: set<Ref>, late: set<Ref>)

  datatype Action =
    | Accept(slot: nat)
    | Lookup(slot: nat)
    | Enqueue
    | Reject
    | Disconnect(slot: nat)
    | Udp(slot: nat)                      // notes the sender's address
    | Take(worker: nat)
    | Handle(worker: nat, blank: bool)
    | Join(worker: nat)                   // puts the worker's own client in a participant array
    | Leave(worker: nat)
    | Promote(worker: nat, slot: nat)     // sets the role of a client in the table
    | FindTarget(worker: nat, target: Ref)  // finds a participant to kick, under the room lock
    | UseTarget(worker: nat)              // kicks it, after that lock is released
    | Finish(worker: nat)
    | Release(worker: nat)
    | ReadListed(target: Ref)             // the mixer or a search reads a participant

  // The client an action reads or writes.
  function Touched(s: State, a: Action): Option<Ref> {
    match a
    case Accept(_) => None
    case Lookup(i) => if i < |s.table| then s.table[i] else None
    case Enqueue => if s.epoll.Enqueuing? then Some(s.epoll.ref) else None
    case Reject => if s.epoll.Rejecting? then Some(s.epoll.ref) else None
    case Disconnect(i) => if i < |s.table| then s.table[i] else None
    case Take(_) => None
    case Udp(i) => if i < |s.table| then s.table[i] else None
    case Handle(w, _) => if w < |s.workers| && s.workers[w].Took? then Some(s.workers[w].ref) else None
    case Join(w) => if w < |s.workers| && s.workers[w].Running? then Some(s.workers[w].ref) else None
    case Leave(w) => if w < |s.workers| && s.workers[w].Running? then Some(s.workers[w].ref) else None
    case Promote(_, i) => if i < |s.table| then s.table[i] else None
    case FindTarget(_, t) => if t in s.listed then Some(t) else None
    case UseTarget(w) => if w < |s.workers| && s.workers[w].Kicking? then Some(s.workers[w].target) else None
    case Finish(w) => if w < |s.workers| && s.workers[w].Running? then Some(s.workers[w].ref) else None
    case Release(w) => if w < |s.workers| && s.workers[w].Releasing? then Some(s.workers[w].ref) else None
    case ReadListed(t) => if t in s.listed then Some(t) else None
  }

  predicate Enabled(s: State, a: Action) {
    match a
    case Accept(i) => s.epoll.Resting? && i < |s.table| && s.table[i].None?
    case Take(w) => w < |s.workers| && s.workers[w].Waiting? && s.queue != []
    case Lookup(_) => s.epoll.Resting? && Touched(s, a).Some? && Touched(s, a).value < |s.heap|
    case Disconnect(_) => s.epoll.Resting? && Touched(s, a).Some? && Touched(s, a).value < |s.heap|
    case Handle(_, _) => Touched(s, a).Some? && Touched(s, a).value < |s.heap| == |s.leaked|
    case Udp(_) => s.epoll.Resting? && Touched(s, a).Some? && Touched(s, a).value < |s.heap|
    case Promote(w, _) => IsRunning(s, w) && Touched(s, a).Some? && Touched(s, a).value < |s.heap|
    case FindTarget(w, _) => IsRunning(s, w) && Touched(s, a).Some? && Touched(s, a).value < |s.heap|
    case _ => Touched(s, a).Some? && Touched(s, a).value < |s.heap|
  }

  // A worker in the middle of a command. It looked at its client once, before it began.
  predicate IsRunning(s: State, w: nat) {
    w < |s.workers| && s.workers[w].Running?
  }

  // Accesses through a counted reference or through the locked client table. The others reach a
  // client through a room's participant array, which counts nothing.
  predicate Counted(a: Action) {
    !a.FindTarget? && !a.UseTarget? && !a.ReadListed?
  }

  // Gives one reference back and frees the client when it was the last.
  function Drop(s: State, r: Ref): State
    requires r < |s.heap|
  {
    var c := s.heap[r];
    if c.refs == 1 then s.(heap := s.heap[r := c.(refs := 0, freed := true)], frees := s.frees + [r])
    else s.(heap := s.heap[r := c.(refs := c.refs - 1)])
  }

  function Apply(s: State, a: Action): State
    requires Enabled(s, a)
  {
    match a
    case Accept(i) =>
      s.(heap := s.heap + [Client(1, true, false)], leaked := s.leaked + [0], table := s.table[i := Some(|s.heap|)])
    case Lookup(i) =>
      var r := s.table[i].value;
      s.(heap := s.heap[r := s.heap[r].(refs := s.heap[r].refs + 1)], epoll := Enqueuing(r))
    case Enqueue =>
      if |s.queue| < MAX_QUEUED_TASKS then s.(queue := s.queue + [s.epoll.ref], epoll := Resting)
      else s.(epoll := Rejecting(s.epoll.ref))
    case Reject =>
      Drop(s.(epoll := Resting), s.epoll.ref)
    case Disconnect(i) =>
      var r := s.table[i].value;
      Drop(s.(heap := s.heap[r := s.heap[r].(active := false)], table := s.table[i := None],
              listed := s.listed - {r}), r)
    case Udp(_) => s
    case Take(w) =>
      s.(queue := s.queue[1..], workers := s.workers[w := Took(s.queue[0])])
    case Handle(w, blank) =>
      var r := s.workers[w].ref;
      if !s.heap[r].active then s.(workers := s.workers[w := Releasing(r)])
      else if blank then s.(workers := s.workers[w := Waiting], leaked := s.leaked[r := s.leaked[r] + 1])
      else s.(workers := s.workers[w := Running(r)])
    case Join(w) =>
      var r := s.workers[w].ref;
      s.(listed := s.listed + {r}, late := if s.heap[r].active then s.late else s.late + {r})
    case Leave(w) =>
      s.(listed := s.listed - {s.workers[w].ref})
    case Promote(_, _) => s
    case FindTarget(w, t) =>
      s.(workers := s.workers[w := Kicking(s.workers[w].ref, t)])
    case UseTarget(w) =>
      s.(workers := s.workers[w := Releasing(s.workers[w].ref)], listed := s.listed - {s.workers[w].target})
    case Finish(w) =>
      s.(workers := s.workers[w := Releasing(s.workers[w].ref)])
    case Release(w) =>
      Drop(s.(workers := s.workers[w := Waiting]), s.workers[w].ref)
    case ReadListed(_) => s
  }

  // ----- who holds a reference ------------------------------------------------------------------

  function Listed(table: seq<Option<Ref>>, r: Ref): nat {
    if table == [] then 0
    else Listed(table[..|table| - 1], r) + (if table[|table| - 1] == Some(r) then 1 else 0)
  }

  function Queued(queue: seq<Ref>, r: Ref): nat {
    if queue == [] then 0
    else Queued(queue[..|queue| - 1], r) + (if queue[|queue| - 1] == r then 1 else 0)
  }

  function HeldBy(w: WorkerPc, r: Ref): nat {
    if !w.Waiting? && w.ref == r then 1 else 0
  }

  function InWork(workers: seq<WorkerPc>, r: Ref): nat {
    if workers == [] then 0
    else InWork(workers[..|workers| - 1], r) + HeldBy(workers[|workers| - 1], r)
  }

  function OnEpoll(e: EpollPc, r: Ref): nat {
    if !e.Resting? && e.ref == r then 1 else 0
  }

  // The references that someone will still give back.
  function Holders(s: State, r: Ref): nat {
    Listed(s.table, r) + Queued(s.queue, r) + InWork(s.workers, r) + OnEpoll(s.epoll, r)
  }

  lemma {:induction false} ListedUpdate(table: seq<Option<Ref>>, i: nat, e: Option<Ref>, r: Ref)
    requires i < |table|
    ensures Listed(table[i := e], r) ==
            Listed(table, r) - (if table[i] == Some(r) then 1 else 0) + (if e == Some(r) then 1 else 0)
    ensures table[i] == Some(r) ==> Listed(table, r) >= 1
  {
    var n := |table| - 1;
    if i < n {
      ListedUpdate(table[..n], i, e, r);
      assert table[i := e][..n] == table[..n][i := e];
    } else {
      assert table[i := e][..n] == table[..n];
    }
  }

  lemma {:induction false} InWorkUpdate(workers: seq<WorkerPc>, i: nat, w: WorkerPc, r: Ref)
    requires i < |workers|
    ensures InWork(workers[i := w], r) == InWork(workers, r) - HeldBy(workers[i], r) + HeldBy(w, r)
    ensures HeldBy(workers[i], r) <= InWork(workers, r)
  {
    var n := |workers| - 1;
    if i < n {
      InWorkUpdate(workers[..n], i, w, r);
      assert workers[i := w][..n] == workers[..n][i := w];
    } else {
      assert workers[i := w][..n] == workers[..n];
    }
  }

  lemma {:induction false} QueuedFront(queue: seq<Ref>, r: Ref)
    requires queue != []
    ensures Queued(queue, r) == (if queue[0] == r then 1 else 0) + Queued(queue[1..], r)
  {
    if |queue| > 1 {
      QueuedFront(queue[..|queue| - 1], r);
      assert queue[..|queue| - 1][1..] == queue[1..][..|queue| - 2];
    } else {
      assert queue[..0] == [] && queue[1..] == [];
    }
  }

  lemma QueuedBack(queue: seq<Ref>, x: Ref, r: Ref)
    ensures Queued(queue + [x], r) == Queued(queue, r) + (if x == r then 1 else 0)
  {
    assert (queue + [x])[..|queue|] == queue;
  }

  // ----- the accounting ----------------------------------------------------------------------------

  /**
   The count of an unfreed client is exact: references held plus references leaked, and never
   zero. A freed client is held by nobody, and `free` was called on it once.
   */
  ghost predicate Accounted(s: State, r: Ref)
    requires r < |s.heap| == |s.leaked|
  {
    var c := s.heap[r];
    && (!c.freed ==> c.refs == Holders(s, r) + s.leaked[r] && c.refs > 0 && Queued(s.frees, r) == 0)
    && (c.freed ==> Holders(s, r) == 0 && s.leaked[r] == 0 && Queued(s.frees, r) == 1)
    && Listed(s.table, r) == if c.active then 1 else 0
  }

  // Who is listed, and who is about to be kicked, has been allocated. A listed client is still
  // connected unless it was listed late.
  predicate ListedAt(s: State, r: Ref) {
    && (r in s.listed ==> r < |s.heap| && (s.heap[r].active <==> r !in s.late))
    && (r in s.late ==> r < |s.heap| && !s.heap[r].active)
  }

  predicate TargetAt(s: State, w: nat) {
    w < |s.workers| && s.workers[w].Kicking? ==> s.workers[w].target < |s.heap|
  }

  ghost predicate Participants(s: State) {
    (forall r :: ListedAt(s, r)) && (forall w :: TargetAt(s, w))
  }

  ghost predicate Inv(s: State) {
    && |s.heap| == |s.leaked|
    && Participants(s)
    && (forall r: Ref :: r >= |s.heap| ==> Holders(s, r) == 0 && Queued(s.frees, r) == 0)
    && (forall r: Ref :: r < |s.heap| ==> Accounted(s, r))
  }

  // What a counted access touches is held by its thread or by the table.
  lemma TouchedIsHeld(s: State, a: Action)
    requires Touched(s, a).Some? && Counted(a)
    ensures Holders(s, Touched(s, a).value) >= 1
  {
    var r := Touched(s, a).value;
    match a {
      case Lookup(i) => ListedUpdate(s.table, i, None, r);
      case Disconnect(i) => ListedUpdate(s.table, i, None, r);
      case Handle(w, _) => InWorkUpdate(s.workers, w, Waiting, r);
      case Udp(i) => ListedUpdate(s.table, i, None, r);
      case Join(w) => InWorkUpdate(s.workers, w, Waiting, r);
      case Leave(w) => InWorkUpdate(s.workers, w, Waiting, r);
      case Promote(_, i) => ListedUpdate(s.table, i, None, r);
      case Finish(w) => InWorkUpdate(s.workers, w, Waiting, r);
      case Release(w) => InWorkUpdate(s.workers, w, Waiting, r);
      case _ =>
    }
  }

  /**
   The epoll thread and the workers never reach a freed client through the table, the queue or
   a reference of their own.
   */
  lemma NoUseAfterFree(s: State, a: Action)
    requires Inv(s) && Touched(s, a).Some? && Counted(a)
    ensures Touched(s, a).value < |s.heap| && !s.heap[Touched(s, a).value].freed
  {
    TouchedIsHeld(s, a);
    var r := Touched(s, a).value;
    assert r < |s.heap| ==> Accounted(s, r);
  }

  // What an action does to the references held on a client.
  function HolderChange(s: State, a: Action, r: Ref): int
    requires Enabled(s, a)
  {
    match a
    case Accept(_) => if r == |s.heap| then 1 else 0
    case Lookup(_) => if Touched(s, a) == Some(r) then 1 else 0
    case Reject => if Touched(s, a) == Some(r) then -1 else 0
    case Disconnect(_) => if Touched(s, a) == Some(r) then -1 else 0
    case Release(_) => if Touched(s, a) == Some(r) then -1 else 0
    case Handle(_, blank) =>
      if Touched(s, a) == Some(r) && s.heap[r].active && blank then -1 else 0
    case _ => 0
  }

  predicate ByEpoll(a: Action) {
    a.Accept? || a.Lookup? || a.Enqueue? || a.Reject? || a.Disconnect? || a.Udp?
  }

  lemma EpollHoldersStep(s: State, a: Action, r: Ref)
    requires Enabled(s, a) && ByEpoll(a)
    ensures Holders(Apply(s, a), r) == Holders(s, r) + HolderChange(s, a, r)
  {
    match a {
      case Accept(i) => ListedUpdate(s.table, i, Some(|s.heap|), r);
      case Enqueue => QueuedBack(s.queue, s.epoll.ref, r);
      case Disconnect(i) => ListedUpdate(s.table, i, None, r);
      case _ =>
    }
  }

  lemma WorkerHoldersStep(s: State, a: Action, r: Ref)
    requires Enabled(s, a) && !ByEpoll(a)
    ensures Holders(Apply(s, a), r) == Holders(s, r) + HolderChange(s, a, r)
  {
    match a {
      case Take(w) =>
        QueuedFront(s.queue, r);
        InWorkUpdate(s.workers, w, Took(s.queue[0]), r);
      case Handle(w, _) => InWorkUpdate(s.workers, w, Apply(s, a).workers[w], r);
      case FindTarget(w, _) => InWorkUpdate(s.workers, w, Apply(s, a).workers[w], r);
      case UseTarget(w) => InWorkUpdate(s.workers, w, Apply(s, a).workers[w], r);
      case Finish(w) => InWorkUpdate(s.workers, w, Apply(s, a).workers[w], r);
      case Release(w) => InWorkUpdate(s.workers, w, Waiting, r);
      case _ =>
    }
  }

  lemma HoldersStep(s: State, a: Action, r: Ref)
    requires Enabled(s, a)
    ensures Holders(Apply(s, a), r) == Holders(s, r) + HolderChange(s, a, r)
  {
    if ByEpoll(a) {
      EpollHoldersStep(s, a, r);
    } else {
      WorkerHoldersStep(s, a, r);
    }
  }

  lemma ListedStep(s: State, a: Action, r: Ref)
    requires Enabled(s, a)
    ensures Listed(Apply(s, a).table, r) == Listed(s.table, r) +
            if a.Accept? && r == |s.heap| then 1
            else if a.Disconnect? && Touched(s, a) == Some(r) then -1
            else 0
  {
    match a {
      case Accept(i) => ListedUpdate(s.table, i, Some(|s.heap|), r);
      case Disconnect(i) => ListedUpdate(s.table, i, None, r);
      case _ =>
    }
  }

  function LeakChange(s: State, a: Action, r: Ref): int
    requires Enabled(s, a)
  {
    if a.Handle? && Touched(s, a) == Some(r) && s.heap[r].active && a.blank then 1 else 0
  }

  // What an action does to a client object that already exists.
  lemma ObjectStep(s: State, a: Action, r: Ref)
    requires Enabled(s, a) && r < |s.heap| == |s.leaked|
    requires Touched(s, a) == Some(r) && Counted(a) ==> s.heap[r].refs > 0 && !s.heap[r].freed
    ensures r < |Apply(s, a).heap| == |Apply(s, a).leaked|
    ensures var c, c' := s.heap[r], Apply(s, a).heap[r];
            && c'.refs == c.refs + HolderChange(s, a, r) + LeakChange(s, a, r)
            && c'.freed == (c.freed || (c'.refs == 0 && c.refs > 0))
            && c'.active == (c.active && !(a.Disconnect? && Touched(s, a) == Some(r)))
    ensures Apply(s, a).leaked[r] == s.leaked[r] + LeakChange(s, a, r)
  {
  }

  lemma FreesStep(s: State, a: Action, r: Ref)
    requires Enabled(s, a)
    requires Touched(s, a) == Some(r) ==> r < |s.heap|
    ensures Queued(Apply(s, a).frees, r) == Queued(s.frees, r) +
            if Touched(s, a) == Some(r) && HolderChange(s, a, r) == -1 && LeakChange(s, a, r) == 0
               && s.heap[r].refs == 1
            then 1 else 0
  {
    if Touched(s, a).Some? {
      QueuedBack(s.frees, Touched(s, a).value, r);
    }
  }

  lemma AccountedStep(s: State, a: Action, r: Ref)
    requires Inv(s) && Enabled(s, a) && r < |s.heap|
    ensures r < |Apply(s, a).heap| == |Apply(s, a).leaked| && Accounted(Apply(s, a), r)
  {
    assert Accounted(s, r);
    if Touched(s, a) == Some(r) && Counted(a) {
      NoUseAfterFree(s, a);
    }
    HoldersStep(s, a, r);
    ListedStep(s, a, r);
    ObjectStep(s, a, r);
    FreesStep(s, a, r);
  }

  lemma AccountedNew(s: State, a: Action)
    requires Inv(s) && Enabled(s, a) && a.Accept?
    ensures |Apply(s, a).heap| == |Apply(s, a).leaked| == |s.heap| + 1 && Accounted(Apply(s, a), |s.heap|)
  {
    HoldersStep(s, a, |s.heap|);
    ListedStep(s, a, |s.heap|);
    assert Holders(s, |s.heap|) == 0;
  }

  lemma HeapGrows(s: State, a: Action)
    requires Enabled(s, a)
    ensures |Apply(s, a).heap| == |s.heap| + (if a.Accept? then 1 else 0)
    ensures Touched(s, a).Some? ==> Touched(s, a).value < |s.heap|
  {
  }

  lemma UnallocatedStep(s: State, a: Action, r: Ref)
    requires Inv(s) && Enabled(s, a) && r >= |Apply(s, a).heap|
    ensures Holders(Apply(s, a), r) == 0 && Queued(Apply(s, a).frees, r) == 0
  {
    HeapGrows(s, a);
    assert Holders(s, r) == 0 && Queued(s.frees, r) == 0;
    HoldersStep(s, a, r);
    FreesStep(s, a, r);
  }

  lemma ParticipantsStep(s: State, a: Action)
    requires Inv(s) && Enabled(s, a)
    ensures Participants(Apply(s, a))
  {
    var s' := Apply(s, a);
    forall r: Ref
      ensures ListedAt(s', r)
    {
      assert ListedAt(s, r);
      if r < |s.heap| {
        ObjectActive(s, a, r);
      }
    }
    forall w: nat
      ensures TargetAt(s', w)
    {
      assert TargetAt(s, w);
    }
  }

  lemma ObjectActive(s: State, a: Action, r: Ref)
    requires Enabled(s, a) && r < |s.heap|
    ensures r < |Apply(s, a).heap|
    ensures Apply(s, a).heap[r].active == (s.heap[r].active && !(a.Disconnect? && Touched(s, a) == Some(r)))
  {
  }

  lemma StepKeeps(s: State, a: Action)
    requires Inv(s) && Enabled(s, a)
    ensures Inv(Apply(s, a))
  {
    var s' := Apply(s, a);
    assert |s'.heap| == |s'.leaked|;
    ParticipantsStep(s, a);
    forall r: Ref | r >= |s'.heap|
      ensures Holders(s', r) == 0 && Queued(s'.frees, r) == 0
    {
      UnallocatedStep(s, a, r);
    }
    forall r: Ref | r < |s'.heap|
      ensures Accounted(s', r)
    {
      if r < |s.heap| {
        AccountedStep(s, a, r);
      } else {
        AccountedNew(s, a);
      }
    }
  }

  // ----- whole runs -----------------------------------------------------------------------------------

  function Vacant(n: nat): (t: seq<Option<Ref>>) {
    seq(n, _ => None)
  }

  function AllWaiting(n: nat): (w: seq<WorkerPc>) {
    seq(n, _ => Waiting)
  }

  function Start(slots: nat, workers: nat): State {
    State([], Vacant(slots), [], Resting, AllWaiting(workers), [], [], {}, {})
  }

  lemma {:induction false} NobodyListed(n: nat, r: Ref)
    ensures Listed(Vacant(n), r) == 0
  {
    if n > 0 {
      NobodyListed(n - 1, r);
      assert Vacant(n)[..n - 1] == Vacant(n - 1);
    }
  }

  lemma {:induction false} NobodyWorks(n: nat, r: Ref)
    ensures InWork(AllWaiting(n), r) == 0
  {
    if n > 0 {
      NobodyWorks(n - 1, r);
      assert AllWaiting(n)[..n - 1] == AllWaiting(n - 1);
    }
  }

  // A run is any sequence of actions, of whatever threads, each enabled when its turn comes.
  ghost predicate Legal(s: State, run: seq<Action>)
    decreases run
  {
    run == [] || (Enabled(s, run[0]) && Legal(Apply(s, run[0]), run[1..]))
  }

  ghost function After(s: State, run: seq<Action>): State
    requires Legal(s, run)
    decreases run
  {
    if run == [] then s else After(Apply(s, run[0]), run[1..])
  }

  lemma {:induction false} RunKeeps(s: State, run: seq<Action>)
    requires Inv(s) && Legal(s, run)
    ensures Inv(After(s, run))
    decreases run
  {
    if run != [] {
      StepKeeps(s, run[0]);
      RunKeeps(Apply(s, run[0]), run[1..]);
    }
  }

  lemma StartHolds(slots: nat, workers: nat)
    ensures Inv(Start(slots, workers))
  {
    forall r: Ref
      ensures Holders(Start(slots, workers), r) == 0
    {
      NobodyListed(slots, r);
      NobodyWorks(workers, r);
    }
  }

  /**
   After every interleaving of the epoll thread and any number of workers, before shutdown, the
   accounting holds.
   */
  lemma LifetimeSafety(slots: nat, workers: nat, run: seq<Action>)
    requires Legal(Start(slots, workers), run)
    ensures Inv(After(Start(slots, workers), run))
  {
    StartHolds(slots, workers);
    RunKeeps(Start(slots, workers), run);
  }

  /**
   A client is freed at most once, and never while the table, the queue, a worker or the epoll
   thread holds it.
   */
  lemma FreedOnceAndUnheld(slots: nat, workers: nat, run: seq<Action>, r: Ref)
    requires Legal(Start(slots, workers), run)
    ensures var s := After(Start(slots, workers), run);
            Queued(s.frees, r) <= 1 && (r in s.frees ==> Holders(s, r) == 0)
  {
    LifetimeSafety(slots, workers, run);
    var s := After(Start(slots, workers), run);
    assert r < |s.heap| ==> Accounted(s, r);
    QueuedMember(s.frees, r);
  }

  lemma {:induction false} QueuedMember(queue: seq<Ref>, r: Ref)
    ensures r in queue <==> Queued(queue, r) > 0
  {
    if queue != [] {
      QueuedMember(queue[..|queue| - 1], r);
      assert queue == queue[..|queue| - 1] + [queue[|queue| - 1]];
    }
  }

  /**
   Blank commands are what keeps a client from being freed: once nobody holds a client any more,
   it has been freed if and only if no blank command of its was handled while it was connected.
   */
  lemma FreedUnlessLeaked(slots: nat, workers: nat, run: seq<Action>, r: Ref)
    requires Legal(Start(slots, workers), run)
    requires var s := After(Start(slots, workers), run); r < |s.heap| && Holders(s, r) == 0
    ensures var s := After(Start(slots, workers), run);
            r < |s.leaked| && (s.heap[r].freed <==> s.leaked[r] == 0)
  {
    LifetimeSafety(slots, workers, run);
    assert Accounted(After(Start(slots, workers), run), r);
  }

  // One handled blank command is enough to keep the client allocated in every later state.
  lemma {:induction false} LeakedForever(s: State, run: seq<Action>, r: Ref)
    requires Inv(s) && Legal(s, run) && r < |s.heap| && s.leaked[r] > 0
    ensures r < |After(s, run).heap| && !After(s, run).heap[r].freed
    decreases run
  {
    if run == [] {
      assert Accounted(s, r);
    } else {
      StepKeeps(s, run[0]);
      LeakStep(s, run[0], r);
      LeakedForever(Apply(s, run[0]), run[1..], r);
    }
  }

  lemma LeakStep(s: State, a: Action, r: Ref)
    requires Inv(s) && Enabled(s, a) && r < |s.heap|
    ensures r < |Apply(s, a).leaked| && Apply(s, a).leaked[r] >= s.leaked[r]
  {
  }

  // One enabled action in front of a run.
  lemma RunCons(s: State, a: Action, rest: seq<Action>)
    requires Enabled(s, a) && Legal(Apply(s, a), rest)
    ensures Legal(s, [a] + rest) && After(s, [a] + rest) == After(Apply(s, a), rest)
  {
    assert ([a] + rest)[0] == a && ([a] + rest)[1..] == rest;
  }

  // ----- clients in participant arrays ---------------------------------------------------------------

  // Every JOIN of the run is finished while its client is still connected.
  ghost predicate TimelyJoins(s: State, run: seq<Action>)
    requires Legal(s, run)
    decreases run
  {
    run == [] || ((run[0].Join? ==> s.heap[Touched(s, run[0]).value].active) && TimelyJoins(Apply(s, run[0]), run[1..]))
  }

  lemma {:induction false} NobodyLate(s: State, run: seq<Action>)
    requires Legal(s, run) && TimelyJoins(s, run) && s.late == {}
    ensures After(s, run).late == {}
    decreases run
  {
    if run != [] {
      NobodyLate(Apply(s, run[0]), run[1..]);
    }
  }

  /**
   Where every JOIN finishes while its client is connected, no participant array ever holds a
   freed client, so the mixer and the searches of KICK and MUTE are safe.
   */
  lemma ListedIsSafe(slots: nat, workers: nat, run: seq<Action>, r: Ref)
    requires Legal(Start(slots, workers), run) && TimelyJoins(Start(slots, workers), run)
    requires r in After(Start(slots, workers), run).listed
    ensures var s := After(Start(slots, workers), run);
            r < |s.heap| && s.heap[r].active && !s.heap[r].freed
  {
    LifetimeSafety(slots, workers, run);
    NobodyLate(Start(slots, workers), run);
    var s := After(Start(slots, workers), run);
    assert ListedAt(s, r);
    ActiveIsUnfreed(s, r);
  }

  // A connected client is in the table, which holds a reference.
  lemma ActiveIsUnfreed(s: State, r: Ref)
    requires Inv(s) && r < |s.heap| && s.heap[r].active
    ensures !s.heap[r].freed
  {
    assert Accounted(s, r);
  }

  // Only a client that was listed after it had disconnected can be both listed and freed.
  lemma ListedAndFreed(slots: nat, workers: nat, run: seq<Action>, r: Ref)
    requires Legal(Start(slots, workers), run) && r in After(Start(slots, workers), run).listed
    ensures var s := After(Start(slots, workers), run);
            && r < |s.heap| && (s.heap[r].active <==> r !in s.late)
            && (s.heap[r].freed ==> r in s.late)
  {
    LifetimeSafety(slots, workers, run);
    var s := After(Start(slots, workers), run);
    assert ListedAt(s, r);
    if s.heap[r].active {
      ActiveIsUnfreed(s, r);
    }
  }

  // Who is listed after an action: JOIN lists its client, and LEAVE, KICK and disconnection take
  // theirs off.
  lemma ListedStepIs(s: State, a: Action, r: Ref)
    requires Enabled(s, a)
    ensures r in Apply(s, a).listed <==>
            || (a.Join? && s.workers[a.worker].ref == r)
            || (r in s.listed
                && !(a.Leave? && s.workers[a.worker].ref == r)
                && !(a.UseTarget? && s.workers[a.worker].target == r)
                && !(a.Disconnect? && s.table[a.slot] == Some(r)))
  {
  }

  // Commands are taken in the order they were queued, at most 256 wait, and one more is rejected.
  lemma QueueStep(s: State, a: Action)
    requires Enabled(s, a) && |s.queue| <= 256
    ensures |Apply(s, a).queue| <= 256
    ensures a.Enqueue? ==> (Apply(s, a).epoll == Rejecting(s.epoll.ref) <==> |s.queue| == 256)
    ensures Apply(s, a).queue == if a.Enqueue? && |s.queue| < 256 then s.queue + [s.epoll.ref]
                                 else if a.Take? then s.queue[1..] else s.queue
    ensures a.Take? ==> Apply(s, a).workers[a.worker] == Took(s.queue[0])
  {
  }

  // A worker looks at its client before it begins: a command of a client that has gone is dropped,
  // a blank one keeps its reference for good, any other is carried out.
  lemma HandleStep(s: State, w: nat, blank: bool)
    requires Enabled(s, Handle(w, blank))
    ensures var s', r := Apply(s, Handle(w, blank)), s.workers[w].ref;
            && s'.heap == s.heap && s'.table == s.table && s'.queue == s.queue
            && (!s.heap[r].active ==> s'.workers[w] == Releasing(r) && s'.leaked == s.leaked)
            && (s.heap[r].active && blank ==> s'.workers[w] == Waiting && s'.leaked[r] == s.leaked[r] + 1)
            && (s.heap[r].active && !blank ==> s'.workers[w] == Running(r) && s'.leaked == s.leaked)
  {
  }

  lemma {:induction false} QueueBounded(s: State, run: seq<Action>)
    requires Legal(s, run) && |s.queue| <= 256
    ensures |After(s, run).queue| <= 256
    decreases run
  {
    if run != [] {
      QueueStep(s, run[0]);
      QueueBounded(Apply(s, run[0]), run[1..]);
    }
  }

  // ----- what the other threads can do meanwhile -------------------------------------------------------

  // An action of worker `w`.
  predicate By(a: Action, w: nat) {
    match a
    case Take(v) => v == w
    case Handle(v, _) => v == w
    case Join(v) => v == w
    case Leave(v) => v == w
    case Promote(v, _) => v == w
    case FindTarget(v, _) => v == w
    case UseTarget(v) => v == w
    case Finish(v) => v == w
    case Release(v) => v == w
    case _ => false
  }

  predicate WithoutWorker(run: seq<Action>, w: nat) {
    forall i :: 0 <= i < |run| ==> !By(run[i], w)
  }

  lemma IdleStep(s: State, a: Action, w: nat)
    requires Enabled(s, a) && !By(a, w) && w < |s.workers|
    ensures w < |Apply(s, a).workers| && Apply(s, a).workers[w] == s.workers[w]
  {
  }

  lemma {:induction false} IdleRun(s: State, run: seq<Action>, w: nat)
    requires Legal(s, run) && WithoutWorker(run, w) && w < |s.workers|
    ensures w < |After(s, run).workers| && After(s, run).workers[w] == s.workers[w]
    decreases run
  {
    if run != [] {
      IdleStep(s, run[0], w);
      IdleRun(Apply(s, run[0]), run[1..], w);
    }
  }

  // What is left to do until nobody but worker `w` is busy and client `r` is disconnected.
  function Work(pc: WorkerPc): nat {
    match pc
    case Waiting => 0
    case Took(_) => 3
    case Running(_) => 2
    case Kicking(_, _) => 2
    case Releasing(_) => 1
  }

  function TotalWork(workers: seq<WorkerPc>): nat {
    if workers == [] then 0 else TotalWork(workers[..|workers| - 1]) + Work(workers[|workers| - 1])
  }

  function EpollWork(e: EpollPc): nat {
    match e
    case Resting => 0
    case Enqueuing(_) => 6
    case Rejecting(_) => 1
  }

  function Effort(s: State, r: Ref): nat {
    5 * |s.queue| + EpollWork(s.epoll) + TotalWork(s.workers) + Listed(s.table, r)
  }

  lemma {:induction false} WorkUpdate(workers: seq<WorkerPc>, i: nat, pc: WorkerPc)
    requires i < |workers|
    ensures TotalWork(workers[i := pc]) == TotalWork(workers) - Work(workers[i]) + Work(pc)
  {
    var n := |workers| - 1;
    if i < n {
      WorkUpdate(workers[..n], i, pc);
      assert workers[i := pc][..n] == workers[..n][i := pc];
    } else {
      assert workers[i := pc][..n] == workers[..n];
    }
  }

  // The action winds things down: it is not worker `w`'s, and brings client `r` closer to being
  // given up without leaking it.
  ghost predicate WindsDown(s: State, a: Action, w: nat, r: Ref) {
    && Enabled(s, a) && !By(a, w) && r < |s.leaked| == |s.heap|
    && Effort(Apply(s, a), r) < Effort(s, r)
    && r < |Apply(s, a).leaked| && Apply(s, a).leaked[r] == s.leaked[r]
  }

  lemma EpollWinds(s: State, w: nat, r: Ref) returns (a: Action)
    requires Inv(s) && r < |s.heap| && !s.epoll.Resting?
    ensures WindsDown(s, a, w, r)
  {
    a := if s.epoll.Enqueuing? then Enqueue else Reject;
    NoUseUnallocated(s, a);
  }

  // What a held reference leads to has been allocated.
  lemma NoUseUnallocated(s: State, a: Action)
    requires Inv(s) && Touched(s, a).Some? && Counted(a)
    ensures Touched(s, a).value < |s.heap|
  {
    NoUseAfterFree(s, a);
  }

  lemma WorkerWinds(s: State, w: nat, v: nat, r: Ref) returns (a: Action)
    requires Inv(s) && r < |s.heap| && v < |s.workers| && v != w && !s.workers[v].Waiting?
    ensures WindsDown(s, a, w, r)
  {
    a := match s.workers[v]
      case Took(_) => Handle(v, false)
      case Running(_) => Finish(v)
      case Kicking(_, _) => UseTarget(v)
      case _ => Release(v);
    if Counted(a) {
      NoUseUnallocated(s, a);
    } else {
      assert TargetAt(s, v);
    }
    WorkUpdate(s.workers, v, Apply(s, a).workers[v]);
  }

  lemma QueueWinds(s: State, w: nat, v: nat, r: Ref) returns (a: Action)
    requires Inv(s) && r < |s.heap| && v < |s.workers| && v != w && s.workers[v].Waiting? && s.queue != []
    ensures WindsDown(s, a, w, r)
  {
    a := Take(v);
    WorkUpdate(s.workers, v, Took(s.queue[0]));
  }

  lemma TableWinds(s: State, w: nat, r: Ref) returns (a: Action)
    requires Inv(s) && r < |s.heap| && s.epoll.Resting? && Listed(s.table, r) > 0
    ensures WindsDown(s, a, w, r)
  {
    var i := FindListed(s.table, r);
    a := Disconnect(i);
    ListedUpdate(s.table, i, None, r);
  }

  lemma {:induction false} FindListed(table: seq<Option<Ref>>, r: Ref) returns (i: nat)
    requires Listed(table, r) > 0
    ensures i < |table| && table[i] == Some(r)
  {
    if table[|table| - 1] == Some(r) {
      i := |table| - 1;
    } else {
      i := FindListed(table[..|table| - 1], r);
    }
  }

  lemma {:induction false} OnlyWorks(workers: seq<WorkerPc>, w: nat, r: Ref)
    requires forall v :: 0 <= v < |workers| && v != w ==> workers[v].Waiting?
    requires w < |workers| ==> HeldBy(workers[w], r) == 0
    ensures InWork(workers, r) == 0
  {
    if workers != [] {
      OnlyWorks(workers[..|workers| - 1], w, r);
    }
  }

  // As long as somebody other than worker `w` holds the client, somebody other than `w` can act.
  lemma SomeoneWinds(s: State, w: nat, v: nat, r: Ref) returns (a: Action)
    requires Inv(s) && r < |s.heap| && !s.heap[r].freed && s.leaked[r] == 0
    requires v < |s.workers| && v != w && (w < |s.workers| ==> HeldBy(s.workers[w], r) == 0)
    ensures WindsDown(s, a, w, r)
  {
    if !s.epoll.Resting? {
      a := EpollWinds(s, w, r);
    } else if u :| 0 <= u < |s.workers| && u != w && !s.workers[u].Waiting? {
      a := WorkerWinds(s, w, u, r);
    } else if s.queue != [] {
      a := QueueWinds(s, w, v, r);
    } else {
      OnlyWorks(s.workers, w, r);
      assert Accounted(s, r);
      a := TableWinds(s, w, r);
    }
  }

  // A run that ends with the client freed, in which worker `w` takes no part.
  lemma {:induction false} Drain(s: State, w: nat, v: nat, r: Ref) returns (run: seq<Action>)
    requires Inv(s) && r < |s.heap| && s.leaked[r] == 0
    requires v < |s.workers| && v != w && (w < |s.workers| ==> HeldBy(s.workers[w], r) == 0)
    ensures Legal(s, run) && WithoutWorker(run, w)
    ensures r < |After(s, run).heap| && After(s, run).heap[r].freed
    decreases Effort(s, r)
  {
    run := [];
    if !s.heap[r].freed {
      var a := SomeoneWinds(s, w, v, r);
      var s' := Apply(s, a);
      StepKeeps(s, a);
      HeapGrows(s, a);
      if w < |s.workers| {
        IdleStep(s, a, w);
      }
      var rest := Drain(s', w, v, r);
      RunCons(s, a, rest);
      run := [a] + rest;
    }
  }

  // ----- the target of a KICK ----------------------------------------------------------------------

  // While worker `w` rests between finding its target and using it, the others can go on so that
  // the target is freed.
  ghost predicate CanLoseTarget(s: State, w: nat)
    requires w < |s.workers| && s.workers[w].Kicking?
  {
    exists run :: Legal(s, run) && WithoutWorker(run, w) && FreedAfter(s, run, s.workers[w].target)
  }

  ghost predicate FreedAfter(s: State, run: seq<Action>, r: Ref)
    requires Legal(s, run)
  {
    r < |After(s, run).heap| && After(s, run).heap[r].freed
  }

  lemma HeldStaysAllocated(s: State, run: seq<Action>, w: nat)
    requires Inv(s) && Legal(s, run) && WithoutWorker(run, w)
    requires w < |s.workers| && !s.workers[w].Waiting?
    ensures !FreedAfter(s, run, s.workers[w].ref)
  {
    RunKeeps(s, run);
    IdleRun(s, run, w);
    var s' := After(s, run);
    InWorkUpdate(s'.workers, w, Waiting, s.workers[w].ref);
    if s.workers[w].ref < |s'.heap| {
      assert Accounted(s', s.workers[w].ref);
    }
  }

  /**
   What a worker can tell when it has found the target of a KICK: unless the target is its own
   client, or a blank command of the target's has leaked, the target may be freed before it is
   used, whatever references are held on it at the moment.
   */
  lemma KickTargetCanBeFreedIff(s: State, w: nat)
    requires Inv(s) && |s.workers| >= 2 && w < |s.workers| && s.workers[w].Kicking?
    ensures s.workers[w].target < |s.leaked|
    ensures CanLoseTarget(s, w) <==> s.workers[w].target != s.workers[w].ref && s.leaked[s.workers[w].target] == 0
  {
    var r := s.workers[w].target;
    assert TargetAt(s, w);
    if r != s.workers[w].ref && s.leaked[r] == 0 {
      var v: nat := if w == 0 then 1 else 0;
      var run := Drain(s, w, v, r);
      assert FreedAfter(s, run, r);
    }
    forall run | Legal(s, run) && WithoutWorker(run, w)
      ensures r == s.workers[w].ref || s.leaked[r] > 0 ==> !FreedAfter(s, run, r)
    {
      if r == s.workers[w].ref {
        HeldStaysAllocated(s, run, w);
      } else if s.leaked[r] > 0 {
        LeakedForever(s, run, r);
      }
    }
  }

  // ----- three runs ------------------------------------------------------------------------------------

  lemma {:induction false} Extend(s: State, run: seq<Action>, a: Action)
    requires Legal(s, run) && Enabled(After(s, run), a)
    ensures Legal(s, run + [a]) && After(s, run + [a]) == Apply(After(s, run), a)
    decreases run
  {
    if run == [] {
      assert [] + [a] == [a] && [a][1..] == [];
      assert Legal(Apply(s, a), []);
    } else {
      assert (run + [a])[1..] == run[1..] + [a];
      Extend(Apply(s, run[0]), run[1..], a);
    }
  }

  // Client `r` is connected at slot `i`, and nothing is under way but what other workers do.
  predicate Quiet(s: State, i: nat, w: nat, r: Ref) {
    && s.epoll.Resting? && s.queue == [] && w < |s.workers| && s.workers[w].Waiting?
    && i < |s.table| && s.table[i] == Some(r) && r < |s.heap| == |s.leaked| && s.heap[r].active
  }

  // A worker holds one more reference to a client.
  function Busy(s: State, w: nat, r: Ref, pc: WorkerPc): State
    requires w < |s.workers| && r < |s.heap|
  {
    s.(heap := s.heap[r := s.heap[r].(refs := s.heap[r].refs + 1)], workers := s.workers[w := pc])
  }

  // A command goes from the socket to a worker.
  lemma Arrives(s: State, before: seq<Action>, i: nat, w: nat, r: Ref) returns (run: seq<Action>)
    requires Legal(s, before) && Quiet(After(s, before), i, w, r)
    ensures Legal(s, run) && After(s, run) == Busy(After(s, before), w, r, Took(r))
  {
    var s0 := After(s, before);
    run := before + [Lookup(i)];
    Extend(s, before, Lookup(i));
    Extend(s, run, Enqueue);
    run := run + [Enqueue];
    assert After(s, run).queue == [r];
    Extend(s, run, Take(w));
    run := run + [Take(w)];
  }

  // It is not blank and its client is active.
  lemma Begins(s: State, before: seq<Action>, i: nat, w: nat, r: Ref) returns (run: seq<Action>)
    requires Legal(s, before) && Quiet(After(s, before), i, w, r)
    ensures Legal(s, run) && After(s, run) == Busy(After(s, before), w, r, Running(r))
  {
    run := Arrives(s, before, i, w, r);
    Extend(s, run, Handle(w, false));
    run := run + [Handle(w, false)];
  }

  // The command is done, and the worker is free again.
  lemma Ends(s: State, before: seq<Action>, w: nat, r: Ref) returns (run: seq<Action>)
    requires Legal(s, before) && IsRunning(After(s, before), w) && After(s, before).workers[w].ref == r
    requires r < |After(s, before).heap|
    ensures Legal(s, run)
    ensures After(s, run) == Drop(After(s, before).(workers := After(s, before).workers[w := Waiting]), r)
  {
    run := before + [Finish(w)];
    Extend(s, before, Finish(w));
    Extend(s, run, Release(w));
    run := run + [Release(w)];
  }

  // The client at slot `i` joins a room, and its worker is free again.
  lemma Joins(s: State, before: seq<Action>, i: nat, w: nat, r: Ref) returns (run: seq<Action>)
    requires Legal(s, before) && Quiet(After(s, before), i, w, r) && After(s, before).heap[r].refs > 0
    ensures Legal(s, run)
    ensures After(s, run) == After(s, before).(listed := After(s, before).listed + {r})
  {
    var s0 := After(s, before);
    run := Begins(s, before, i, w, r);
    Extend(s, run, Join(w));
    run := run + [Join(w)];
    run := Ends(s, run, w, r);
    assert s0.workers[w := Waiting] == s0.workers;
    assert After(s, run).heap == s0.heap;
  }

  // Two clients connect.
  lemma TwoConnect(workers: nat) returns (run: seq<Action>)
    requires workers > 0
    ensures Legal(Start(2, workers), run)
    ensures After(Start(2, workers), run) ==
            Start(2, workers).(heap := [Client(1, true, false), Client(1, true, false)], leaked := [0, 0],
                               table := [Some(0), Some(1)])
  {
    var s := Start(2, workers);
    assert s.table == [None, None];
    Extend(s, [], Accept(0));
    run := [] + [Accept(0)];
    Extend(s, run, Accept(1));
    run := run + [Accept(1)];
  }

  /**
   A run that leaks: the command is blank, and then its client goes. Nobody holds the client any
   more, and it is still allocated.
   */
  lemma LeakHappens(workers: nat) returns (run: seq<Action>)
    requires workers > 0
    ensures Legal(Start(2, workers), run)
    ensures var s := After(Start(2, workers), run);
            && |s.heap| == 2 && s.leaked == [1, 0] && !s.heap[0].freed
            && s.table == [None, Some(1)] && s.queue == [] && s.epoll.Resting? && s.workers == AllWaiting(workers)
  {
    var s := Start(2, workers);
    run := TwoConnect(workers);
    run := Arrives(s, run, 0, 0, 0);
    Extend(s, run, Handle(0, true));
    run := run + [Handle(0, true)];
    assert After(s, run).workers == AllWaiting(workers);
    Extend(s, run, Disconnect(0));
    run := run + [Disconnect(0)];
  }

  /**
   A run in which a KICK uses a freed client: the target disconnects between being found and
   being used.
   */
  lemma KickAfterFree(workers: nat) returns (run: seq<Action>)
    requires workers > 0
    ensures Legal(Start(2, workers), run) && TimelyJoins(Start(2, workers), run)
    ensures var s := After(Start(2, workers), run);
            && Enabled(s, UseTarget(0)) && Touched(s, UseTarget(0)) == Some(1)
            && |s.heap| == 2 && s.heap[1].freed
  {
    var s := Start(2, workers);
    run := TwoConnect(workers);
    run := Joins(s, run, 1, 0, 1);
    run := Begins(s, run, 0, 0, 0);
    Extend(s, run, FindTarget(0, 1));
    run := run + [FindTarget(0, 1)];
    Extend(s, run, Disconnect(1));
    run := run + [Disconnect(1)];
    LateIsEmpty(s, run);
  }

  // A run after which nobody is listed late had timely joins only.
  lemma {:induction false} LateIsEmpty(s: State, run: seq<Action>)
    requires Legal(s, run) && After(s, run).late == {}
    ensures TimelyJoins(s, run) && s.late == {}
    decreases run
  {
    if run != [] {
      LateIsEmpty(Apply(s, run[0]), run[1..]);
    }
  }

  /**
   A run after which a participant array holds a freed client: the worker looks at its client,
   the client disconnects, and then the worker finishes the JOIN.
   */
  lemma LateJoin(workers: nat) returns (run: seq<Action>)
    requires workers > 0
    ensures Legal(Start(2, workers), run)
    ensures var s := After(Start(2, workers), run);
            && Enabled(s, ReadListed(0)) && 0 in s.listed && |s.heap| == 2 && s.heap[0].freed
  {
    var s := Start(2, workers);
    run := TwoConnect(workers);
    run := Begins(s, run, 0, 0, 0);
    Extend(s, run, Disconnect(0));
    run := run + [Disconnect(0)];
    Extend(s, run, Join(0));
    run := run + [Join(0)];
    run := Ends(s, run, 0, 0);
  }
}
