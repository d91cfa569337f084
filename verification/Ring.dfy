/**
 The shared audio ring: a bounded queue whose two counting semaphores are taken and posted
 outside the mutex that guards the copy, used by any number of producers and consumers.
 */
module Ring {
  import opened Common

  const CAPACITY: nat := 128

  // Where a thread stands in `ring_buffer_push` or `ring_buffer_pop`.
  datatype Pc<T> =
    | Idle
    | PushPermit(packet: T)  // has taken `ring_empty`, not yet copied
    | PushCopied             // has copied in, not yet posted `ring_full`
    | PopPermit              // has taken `ring_full`, not yet copied
    | PopCopied(packet: T)   // has copied out, not yet posted `ring_empty`

  // The ring, the two semaphores and the threads. `written` and `taken` record, in order, what
  // was copied in and out.
  datatype State<T> = State(packets: seq<T>, head: nat, tail: nat, count: int, empty: int, full: int,
                            threads: seq<Pc<T>>, written: seq<T>, taken: seq<T>)

  datatype Action<T> = TryPush(packet: T) | CopyIn | PostFull | TryPop | CopyOut | PostEmpty

  function Succ(i: nat): nat {
    (i + 1) % CAPACITY
  }

  predicate Enabled<T>(s: State<T>, t: nat, a: Action<T>) {
    && t < |s.threads|
    && match a
       case TryPush(_) => s.threads[t].Idle?
       case CopyIn => s.threads[t].PushPermit? && s.tail < |s.packets|
       case PostFull => s.threads[t].PushCopied?
       case TryPop => s.threads[t].Idle?
       case CopyOut => s.threads[t].PopPermit? && s.head < |s.packets|
       case PostEmpty => s.threads[t].PopCopied?
  }

  // One step of thread `t`. The copies run under `ring_mutex`, so each is one step.
  function Apply<T>(s: State<T>, t: nat, a: Action<T>): State<T>
    requires Enabled(s, t, a)
  {
    match a
    case TryPush(p) =>
      if s.empty > 0 then s.(empty := s.empty - 1, threads := s.threads[t := PushPermit(p)]) else s
    case CopyIn =>
      var p := s.threads[t].packet;
      s.(packets := s.packets[s.tail := p], tail := Succ(s.tail), count := s.count + 1,
         threads := s.threads[t := PushCopied], written := s.written + [p])
    case PostFull =>
      s.(full := s.full + 1, threads := s.threads[t := Idle])
    case TryPop =>
      if s.full > 0 then s.(full := s.full - 1, threads := s.threads[t := PopPermit]) else s
    case CopyOut =>
      var p := s.packets[s.head];
      s.(head := Succ(s.head), count := s.count - 1,
         threads := s.threads[t := PopCopied(p)], taken := s.taken + [p])
    case PostEmpty =>
      s.(empty := s.empty + 1, threads := s.threads[t := Idle])
  }

  // ----- counting threads by place ----------------------------------------------------------

  datatype Place4 = AtPushPermit | AtPushCopied | AtPopPermit | AtPopCopied

  function At<T>(pc: Pc<T>, k: Place4): nat {
    match k
    case AtPushPermit => if pc.PushPermit? then 1 else 0
    case AtPushCopied => if pc.PushCopied? then 1 else 0
    case AtPopPermit => if pc.PopPermit? then 1 else 0
    case AtPopCopied => if pc.PopCopied? then 1 else 0
  }

  function Num<T>(threads: seq<Pc<T>>, k: Place4): nat {
    if threads == [] then 0
    else Num(threads[..|threads| - 1], k) + At(threads[|threads| - 1], k)
  }

  lemma {:induction false} NumUpdate<T>(threads: seq<Pc<T>>, t: nat, pc: Pc<T>, k: Place4)
    requires t < |threads|
    ensures Num(threads[t := pc], k) == Num(threads, k) - At(threads[t], k) + At(pc, k)
    ensures At(threads[t], k) <= Num(threads, k)
  {
    var n := |threads| - 1;
    if t < n {
      NumUpdate(threads[..n], t, pc, k);
      assert threads[t := pc][..n] == threads[..n][t := pc];
    } else {
      assert threads[t := pc][..n] == threads[..n];
    }
  }

  // ----- the invariant --------------------------------------------------------------------------

  // Every place in the ring is free, reserved by a pusher, occupied, or being given back.
  predicate Permits<T>(s: State<T>) {
    && s.empty >= 0 && s.full >= 0
    && s.empty + Num(s.threads, AtPushPermit) + s.count + Num(s.threads, AtPopCopied) == CAPACITY
    && s.full + Num(s.threads, AtPushCopied) + Num(s.threads, AtPopPermit) == s.count
  }

  // The ring holds what was written and not yet taken, oldest at `head`.
  predicate Contents<T(==)>(s: State<T>) {
    && |s.packets| == CAPACITY && s.head < CAPACITY && s.tail < CAPACITY
    && 0 <= s.count <= CAPACITY
    && s.tail == Around(CAPACITY, s.head, s.count)
    && s.count == |s.written| - |s.taken|
    && s.taken == s.written[..|s.taken|]
    && forall i :: 0 <= i < s.count ==> s.packets[Around(CAPACITY, s.head, i)] == s.written[|s.taken| + i]
  }

  predicate Inv<T(==)>(s: State<T>) {
    Permits(s) && Contents(s)
  }

  // A thread that moves changes the number of threads at its old place and at its new one.
  lemma ThreadMoves<T>(threads: seq<Pc<T>>, t: nat, pc: Pc<T>)
    requires t < |threads|
    ensures forall k :: Num(threads[t := pc], k) == Num(threads, k) - At(threads[t], k) + At(pc, k)
    ensures forall k :: At(threads[t], k) <= Num(threads, k)
  {
    forall k
      ensures Num(threads[t := pc], k) == Num(threads, k) - At(threads[t], k) + At(pc, k)
      ensures At(threads[t], k) <= Num(threads, k)
    {
      NumUpdate(threads, t, pc, k);
    }
  }

  lemma PermitsStep<T>(s: State<T>, t: nat, a: Action<T>)
    requires Permits(s) && Enabled(s, t, a)
    ensures Permits(Apply(s, t, a))
    ensures a.CopyIn? ==> s.count < CAPACITY
    ensures a.CopyOut? ==> s.count > 0
  {
    ThreadMoves(s.threads, t, Apply(s, t, a).threads[t]);
    assert s.threads[t := s.threads[t]] == s.threads;
  }

  /**
   A copy in never lands on a packet that is still to be taken.
   */
  lemma NoOverwrite<T>(s: State<T>, t: nat)
    requires Inv(s) && Enabled(s, t, CopyIn)
    ensures s.count < CAPACITY
    ensures forall i :: 0 <= i < s.count ==> Around(CAPACITY, s.head, i) != s.tail
    ensures Contents(Apply(s, t, CopyIn))
  {
    PermitsStep(s, t, CopyIn);
    var s' := Apply(s, t, CopyIn);
    assert forall i | 0 <= i < s.count :: Around(CAPACITY, s.head, i) != s.tail;
    assert s'.tail == Around(CAPACITY, s.head, s.count + 1);
    assert s'.written[..|s.taken|] == s.written[..|s.taken|];
  }

  lemma SuccPlace(head: nat, i: nat)
    requires head < CAPACITY && i < CAPACITY
    ensures Succ(head) < CAPACITY && Around(CAPACITY, Succ(head), i) == Around(CAPACITY, head, i + 1)
  {
  }

  // With the oldest packet gone, the rest is where it was.
  lemma AfterOldest<T>(s: State<T>, s': State<T>)
    requires Contents(s) && s.count > 0
    requires s'.packets == s.packets && s'.written == s.written && s'.tail == s.tail && s'.count == s.count - 1
    requires s'.head == Succ(s.head) && s'.taken == s.taken + [s.packets[s.head]]
    ensures s.packets[s.head] == s.written[|s.taken|] && Contents(s')
  {
    assert s.packets[Around(CAPACITY, s.head, 0)] == s.written[|s.taken|];
    assert s'.taken == s.written[..|s.taken| + 1];
    SuccPlace(s.head, s.count - 1);
    forall i | 0 <= i < s'.count
      ensures s'.packets[Around(CAPACITY, s'.head, i)] == s'.written[|s'.taken| + i]
    {
      SuccPlace(s.head, i);
      assert s.packets[Around(CAPACITY, s.head, i + 1)] == s.written[|s.taken| + (i + 1)];
    }
  }

  lemma TakesOldest<T>(s: State<T>, t: nat)
    requires Inv(s) && Enabled(s, t, CopyOut)
    ensures s.count > 0 && s.packets[s.head] == s.written[|s.taken|]
    ensures Contents(Apply(s, t, CopyOut))
  {
    PermitsStep(s, t, CopyOut);
    AfterOldest(s, Apply(s, t, CopyOut));
  }

  lemma StepKeeps<T>(s: State<T>, t: nat, a: Action<T>)
    requires Inv(s) && Enabled(s, t, a)
    ensures Inv(Apply(s, t, a))
  {
    PermitsStep(s, t, a);
    match a {
      case CopyIn => NoOverwrite(s, t);
      case CopyOut => TakesOldest(s, t);
      case _ =>
    }
  }

  // ----- whole runs ----------------------------------------------------------------------------------

  // The state `ipc_manager_init` sets up, for a zeroed ring and any number of threads.
  function Start<T>(blank: T, n: nat): State<T> {
    State(seq(CAPACITY, _ => blank), 0, 0, 0, CAPACITY, 0, seq(n, _ => Idle), [], [])
  }

  lemma {:induction false} NoneBusy<T>(n: nat, k: Place4)
    ensures Num(seq(n, _ => Pc<T>.Idle), k) == 0
  {
    if n > 0 {
      NoneBusy<T>(n - 1, k);
      assert seq(n, _ => Pc<T>.Idle)[..n - 1] == seq(n - 1, _ => Pc<T>.Idle);
    }
  }

  lemma StartHolds<T>(blank: T, n: nat)
    ensures Inv(Start(blank, n))
  {
    NoneBusy<T>(n, AtPushPermit);
    NoneBusy<T>(n, AtPushCopied);
    NoneBusy<T>(n, AtPopPermit);
    NoneBusy<T>(n, AtPopCopied);
  }

  // `states` is a run: each state follows from the one before by a step of some thread.
  ghost predicate Run<T(!new)>(states: seq<State<T>>) {
    && states != []
    && forall i :: 0 <= i < |states| - 1 ==> Steps(states[i], states[i + 1])
  }

  ghost predicate Steps<T(!new)>(s: State<T>, s': State<T>) {
    exists t: nat, a: Action<T> :: Enabled(s, t, a) && s' == Apply(s, t, a)
  }

  /**
   In every state of every interleaving of any number of producers and consumers: free permits,
   pushers between permit and copy, packets in the ring and poppers between copy and post add up
   to the capacity, and the packets taken are, in order, the first ones written.
   */
  lemma {:induction false} RingSafety<T(!new)>(states: seq<State<T>>, blank: T, n: nat, i: nat)
    requires Run(states) && states[0] == Start(blank, n) && i < |states|
    ensures Inv(states[i])
  {
    if i == 0 {
      StartHolds(blank, n);
    } else {
      RingSafety(states, blank, n, i - 1);
      assert Steps(states[i - 1], states[i]);
      var t: nat, a: Action<T> :| Enabled(states[i - 1], t, a) && states[i] == Apply(states[i - 1], t, a);
      StepKeeps(states[i - 1], t, a);
    }
  }

  // A push is only turned away while every place is taken or on its way in or out, and when no
  // call is under way the semaphores give the exact fill.
  lemma QuiescentSemaphores<T>(s: State<T>)
    requires Inv(s) && forall t :: 0 <= t < |s.threads| ==> s.threads[t].Idle?
    ensures s.full == s.count && s.empty == 128 - s.count
  {
    AllIdle(s.threads, AtPushPermit);
    AllIdle(s.threads, AtPushCopied);
    AllIdle(s.threads, AtPopPermit);
    AllIdle(s.threads, AtPopCopied);
  }

  lemma {:induction false} AllIdle<T>(threads: seq<Pc<T>>, k: Place4)
    requires forall t :: 0 <= t < |threads| ==> threads[t].Idle?
    ensures Num(threads, k) == 0
  {
    if threads != [] {
      AllIdle(threads[..|threads| - 1], k);
    }
  }

  // ----- no packet goes astray ---------------------------------------------------------------------

  // A push that finds a permit takes it, and with it the right to copy its own packet in; one that
  // finds none drops the packet and changes nothing.
  lemma PushTakesPermit<T>(s: State<T>, t: nat, p: T)
    requires Inv(s) && Enabled(s, t, TryPush(p))
    ensures var s' := Apply(s, t, TryPush(p));
            if s.empty == 0 then s' == s
            else s'.empty == s.empty - 1 && Enabled(s', t, CopyIn) && Apply(s', t, CopyIn).written == s.written + [p]
  {
  }

  // A pop that finds a permit takes it, and with it the oldest packet at its copy.
  lemma PopTakesPermit<T>(s: State<T>, t: nat)
    requires Inv(s) && Enabled(s, t, TryPop)
    ensures var s' := Apply(s, t, TryPop);
            if s.full == 0 then s' == s
            else s'.full == s.full - 1 && Enabled(s', t, CopyOut) && |s.taken| < |s.written| &&
                 Apply(s', t, CopyOut).taken == s.taken + [s.written[|s.taken|]]
  {
    if s.full > 0 {
      var s' := Apply(s, t, TryPop);
      StepKeeps(s, t, TryPop);
      TakesOldest(s', t);
    }
  }

  // ----- one call at a time ------------------------------------------------------------------------

  // The three steps of a push by the only thread.
  lemma PushThrough<T>(s: State<T>, p: T)
    requires Inv(s) && s.threads == [Idle] && s.empty > 0
    ensures Inv(s.(packets := s.packets[s.tail := p], tail := Succ(s.tail), count := s.count + 1,
                   empty := s.empty - 1, full := s.full + 1, written := s.written + [p]))
  {
    StepKeeps(s, 0, TryPush(p));
    var s1 := Apply(s, 0, TryPush(p));
    StepKeeps(s1, 0, CopyIn);
    var s2 := Apply(s1, 0, CopyIn);
    StepKeeps(s2, 0, PostFull);
    assert Apply(s2, 0, PostFull).threads == s.threads;
  }

  // The three steps of a pop by the only thread.
  lemma PopThrough<T>(s: State<T>)
    requires Inv(s) && s.threads == [Idle] && s.full > 0
    ensures Inv(s.(head := Succ(s.head), count := s.count - 1, empty := s.empty + 1, full := s.full - 1,
                   taken := s.taken + [s.packets[s.head]]))
    ensures s.packets[s.head] == s.written[|s.taken|]
  {
    StepKeeps(s, 0, TryPop);
    var s1 := Apply(s, 0, TryPop);
    TakesOldest(s1, 0);
    StepKeeps(s1, 0, CopyOut);
    var s2 := Apply(s1, 0, CopyOut);
    StepKeeps(s2, 0, PostEmpty);
    assert Apply(s2, 0, PostEmpty).threads == s.threads;
  }
}
