/**
 What the jitter buffer promises about order: the serial minimum, drop-oldest FIFO behaviour
 across the wrap of the sequence numbers, and the playout gate.
 */
module JitterOrder {
  import opened Common
  import opened Jitter

  // ----- comparison inside half the number circle -----------------------------------------

  lemma AheadBasics(lo: uint32, a: uint32)
    ensures Ahead(lo, lo) == 0
    ensures Ahead(lo, a) == 0 ==> a == lo
  {
  }

  // The comparison is the sign of a 32-bit difference: the bit of weight 2^31 in `a - b`.
  lemma PrecedesIsSignBit(a: uint32, b: uint32)
    ensures Precedes(a, b) <==> 0x8000_0000 <= (a as int - b as int) % 0x1_0000_0000
  {
  }

  // Seen from `lo`, the wrap-around comparison is the plain one.
  lemma PrecedesInWindow(lo: uint32, a: uint32, b: uint32)
    requires Ahead(lo, a) < HALF && Ahead(lo, b) < HALF
    ensures Precedes(a, b) <==> Ahead(lo, a) < Ahead(lo, b)
  {
  }

  // All valid slots lie less than half the circle ahead of `lo`.
  ghost predicate InWindow(slots: seq<Slot>, lo: uint32) {
    forall i :: 0 <= i < |slots| && slots[i].valid ==> Ahead(lo, slots[i].packet.num) < HALF
  }

  lemma {:induction false} ScanIsMinimum(slots: seq<Slot>, lo: uint32, i: nat, best: nat)
    requires InWindow(slots, lo)
    requires i <= |slots| && best <= |slots| && (best < |slots| ==> slots[best].valid)
    requires best == |slots| ==> forall j :: 0 <= j < i ==> !slots[j].valid
    requires best < |slots| ==> forall j :: 0 <= j < i && slots[j].valid ==>
               Ahead(lo, slots[best].packet.num) <= Ahead(lo, slots[j].packet.num)
    ensures var k := Scan(slots, i, best);
            k < |slots| ==> forall j :: 0 <= j < |slots| && slots[j].valid ==>
              Ahead(lo, slots[k].packet.num) <= Ahead(lo, slots[j].packet.num)
    decreases |slots| - i
  {
    if i < |slots| {
      if slots[i].valid && best < |slots| {
        PrecedesInWindow(lo, slots[i].packet.num, slots[best].packet.num);
      }
      var b := if slots[i].valid && (best == |slots| || Precedes(slots[i].packet.num, slots[best].packet.num))
               then i else best;
      ScanIsMinimum(slots, lo, i + 1, b);
    }
  }

  /**
   A successful pop returns the serially smallest packet held, whenever the packets held lie
   within half the number circle, wherever that half starts.
   */
  lemma PopIsSerialMinimum(b: Buffer, lo: uint32, p: Packet)
    requires Valid(b) && InWindow(b.slots, lo) && Popped(b).Some? && p in Held(b.slots)
    ensures Popped(b).value in Held(b.slots)
    ensures Ahead(lo, Popped(b).value.num) <= Ahead(lo, p.num)
  {
    PopKeeps(b);
    ScanIsMinimum(b.slots, lo, 0, |b.slots|);
    HeldMember(b.slots, p);
  }

  // No packet held precedes `m`: it is an oldest one.
  ghost predicate IsOldest(slots: seq<Slot>, m: Packet) {
    forall p :: p in Held(slots) ==> !Precedes(p.num, m.num)
  }

  // Some half of the number circle has all packets held in it.
  ghost predicate HasWindow(slots: seq<Slot>) {
    exists lo :: InWindow(slots, lo)
  }

  /**
   The packet the scan settles on is an oldest one if and only if the packets held lie within
   half the number circle. Outside of that the slots may hold no oldest packet at all.
   */
  lemma ScanFindsOldestIff(slots: seq<Slot>)
    requires Oldest(slots) < |slots|
    ensures slots[Oldest(slots)].packet in Held(slots)
    ensures IsOldest(slots, slots[Oldest(slots)].packet) <==> HasWindow(slots)
  {
    var m := slots[Oldest(slots)].packet;
    HeldMember(slots, m);
    if IsOldest(slots, m) {
      forall i | 0 <= i < |slots| && slots[i].valid
        ensures Ahead(m.num, slots[i].packet.num) < HALF
      {
        HeldMember(slots, slots[i].packet);
      }
      assert InWindow(slots, m.num);
    }
    if HasWindow(slots) {
      var lo :| InWindow(slots, lo);
      ScanIsMinimum(slots, lo, 0, |slots|);
      forall p | p in Held(slots)
        ensures !Precedes(p.num, m.num)
      {
        HeldMember(slots, p);
        PrecedesInWindow(lo, p.num, m.num);
      }
    }
  }

  // A pop returns an oldest packet exactly when the packets held have a window.
  lemma PopIsOldestIff(b: Buffer)
    requires Valid(b) && Popped(b).Some?
    ensures Popped(b).value in Held(b.slots)
    ensures IsOldest(b.slots, Popped(b).value) <==> HasWindow(b.slots)
  {
    ScanFindsOldestIff(b.slots);
  }

  // A push into a full buffer drops an oldest packet exactly when they have a window.
  lemma EvictedIsOldestIff(b: Buffer)
    requires Valid(b) && Evicted(b).Some?
    ensures Evicted(b).value in Held(b.slots)
    ensures IsOldest(b.slots, Evicted(b).value) <==> HasWindow(b.slots)
  {
    ScanFindsOldestIff(b.slots);
  }

  lemma {:induction false} ScanPastEmpty(slots: seq<Slot>, i: nat, best: nat)
    requires i <= |slots| && best <= |slots| && (best < |slots| ==> slots[best].valid)
    requires forall j :: i <= j < |slots| ==> !slots[j].valid
    ensures Scan(slots, i, best) == best
    decreases |slots| - i
  {
    if i < |slots| {
      ScanPastEmpty(slots, i + 1, best);
    }
  }

  lemma {:induction false} HeldEmpty(slots: seq<Slot>)
    requires forall j :: 0 <= j < |slots| ==> !slots[j].valid
    ensures Held(slots) == multiset{}
  {
    if slots != [] {
      HeldEmpty(slots[..|slots| - 1]);
    }
  }

  // A buffer that holds three packets in its first three slots.
  function ThreeHeld(a: Packet, b: Packet, c: Packet): Buffer {
    Buffer([Slot(a, true), Slot(b, true), Slot(c, true)] + seq(17, _ => Slot(Packet(0, 0, []), false)), 3, false)
  }

  lemma OneMore(slots: seq<Slot>, s: Slot)
    requires s.valid
    ensures |Held(slots + [s])| == |Held(slots)| + 1
  {
    var all := slots + [s];
    assert all[..|all| - 1] == slots;
  }

  lemma ThreeCount(x: Slot, y: Slot, z: Slot)
    requires x.valid && y.valid && z.valid
    ensures |Held([x, y, z])| == 3
  {
    OneMore([], x);
    OneMore([x], y);
    OneMore([x, y], z);
    assert [] + [x] == [x] && [x] + [y] == [x, y] && [x, y] + [z] == [x, y, z];
  }

  lemma ThreeHeldIs(a: Packet, b: Packet, c: Packet)
    ensures Valid(ThreeHeld(a, b, c))
  {
    var rest: seq<Slot> := seq(17, _ => Slot(Packet(0, 0, []), false));
    ThreeCount(Slot(a, true), Slot(b, true), Slot(c, true));
    HeldEmpty(rest);
    HeldConcat([Slot(a, true), Slot(b, true), Slot(c, true)], rest);
  }

  /**
   Three packets a third of the circle apart each precede another. The pop then returns one
   that a packet still held precedes.
   */
  lemma NoMinimumAroundTheCircle(a: Packet, b: Packet, c: Packet)
    requires Precedes(a.num, b.num) && Precedes(b.num, c.num) && Precedes(c.num, a.num)
    requires !Precedes(b.num, a.num) && !Precedes(c.num, b.num) && !Precedes(a.num, c.num)
    ensures var full := ThreeHeld(b, c, a);
            && Valid(full) && Popped(full) == Some(a)
            && c in Held(AfterPop(full).slots) && Precedes(c.num, a.num) && !HasWindow(full.slots)
  {
    var full := ThreeHeld(b, c, a);
    ThreeHeldIs(b, c, a);
    ScanPastEmpty(full.slots, 3, 2);
    assert Scan(full.slots, 2, 0) == 2;
    assert Scan(full.slots, 1, 0) == 2;
    var after := AfterPop(full);
    assert after.slots[1] == Slot(c, true);
    HeldMember(after.slots, c);
    HeldMember(full.slots, c);
    assert full.slots[1] == Slot(c, true);
    PopIsOldestIff(full);
  }

  // This happens: number 0 is popped while 0xB000_0000, which precedes it, is held.
  lemma AThirdApart()
    ensures var a, b, c := Packet(0, 0, []), Packet(0x6000_0000, 0, []), Packet(0xB000_0000, 0, []);
            && Popped(ThreeHeld(b, c, a)) == Some(a)
            && c in Held(AfterPop(ThreeHeld(b, c, a)).slots) && Precedes(c.num, a.num)
  {
    NoMinimumAroundTheCircle(Packet(0, 0, []), Packet(0x6000_0000, 0, []), Packet(0xB000_0000, 0, []));
  }

  // ----- the queue -------------------------------------------------------------------------

  // Sequence numbers in serial order, any two less than half the circle apart.
  ghost predicate InOrder(q: seq<Packet>) {
    forall i, j :: 0 <= i < j < |q| ==> 0 < Ahead(q[i].num, q[j].num) < HALF
  }

  ghost predicate Represents(b: Buffer, q: seq<Packet>) {
    Valid(b) && multiset(q) == Held(b.slots) && InOrder(q)
  }

  lemma FrontWindow(b: Buffer, q: seq<Packet>)
    requires Represents(b, q) && q != []
    ensures InWindow(b.slots, q[0].num)
  {
    forall i | 0 <= i < |b.slots| && b.slots[i].valid
      ensures Ahead(q[0].num, b.slots[i].packet.num) < HALF
    {
      HeldMember(b.slots, b.slots[i].packet);
      assert b.slots[i].packet in multiset(q);
      var j :| 0 <= j < |q| && q[j] == b.slots[i].packet;
      AheadBasics(q[0].num, q[0].num);
    }
  }

  lemma OldestIsFront(b: Buffer, q: seq<Packet>)
    requires Represents(b, q) && q != []
    ensures Oldest(b.slots) < |b.slots| && b.slots[Oldest(b.slots)].packet == q[0]
  {
    OldestExists(b.slots);
    FrontWindow(b, q);
    ScanIsMinimum(b.slots, q[0].num, 0, |b.slots|);
    var p := b.slots[Oldest(b.slots)].packet;
    assert q[0] in multiset(q);
    HeldMember(b.slots, q[0]);
    HeldMember(b.slots, p);
    assert p in multiset(q);
    var j :| 0 <= j < |q| && q[j] == p;
    AheadBasics(q[0].num, p.num);
    assert Ahead(q[0].num, p.num) == 0;
  }

  // The queue a listener would want: at most twenty packets, the oldest dropped on overflow.
  function FifoPush(q: seq<Packet>, p: Packet): seq<Packet> {
    (if |q| == SIZE then q[1..] else q) + [p]
  }

  predicate FifoGate<T(==)>(q: seq<T>, buffering: bool) {
    q != [] && (buffering ==> |q| >= CUSHION)
  }

  function FifoPop<T(==)>(q: seq<T>, buffering: bool): seq<T> {
    if FifoGate(q, buffering) then q[1..] else q
  }

  function BufferingAfterPop<T(==)>(q: seq<T>, buffering: bool): bool {
    if q == [] then true else if FifoGate(q, buffering) then false else buffering
  }

  lemma QueueSize(b: Buffer, q: seq<Packet>)
    requires Represents(b, q)
    ensures b.count == |q| <= SIZE
  {
    assert |multiset(q)| == |q|;
    HeldSize(b.slots);
  }

  lemma Front(q: seq<Packet>)
    requires q != []
    ensures multiset(q[1..]) == multiset(q) - multiset{q[0]}
  {
    assert q == [q[0]] + q[1..];
  }

  lemma Back(q: seq<Packet>, p: Packet)
    ensures multiset(q + [p]) == multiset(q) + multiset{p}
  {
  }

  lemma PushRefines(b: Buffer, q: seq<Packet>, p: Packet)
    requires Represents(b, q) && InOrder(FifoPush(q, p))
    ensures Target(b) < |b.slots| && Represents(AfterPush(b, p), FifoPush(q, p))
    ensures Evicted(b) == if |q| == 20 then Some(q[0]) else None
  {
    QueueSize(b, q);
    PushKeeps(b, p);
    if |q| == SIZE {
      OldestIsFront(b, q);
      Front(q);
      Back(q[1..], p);
    } else {
      Back(q, p);
    }
  }

  lemma PopRefines(b: Buffer, q: seq<Packet>)
    requires Represents(b, q)
    ensures Popped(b) == if FifoGate(q, b.buffering) then Some(q[0]) else None
    ensures Represents(AfterPop(b), FifoPop(q, b.buffering))
    ensures AfterPop(b).buffering == BufferingAfterPop(q, b.buffering)
  {
    QueueSize(b, q);
    PopKeeps(b);
    if FifoGate(q, b.buffering) {
      OldestIsFront(b, q);
      Front(q);
    }
  }

  // Every push of the run is in serial order with, and less than half the circle from,
  // what the queue then holds.
  ghost predicate Orderly(q: seq<Packet>, buffering: bool, ops: seq<Op>)
    decreases ops
  {
    if ops == [] then true
    else match ops[0]
      case Push(p) => InOrder(FifoPush(q, p)) && Orderly(FifoPush(q, p), buffering, ops[1..])
      case Pop => Orderly(FifoPop(q, buffering), BufferingAfterPop(q, buffering), ops[1..])
  }

  ghost function FifoPopped(q: seq<Packet>, buffering: bool, ops: seq<Op>): seq<Packet>
    decreases ops
  {
    if ops == [] then []
    else match ops[0]
      case Push(p) => FifoPopped(FifoPush(q, p), buffering, ops[1..])
      case Pop =>
        (if FifoGate(q, buffering) then [q[0]] else []) +
        FifoPopped(FifoPop(q, buffering), BufferingAfterPop(q, buffering), ops[1..])
  }

  ghost function FifoDropped(q: seq<Packet>, buffering: bool, ops: seq<Op>): seq<Packet>
    decreases ops
  {
    if ops == [] then []
    else match ops[0]
      case Push(p) =>
        (if |q| == SIZE then [q[0]] else []) + FifoDropped(FifoPush(q, p), buffering, ops[1..])
      case Pop => FifoDropped(FifoPop(q, buffering), BufferingAfterPop(q, buffering), ops[1..])
  }

  /**
   The unordered buffer refines a drop-oldest FIFO of twenty places: over every orderly run
   the same packets come out in the same order and the same ones are dropped.
   */
  lemma {:induction false} RefinesFifo(b: Buffer, q: seq<Packet>, ops: seq<Op>)
    requires Represents(b, q) && Orderly(q, b.buffering, ops)
    ensures PoppedBy(b, ops) == FifoPopped(q, b.buffering, ops)
    ensures EvictedBy(b, ops) == FifoDropped(q, b.buffering, ops)
    decreases ops
  {
    if ops != [] {
      StepKeeps(b, ops[0]);
      match ops[0] {
        case Push(p) =>
          PushRefines(b, q, p);
          RefinesFifo(AfterPush(b, p), FifoPush(q, p), ops[1..]);
        case Pop =>
          PopRefines(b, q);
          RefinesFifo(AfterPop(b), FifoPop(q, b.buffering), ops[1..]);
      }
    }
  }

  // ----- consecutive numbers are orderly, however often they wrap ---------------------------

  // Packets numbered upwards from `n`.
  ghost predicate Consecutive(q: seq<Packet>, n: uint32) {
    |q| <= SIZE && forall i :: 0 <= i < |q| ==> q[i].num == Wrap(n, i)
  }

  lemma ConsecutiveInOrder(q: seq<Packet>, n: uint32)
    requires Consecutive(q, n)
    ensures InOrder(q)
  {
  }

  // The packets pushed number upwards from `next`.
  ghost predicate Numbered(next: uint32, ops: seq<Op>)
    decreases ops
  {
    if ops == [] then true
    else match ops[0]
      case Push(p) => p.num == next && Numbered(Wrap(next, 1), ops[1..])
      case Pop => Numbered(next, ops[1..])
  }

  lemma ConsecutiveTail(q: seq<Packet>, n: uint32)
    requires Consecutive(q, n) && q != []
    ensures Consecutive(q[1..], Wrap(n, 1))
    ensures Wrap(Wrap(n, 1), |q[1..]|) == Wrap(n, |q|)
  {
  }

  lemma {:induction false} NumberedIsOrderly(q: seq<Packet>, n: uint32, buffering: bool, ops: seq<Op>)
    requires Consecutive(q, n) && Numbered(Wrap(n, |q|), ops)
    ensures Orderly(q, buffering, ops)
    decreases ops
  {
    if ops != [] {
      var q', n' := q, n;
      if (ops[0].Push? && |q| == SIZE) || (ops[0].Pop? && FifoGate(q, buffering)) {
        ConsecutiveTail(q, n);
        q', n' := q[1..], Wrap(n, 1);
      }
      match ops[0] {
        case Push(p) =>
          assert Wrap(Wrap(n', |q'|), 1) == Wrap(n', |q' + [p]|);
          ConsecutiveInOrder(q' + [p], n');
          NumberedIsOrderly(q' + [p], n', buffering, ops[1..]);
        case Pop =>
          NumberedIsOrderly(q', n', BufferingAfterPop(q, buffering), ops[1..]);
      }
    }
  }

  // ----- the playout gate ---------------------------------------------------------------------

  ghost function Pops(ops: seq<Op>): nat {
    if ops == [] then 0 else (if ops[0].Pop? then 1 else 0) + Pops(ops[1..])
  }

  // No pop of the run sees `n` packets or more.
  ghost predicate AlwaysBelow(b: Buffer, ops: seq<Op>, n: nat)
    requires Valid(b)
    decreases ops
  {
    ops == [] || (StepKeeps(b, ops[0]);
    (ops[0].Pop? ==> b.count < n) && AlwaysBelow(Step(b, ops[0]), ops[1..], n))
  }

  // No pop of the run sees an empty buffer.
  ghost predicate NeverEmpty(b: Buffer, ops: seq<Op>)
    requires Valid(b)
    decreases ops
  {
    ops == [] || (StepKeeps(b, ops[0]);
    (ops[0].Pop? ==> b.count > 0) && NeverEmpty(Step(b, ops[0]), ops[1..]))
  }

  // One step with the gate open: a push never lowers the stock, a pop lowers it by one.
  lemma OpenStep(b: Buffer, op: Op)
    requires Valid(b) && !b.buffering && (op.Pop? ==> b.count > 0)
    ensures Target(b) < |b.slots| && Valid(Step(b, op)) && !Step(b, op).buffering
    ensures op.Push? ==> Step(b, op).count >= b.count
    ensures op.Pop? ==> Step(b, op).count == b.count - 1 && Popped(b).Some?
  {
    StepKeeps(b, op);
    PopKeeps(b);
  }

  // Once the gate is closed, every pop fails until one sees the full cushion.
  lemma {:induction false} ClosedUntilCushion(b: Buffer, ops: seq<Op>)
    requires Valid(b) && b.buffering && AlwaysBelow(b, ops, 5)
    ensures PoppedBy(b, ops) == [] && Run(b, ops).buffering
    decreases ops
  {
    if ops != [] {
      StepKeeps(b, ops[0]);
      ClosedUntilCushion(Step(b, ops[0]), ops[1..]);
    }
  }

  // Once it is open, pops succeed until one finds the buffer empty.
  lemma {:induction false} OpenUntilEmpty(b: Buffer, ops: seq<Op>)
    requires Valid(b) && !b.buffering && NeverEmpty(b, ops)
    ensures |PoppedBy(b, ops)| == Pops(ops) && !Run(b, ops).buffering
    decreases ops
  {
    if ops != [] {
      OpenStep(b, ops[0]);
      OpenUntilEmpty(Step(b, ops[0]), ops[1..]);
    }
  }

  lemma {:induction false} StockLasts(b: Buffer, ops: seq<Op>)
    requires Valid(b) && !b.buffering && Pops(ops) <= b.count
    ensures NeverEmpty(b, ops)
    decreases ops
  {
    if ops != [] {
      OpenStep(b, ops[0]);
      StockLasts(Step(b, ops[0]), ops[1..]);
    }
  }

  /**
   The playout gate over whole runs. After a pop that finds the buffer empty, every pop fails
   up to one that sees five packets; that pop and the next four succeed whatever is pushed in
   between, and pops go on succeeding until one finds the buffer empty.
   */
  lemma PlayoutGate(b: Buffer, waiting: seq<Op>, c: Buffer, playing: seq<Op>)
    requires Valid(b) && b.count == 0 && Valid(AfterPop(b))
    requires AlwaysBelow(AfterPop(b), waiting, 5)
    requires c == Run(AfterPop(b), waiting) && c.count >= 5
    ensures Popped(b) == None && PoppedBy(AfterPop(b), waiting) == []
    ensures Popped(c).Some? && Valid(AfterPop(c))
    ensures Pops(playing) <= 4 || NeverEmpty(AfterPop(c), playing) ==>
              |PoppedBy(AfterPop(c), playing)| == Pops(playing)
  {
    PopKeeps(b);
    ClosedUntilCushion(AfterPop(b), waiting);
    PopKeeps(c);
    if Pops(playing) <= 4 {
      StockLasts(AfterPop(c), playing);
    }
    if NeverEmpty(AfterPop(c), playing) {
      OpenUntilEmpty(AfterPop(c), playing);
    }
  }
}
