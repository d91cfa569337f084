/**
 The jitter buffer reordering: packets that arrive in any order, with repeats, come out in the
 serial order of their numbers as long as what is held fits half the number circle.
 */
module JitterSorted {
  import opened Common
  import opened Jitter
  import opened JitterOrder

  // ----- sorted queues of numbers ---------------------------------------------------------------

  // No number precedes one before it.
  ghost predicate Rising(ns: seq<uint32>) {
    forall i, j :: 0 <= i < j < |ns| ==> !Precedes(ns[j], ns[i])
  }

  ghost predicate WithinHalf(ns: seq<uint32>, lo: uint32) {
    forall i :: 0 <= i < |ns| ==> Ahead(lo, ns[i]) < HALF
  }

  ghost predicate Windowed(ns: seq<uint32>) {
    exists lo :: WithinHalf(ns, lo)
  }

  // A new number goes in from the back, past those it precedes.
  function Insert(ns: seq<uint32>, n: uint32): (r: seq<uint32>)
    ensures |r| == |ns| + 1
  {
    if ns == [] || !Precedes(n, ns[|ns| - 1]) then ns + [n]
    else Insert(ns[..|ns| - 1], n) + [ns[|ns| - 1]]
  }

  // The queue a listener would want: at most twenty places, the oldest dropped on overflow.
  function SortedPush(ns: seq<uint32>, n: uint32): seq<uint32> {
    Insert(if |ns| == SIZE then ns[1..] else ns, n)
  }

  lemma {:induction false} InsertMember(ns: seq<uint32>, n: uint32, x: uint32)
    ensures x in Insert(ns, n) <==> x == n || x in ns
  {
    if ns != [] && Precedes(n, ns[|ns| - 1]) {
      InsertMember(ns[..|ns| - 1], n, x);
      assert ns == ns[..|ns| - 1] + [ns[|ns| - 1]];
    }
  }

  lemma RisingAppend(ns: seq<uint32>, x: uint32)
    requires Rising(ns) && forall y :: y in ns ==> !Precedes(x, y)
    ensures Rising(ns + [x])
  {
  }

  lemma RisingPrefix(ns: seq<uint32>)
    requires Rising(ns) && ns != []
    ensures var init, last := ns[..|ns| - 1], ns[|ns| - 1];
            Rising(init) && forall y :: y in init ==> !Precedes(last, y)
  {
  }

  // Within half the circle, not being preceded is transitive.
  lemma NotBefore(lo: uint32, a: uint32, b: uint32, c: uint32)
    requires Ahead(lo, a) < HALF && Ahead(lo, b) < HALF && Ahead(lo, c) < HALF
    requires !Precedes(b, a) && !Precedes(c, b)
    ensures !Precedes(c, a)
  {
    PrecedesInWindow(lo, b, a);
    PrecedesInWindow(lo, c, b);
    PrecedesInWindow(lo, c, a);
  }

  lemma NotBoth(lo: uint32, a: uint32, b: uint32)
    requires Ahead(lo, a) < HALF && Ahead(lo, b) < HALF && Precedes(a, b)
    ensures !Precedes(b, a)
  {
    PrecedesInWindow(lo, a, b);
    PrecedesInWindow(lo, b, a);
  }

  lemma {:induction false} InsertRising(ns: seq<uint32>, n: uint32, lo: uint32)
    requires Rising(ns) && WithinHalf(ns, lo) && Ahead(lo, n) < HALF
    ensures Rising(Insert(ns, n))
  {
    if ns == [] {
    } else if !Precedes(n, ns[|ns| - 1]) {
      forall y | y in ns
        ensures !Precedes(n, y)
      {
        if y != ns[|ns| - 1] {
          RisingPrefix(ns);
          assert ns == ns[..|ns| - 1] + [ns[|ns| - 1]];
          NotBefore(lo, y, ns[|ns| - 1], n);
        }
      }
      RisingAppend(ns, n);
    } else {
      var init, last := ns[..|ns| - 1], ns[|ns| - 1];
      RisingPrefix(ns);
      InsertRising(init, n, lo);
      NotBoth(lo, n, last);
      forall y | y in Insert(init, n)
        ensures !Precedes(last, y)
      {
        InsertMember(init, n, y);
      }
      RisingAppend(Insert(init, n), last);
    }
  }

  lemma InsertWindowed(ns: seq<uint32>, n: uint32)
    requires Windowed(Insert(ns, n)) && Rising(ns)
    ensures Rising(Insert(ns, n))
  {
    var lo :| WithinHalf(Insert(ns, n), lo);
    forall x | x == n || x in ns
      ensures Ahead(lo, x) < HALF
    {
      InsertMember(ns, n, x);
    }
    InsertRising(ns, n, lo);
  }

  // ----- the buffer and the queue -----------------------------------------------------------------

  function Nums(q: seq<Packet>): (ns: seq<uint32>)
    ensures |ns| == |q| && forall i :: 0 <= i < |q| ==> ns[i] == q[i].num
  {
    seq(|q|, i requires 0 <= i < |q| => q[i].num)
  }

  // The buffer holds these packets, and their numbers are sorted.
  ghost predicate Stands(b: Buffer, q: seq<Packet>) {
    Valid(b) && multiset(q) == Held(b.slots) && Rising(Nums(q))
  }

  lemma FrontIsLow(b: Buffer, q: seq<Packet>)
    requires Stands(b, q) && q != []
    ensures InWindow(b.slots, q[0].num)
  {
    forall i | 0 <= i < |b.slots| && b.slots[i].valid
      ensures Ahead(q[0].num, b.slots[i].packet.num) < HALF
    {
      HeldMember(b.slots, b.slots[i].packet);
      assert b.slots[i].packet in multiset(q);
      var j :| 0 <= j < |q| && q[j] == b.slots[i].packet;
      AheadBasics(q[0].num, q[0].num);
      assert j > 0 ==> !Precedes(Nums(q)[j], Nums(q)[0]);
    }
  }

  // The packet the scan settles on has the front number; it stands behind none but its equals.
  lemma OldestIsFirst(b: Buffer, q: seq<Packet>) returns (j: nat)
    requires Stands(b, q) && q != []
    ensures Oldest(b.slots) < |b.slots|
    ensures j < |q| && q[j] == b.slots[Oldest(b.slots)].packet
    ensures forall i :: 0 <= i <= j ==> q[i].num == q[0].num
  {
    OldestExists(b.slots);
    FrontIsLow(b, q);
    var lo := q[0].num;
    ScanIsMinimum(b.slots, lo, 0, |b.slots|);
    var p := b.slots[Oldest(b.slots)].packet;
    assert q[0] in multiset(q);
    HeldMember(b.slots, q[0]);
    HeldMember(b.slots, p);
    assert p in multiset(q);
    j :| 0 <= j < |q| && q[j] == p;
    AheadBasics(lo, p.num);
    forall i | 0 <= i <= j
      ensures q[i].num == lo
    {
      EqualAtFront(Nums(q), i, j);
    }
  }

  lemma EqualAtFront(ns: seq<uint32>, i: nat, j: nat)
    requires Rising(ns) && i <= j < |ns| && ns[j] == ns[0]
    ensures ns[i] == ns[0]
  {
    if 0 < i < j {
      assert !Precedes(ns[j], ns[i]) && !Precedes(ns[i], ns[0]);
    }
  }

  function Omit(q: seq<Packet>, j: nat): seq<Packet>
    requires j < |q|
  {
    q[..j] + q[j + 1..]
  }

  lemma OmitFront(q: seq<Packet>, j: nat)
    requires j < |q| && Rising(Nums(q)) && forall i :: 0 <= i <= j ==> q[i].num == q[0].num
    ensures Nums(Omit(q, j)) == Nums(q)[1..] && Rising(Nums(Omit(q, j)))
  {
    var r := Omit(q, j);
    forall i | 0 <= i < |r|
      ensures Nums(r)[i] == Nums(q)[1..][i]
    {
      assert i < j ==> q[i + 1].num == q[0].num;
    }
  }

  lemma QueueLength(b: Buffer, q: seq<Packet>)
    requires Stands(b, q)
    ensures b.count == |q| <= SIZE
  {
    assert |multiset(q)| == |q|;
    HeldSize(b.slots);
  }

  /**
   A pop takes a packet with the front number of the sorted queue, or nothing while the gate is
   closed.
   */
  lemma PopSorted(b: Buffer, q: seq<Packet>) returns (r: seq<Packet>)
    requires Stands(b, q)
    ensures Popped(b).Some? <==> FifoGate(Nums(q), b.buffering)
    ensures Popped(b).Some? ==> Popped(b).value.num == Nums(q)[0]
    ensures Stands(AfterPop(b), r) && Nums(r) == FifoPop(Nums(q), b.buffering)
    ensures AfterPop(b).buffering == BufferingAfterPop(Nums(q), b.buffering)
  {
    QueueLength(b, q);
    PopKeeps(b);
    r := q;
    if Gate(b) {
      var j := OldestIsFirst(b, q);
      r := Omit(q, j);
      OmitFront(q, j);
      TakenOut(q, j);
    }
  }

  function InsertPacket(q: seq<Packet>, p: Packet): seq<Packet> {
    if q == [] || !Precedes(p.num, q[|q| - 1].num) then q + [p]
    else InsertPacket(q[..|q| - 1], p) + [q[|q| - 1]]
  }

  lemma {:induction false} InsertPacketIs(q: seq<Packet>, p: Packet)
    ensures Nums(InsertPacket(q, p)) == Insert(Nums(q), p.num)
    ensures multiset(InsertPacket(q, p)) == multiset(q) + multiset{p}
  {
    if q == [] || !Precedes(p.num, q[|q| - 1].num) {
      assert Nums(q + [p]) == Nums(q) + [p.num];
    } else {
      var init, last := q[..|q| - 1], q[|q| - 1];
      InsertPacketIs(init, p);
      assert q == init + [last];
      assert Nums(init) == Nums(q)[..|q| - 1];
      assert Nums(InsertPacket(init, p) + [last]) == Nums(InsertPacket(init, p)) + [last.num];
    }
  }

  /**
   A push puts the packet in its place, and a full push drops one with the front number, as long
   as the queue after it fits half the number circle.
   */
  lemma PushSorted(b: Buffer, q: seq<Packet>, p: Packet) returns (r: seq<Packet>)
    requires Stands(b, q) && Windowed(SortedPush(Nums(q), p.num))
    ensures Target(b) < |b.slots| && Stands(AfterPush(b, p), r) && Nums(r) == SortedPush(Nums(q), p.num)
    ensures Evicted(b).Some? <==> |q| == SIZE
    ensures Evicted(b).Some? ==> q != [] && Evicted(b).value.num == q[0].num
  {
    QueueLength(b, q);
    PushKeeps(b, p);
    var kept := q;
    if |q| == SIZE {
      var j := OldestIsFirst(b, q);
      kept := Omit(q, j);
      OmitFront(q, j);
      TakenOut(q, j);
    }
    r := InsertPacket(kept, p);
    InsertPacketIs(kept, p);
    InsertWindowed(Nums(kept), p.num);
  }

  // ----- runs --------------------------------------------------------------------------------------

  // The sorted queue fits half the number circle after every push.
  ghost predicate FitsHalf(ns: seq<uint32>, buffering: bool, ops: seq<Op>)
    decreases ops
  {
    if ops == [] then true
    else match ops[0]
      case Push(p) => Windowed(SortedPush(ns, p.num)) && FitsHalf(SortedPush(ns, p.num), buffering, ops[1..])
      case Pop => FitsHalf(FifoPop(ns, buffering), BufferingAfterPop(ns, buffering), ops[1..])
  }

  ghost function SortedPopped(ns: seq<uint32>, buffering: bool, ops: seq<Op>): seq<uint32>
    decreases ops
  {
    if ops == [] then []
    else match ops[0]
      case Push(p) => SortedPopped(SortedPush(ns, p.num), buffering, ops[1..])
      case Pop =>
        (if FifoGate(ns, buffering) then [ns[0]] else []) +
        SortedPopped(FifoPop(ns, buffering), BufferingAfterPop(ns, buffering), ops[1..])
  }

  ghost function SortedDropped(ns: seq<uint32>, buffering: bool, ops: seq<Op>): seq<uint32>
    decreases ops
  {
    if ops == [] then []
    else match ops[0]
      case Push(p) =>
        (if |ns| == SIZE then [ns[0]] else []) + SortedDropped(SortedPush(ns, p.num), buffering, ops[1..])
      case Pop => SortedDropped(FifoPop(ns, buffering), BufferingAfterPop(ns, buffering), ops[1..])
  }

  lemma NumsConcat(a: seq<Packet>, b: seq<Packet>)
    ensures Nums(a + b) == Nums(a) + Nums(b)
  {
  }

  // The numbers that come out, and those dropped, from here on are the sorted queue's.
  ghost predicate Agrees(b: Buffer, ns: seq<uint32>, ops: seq<Op>)
    requires Valid(b)
  {
    && Nums(PoppedBy(b, ops)) == SortedPopped(ns, b.buffering, ops)
    && Nums(EvictedBy(b, ops)) == SortedDropped(ns, b.buffering, ops)
  }

  // The numbers of a packet that is there, or not.
  lemma NumsOfOne(o: Option<Packet>, n: uint32)
    requires o.Some? ==> o.value.num == n
    ensures Nums(AsSeq(o)) == if o.Some? then [n] else []
  {
  }

  lemma PushUnfolds(b: Buffer, p: Packet, ops: seq<Op>)
    requires Valid(b) && ops != [] && ops[0] == Push(p) && Target(b) < |b.slots| && Valid(AfterPush(b, p))
    ensures PoppedBy(b, ops) == PoppedBy(AfterPush(b, p), ops[1..])
    ensures EvictedBy(b, ops) == AsSeq(Evicted(b)) + EvictedBy(AfterPush(b, p), ops[1..])
  {
  }

  lemma PushAgrees(b: Buffer, ns: seq<uint32>, p: Packet, ops: seq<Op>)
    requires Valid(b) && ops != [] && ops[0] == Push(p) && Target(b) < |b.slots| && Valid(AfterPush(b, p))
    requires Evicted(b).Some? <==> |ns| == SIZE
    requires Evicted(b).Some? ==> ns != [] && Evicted(b).value.num == ns[0]
    requires Agrees(AfterPush(b, p), SortedPush(ns, p.num), ops[1..])
    ensures Agrees(b, ns, ops)
  {
    PushUnfolds(b, p, ops);
    NumsConcat(AsSeq(Evicted(b)), EvictedBy(AfterPush(b, p), ops[1..]));
    NumsOfOne(Evicted(b), if ns != [] then ns[0] else 0);
  }

  lemma PopAgrees(b: Buffer, ns: seq<uint32>, ops: seq<Op>)
    requires Valid(b) && ops != [] && ops[0] == Pop && Valid(AfterPop(b))
    requires Popped(b).Some? <==> FifoGate(ns, b.buffering)
    requires Popped(b).Some? ==> Popped(b).value.num == ns[0]
    requires AfterPop(b).buffering == BufferingAfterPop(ns, b.buffering)
    requires Agrees(AfterPop(b), FifoPop(ns, b.buffering), ops[1..])
    ensures Agrees(b, ns, ops)
  {
    var c, rest := AfterPop(b), ops[1..];
    NumsConcat(AsSeq(Popped(b)), PoppedBy(c, rest));
    StepKeeps(b, Pop);
    assert PoppedBy(b, ops) == AsSeq(Popped(b)) + PoppedBy(c, rest);
    assert EvictedBy(b, ops) == [] + EvictedBy(c, rest);
    assert Nums(AsSeq(Popped(b))) == if FifoGate(ns, b.buffering) then [ns[0]] else [];
  }

  /**
   The unordered buffer refines a serially sorted queue of twenty places: over every run of pushes
   in any order the same numbers come out in the same order and the same ones are dropped.
   */
  lemma {:induction false} RefinesSorted(b: Buffer, q: seq<Packet>, ops: seq<Op>)
    requires Stands(b, q) && FitsHalf(Nums(q), b.buffering, ops)
    ensures Nums(PoppedBy(b, ops)) == SortedPopped(Nums(q), b.buffering, ops)
    ensures Nums(EvictedBy(b, ops)) == SortedDropped(Nums(q), b.buffering, ops)
    decreases ops
  {
    if ops != [] {
      match ops[0] {
        case Push(p) =>
          var r := PushSorted(b, q, p);
          RefinesSorted(AfterPush(b, p), r, ops[1..]);
          PushAgrees(b, Nums(q), p, ops);
        case Pop =>
          var r := PopSorted(b, q);
          RefinesSorted(AfterPop(b), r, ops[1..]);
          PopAgrees(b, Nums(q), ops);
      }
    }
  }
}
