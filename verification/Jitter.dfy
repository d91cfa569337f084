/**
 The per-client jitter buffer: twenty slots in no particular order, sequence numbers that
 wrap around, and a playout gate.
 */
module Jitter {
  import opened Common

  const SIZE: nat := 20
  const CUSHION: nat := 5
  const MODULUS: nat := 0x1_0000_0000
  const HALF: nat := 0x8000_0000

  type uint32 = x: int | 0 <= x < 0x1_0000_0000
  type byte = x: int | 0 <= x < 0x100

  // The payload is the first `payload_size` bytes, which is all that is ever read back.
  datatype Packet = Packet(num: uint32, timestamp: uint32, payload: seq<byte>)

  datatype Slot = Slot(packet: Packet, valid: bool)

  // How far `b` is ahead of `a`, counting upwards with wrap-around: `b - a` on unsigned
  // 32-bit numbers.
  function Ahead(a: uint32, b: uint32): uint32 {
    if a <= b then b - a else b - a + MODULUS
  }

  // `n + k` on unsigned 32-bit numbers.
  function Wrap(n: uint32, k: uint32): uint32 {
    if n + k < MODULUS then n + k else n + k - MODULUS
  }

  // `(int32_t)(a - b) < 0` on unsigned 32-bit numbers.
  predicate Precedes(a: uint32, b: uint32) {
    Ahead(b, a) >= HALF
  }

  // ----- the buffer as a value -------------------------------------------------------------

  datatype Buffer = Buffer(slots: seq<Slot>, count: int, buffering: bool)

  function One(s: Slot): multiset<Packet> {
    if s.valid then multiset{s.packet} else multiset{}
  }

  // The packets in the valid slots.
  ghost function Held(slots: seq<Slot>): multiset<Packet> {
    if slots == [] then multiset{}
    else
      Held(slots[..|slots| - 1]) + One(slots[|slots| - 1])
  }

  ghost predicate Valid(b: Buffer) {
    |b.slots| == SIZE && b.count == |Held(b.slots)|
  }

  function FirstFree(slots: seq<Slot>, i: nat): (k: nat)
    requires i <= |slots|
    ensures i <= k <= |slots| && (k < |slots| ==> !slots[k].valid)
    ensures forall j :: i <= j < k ==> slots[j].valid
    decreases |slots| - i
  {
    if i == |slots| || !slots[i].valid then i else FirstFree(slots, i + 1)
  }

  // The slot a left-to-right scan keeps when it moves to each valid slot that precedes the
  // one it holds. `best == |slots|` means it holds none yet.
  function Scan(slots: seq<Slot>, i: nat, best: nat): (k: nat)
    requires i <= |slots| && best <= |slots| && (best < |slots| ==> slots[best].valid)
    ensures k <= |slots| && (k < |slots| ==> slots[k].valid)
    decreases |slots| - i
  {
    if i == |slots| then best
    else if slots[i].valid && (best == |slots| || Precedes(slots[i].packet.num, slots[best].packet.num))
    then Scan(slots, i + 1, i)
    else Scan(slots, i + 1, best)
  }

  function Oldest(slots: seq<Slot>): (k: nat)
    ensures k <= |slots| && (k < |slots| ==> slots[k].valid)
  {
    Scan(slots, 0, |slots|)
  }

  // The slot a push goes to: a free one, or the oldest when there is none.
  function Target(b: Buffer): nat {
    var free := FirstFree(b.slots, 0);
    if free < |b.slots| then free else Oldest(b.slots)
  }

  function AfterPush(b: Buffer, p: Packet): Buffer
    requires Target(b) < |b.slots|
  {
    var full := FirstFree(b.slots, 0) == |b.slots|;
    b.(slots := b.slots[Target(b) := Slot(p, true)], count := if full then b.count else b.count + 1)
  }

  function Evicted(b: Buffer): Option<Packet> {
    var full := FirstFree(b.slots, 0) == |b.slots|;
    if full && Oldest(b.slots) < |b.slots| then Some(b.slots[Oldest(b.slots)].packet) else None
  }

  // Whether a pop gets past the playout gate.
  predicate Gate(b: Buffer) {
    b.count != 0 && (b.buffering ==> b.count >= CUSHION)
  }

  function Popped(b: Buffer): Option<Packet> {
    if Gate(b) && Oldest(b.slots) < |b.slots| then Some(b.slots[Oldest(b.slots)].packet) else None
  }

  function AfterPop(b: Buffer): Buffer {
    if b.count == 0 then b.(buffering := true)
    else if !Gate(b) then b
    else
      var k := Oldest(b.slots);
      if k == |b.slots| then b.(buffering := false)
      else Buffer(b.slots[k := b.slots[k].(valid := false)], b.count - 1, false)
  }

  // ----- counting --------------------------------------------------------------------------

  lemma Assoc(a: multiset<Packet>, b: multiset<Packet>, c: multiset<Packet>)
    ensures a + (b + c) == (a + b) + c == (a + c) + b
  {
  }

  lemma {:induction false} HeldConcat(a: seq<Slot>, b: seq<Slot>)
    ensures Held(a + b) == Held(a) + Held(b)
  {
    if b == [] {
      assert a + b == a;
      assert Held(b) == multiset{};
    } else {
      var init, s := b[..|b| - 1], b[|b| - 1];
      var all := a + b;
      assert all[..|all| - 1] == a + init && all[|all| - 1] == s;
      assert Held(all) == Held(a + init) + One(s);
      HeldConcat(a, init);
      Assoc(Held(a), Held(init), One(s));
    }
  }

  // What all the slots but one hold.
  ghost function Others(slots: seq<Slot>, i: nat): multiset<Packet>
    requires i < |slots|
  {
    Held(slots[..i]) + Held(slots[i + 1..])
  }

  lemma HeldSplit(slots: seq<Slot>, i: nat)
    requires i < |slots|
    ensures Held(slots) == Others(slots, i) + One(slots[i])
  {
    var s := slots[i];
    var pre := slots[..i + 1];
    assert slots == pre + slots[i + 1..];
    HeldConcat(pre, slots[i + 1..]);
    assert pre[..|pre| - 1] == slots[..i] && pre[|pre| - 1] == s;
    assert Held(pre) == Held(slots[..i]) + One(s);
    Assoc(Held(slots[..i]), One(s), Held(slots[i + 1..]));
  }

  lemma HeldUpdate(slots: seq<Slot>, i: nat, s: Slot)
    requires i < |slots|
    ensures One(slots[i]) <= Held(slots)
    ensures Held(slots[i := s]) == Held(slots) - One(slots[i]) + One(s)
  {
    var t := slots[i := s];
    HeldSplit(slots, i);
    HeldSplit(t, i);
    assert t[..i] == slots[..i] && t[i + 1..] == slots[i + 1..];
  }

  lemma {:induction false} HeldSize(slots: seq<Slot>)
    ensures |Held(slots)| <= |slots|
    ensures |Held(slots)| == |slots| <==> forall i :: 0 <= i < |slots| ==> slots[i].valid
  {
    if slots != [] {
      var init := slots[..|slots| - 1];
      HeldSize(init);
      assert |Held(slots)| == |Held(init)| + |One(slots[|slots| - 1])|;
      assert (forall i :: 0 <= i < |slots| ==> slots[i].valid) <==>
             (forall i :: 0 <= i < |init| ==> init[i].valid) && slots[|slots| - 1].valid by {
        assert forall i | 0 <= i < |init| :: init[i] == slots[i];
      }
    }
  }

  lemma {:induction false} HeldMember(slots: seq<Slot>, p: Packet)
    ensures p in Held(slots) <==> exists i :: 0 <= i < |slots| && slots[i].valid && slots[i].packet == p
  {
    if slots != [] {
      var init := slots[..|slots| - 1];
      HeldMember(init, p);
      assert forall i | 0 <= i < |init| :: init[i] == slots[i];
    }
  }

  lemma {:induction false} ScanFinds(slots: seq<Slot>, i: nat, best: nat)
    requires i <= |slots| && best <= |slots| && (best < |slots| ==> slots[best].valid)
    ensures Scan(slots, i, best) == |slots| <==>
            best == |slots| && forall j :: i <= j < |slots| ==> !slots[j].valid
    decreases |slots| - i
  {
    if i < |slots| {
      var b := if slots[i].valid && (best == |slots| || Precedes(slots[i].packet.num, slots[best].packet.num))
               then i else best;
      ScanFinds(slots, i + 1, b);
    }
  }

  // A buffer that holds a packet has an oldest one, so the "not found" exit is dead code.
  lemma OldestExists(slots: seq<Slot>)
    ensures Oldest(slots) < |slots| <==> |Held(slots)| > 0
  {
    ScanFinds(slots, 0, |slots|);
    if Oldest(slots) < |slots| {
      HeldUpdate(slots, Oldest(slots), slots[Oldest(slots)]);
    } else if |Held(slots)| > 0 {
      var p :| p in Held(slots);
      HeldMember(slots, p);
    }
  }

  lemma TargetExists(b: Buffer)
    requires Valid(b)
    ensures Target(b) < |b.slots|
    ensures FirstFree(b.slots, 0) == |b.slots| <==> b.count == SIZE
  {
    HeldSize(b.slots);
    OldestExists(b.slots);
  }

  /**
   A push keeps `count` equal to the number of valid slots and trades at most one packet,
   the evicted one, for the new one.
   */
  lemma PushKeeps(b: Buffer, p: Packet)
    requires Valid(b)
    ensures Target(b) < |b.slots| && Valid(AfterPush(b, p))
    ensures Evicted(b).Some? <==> b.count == 20
    ensures var out := if Evicted(b).Some? then multiset{Evicted(b).value} else multiset{};
            out <= Held(b.slots) && Held(AfterPush(b, p).slots) == Held(b.slots) - out + multiset{p}
  {
    TargetExists(b);
    var k := Target(b);
    HeldUpdate(b.slots, k, Slot(p, true));
    assert One(Slot(p, true)) == multiset{p};
    assert One(b.slots[k]) == if Evicted(b).Some? then multiset{Evicted(b).value} else multiset{};
  }

  /**
   A pop succeeds exactly when the gate lets it through, and then takes out one packet.
   */
  lemma PopKeeps(b: Buffer)
    requires Valid(b)
    ensures Valid(AfterPop(b))
    ensures Popped(b).Some? <==> Gate(b)
    ensures var out := if Popped(b).Some? then multiset{Popped(b).value} else multiset{};
            out <= Held(b.slots) && Held(AfterPop(b).slots) == Held(b.slots) - out
  {
    OldestExists(b.slots);
    if Gate(b) {
      var k := Oldest(b.slots);
      HeldUpdate(b.slots, k, b.slots[k].(valid := false));
    }
  }

  // ----- runs ------------------------------------------------------------------------------------

  datatype Op = Push(packet: Packet) | Pop

  function Step(b: Buffer, op: Op): Buffer
    requires Target(b) < |b.slots|
  {
    match op
    case Push(p) => AfterPush(b, p)
    case Pop => AfterPop(b)
  }

  lemma StepKeeps(b: Buffer, op: Op)
    requires Valid(b)
    ensures Target(b) < |b.slots| && Valid(Step(b, op))
  {
    TargetExists(b);
    match op {
      case Push(p) => PushKeeps(b, p);
      case Pop => PopKeeps(b);
    }
  }

  ghost function Run(b: Buffer, ops: seq<Op>): (r: Buffer)
    requires Valid(b)
    ensures Valid(r)
    decreases ops
  {
    if ops == [] then b else StepKeeps(b, ops[0]); Run(Step(b, ops[0]), ops[1..])
  }

  ghost function AsSeq(o: Option<Packet>): seq<Packet> {
    if o.Some? then [o.value] else []
  }

  ghost function PushedBy(ops: seq<Op>): seq<Packet> {
    if ops == [] then []
    else Into(ops[0]) + PushedBy(ops[1..])
  }

  ghost function PoppedBy(b: Buffer, ops: seq<Op>): seq<Packet>
    requires Valid(b)
    decreases ops
  {
    if ops == [] then []
    else
      StepKeeps(b, ops[0]);
      (if ops[0].Pop? then AsSeq(Popped(b)) else []) + PoppedBy(Step(b, ops[0]), ops[1..])
  }

  ghost function EvictedBy(b: Buffer, ops: seq<Op>): seq<Packet>
    requires Valid(b)
    decreases ops
  {
    if ops == [] then []
    else
      StepKeeps(b, ops[0]);
      (if ops[0].Push? then AsSeq(Evicted(b)) else []) + EvictedBy(Step(b, ops[0]), ops[1..])
  }

  ghost function Into(op: Op): seq<Packet> {
    if op.Push? then [op.packet] else []
  }

  ghost function Out(b: Buffer, op: Op): seq<Packet> {
    AsSeq(if op.Pop? then Popped(b) else Evicted(b))
  }

  // What one step takes in and gives out.
  lemma StepBalance(b: Buffer, op: Op)
    requires Valid(b)
    ensures Target(b) < |b.slots|
    ensures Held(b.slots) + multiset(Into(op)) == multiset(Out(b, op)) + Held(Step(b, op).slots)
  {
    TargetExists(b);
    match op {
      case Push(p) => PushKeeps(b, p);
      case Pop => PopKeeps(b);
    }
  }

  lemma Chain(h: multiset<Packet>, into: multiset<Packet>, out: multiset<Packet>, h': multiset<Packet>,
              pushed: multiset<Packet>, a: multiset<Packet>, b: multiset<Packet>, end: multiset<Packet>)
    requires h + into == out + h' && h' + pushed == a + b + end
    ensures h + (into + pushed) == (out + a) + b + end == a + (out + b) + end
  {
    Assoc(h, into, pushed);
    Assoc(out, h', pushed);
    Assoc(out, a, b);
    Assoc(out, a + b, end);
    Assoc(a, out, b);
  }

  lemma Tally(h: multiset<Packet>, into: seq<Packet>, out: seq<Packet>, h': multiset<Packet>,
              pushed: seq<Packet>, a: seq<Packet>, b: seq<Packet>, end: multiset<Packet>)
    requires h + multiset(into) == multiset(out) + h'
    requires h' + multiset(pushed) == multiset(a) + multiset(b) + end
    ensures h + multiset(into + pushed) == multiset(out + a) + multiset(b) + end
    ensures h + multiset(into + pushed) == multiset(a) + multiset(out + b) + end
  {
    Chain(h, multiset(into), multiset(out), h', multiset(pushed), multiset(a), multiset(b), end);
  }

  ghost predicate Conserved(b: Buffer, ops: seq<Op>)
    requires Valid(b)
  {
    Held(b.slots) + multiset(PushedBy(ops)) ==
    multiset(PoppedBy(b, ops)) + multiset(EvictedBy(b, ops)) + Held(Run(b, ops).slots)
  }

  lemma ConservedCons(b: Buffer, ops: seq<Op>, c: Buffer)
    requires Valid(b) && ops != [] && Target(b) < |b.slots| && Valid(c) && c == Step(b, ops[0])
    requires Conserved(c, ops[1..])
    ensures Conserved(b, ops)
  {
    var op, rest := ops[0], ops[1..];
    StepBalance(b, op);
    Tally(Held(b.slots), Into(op), Out(b, op), Held(c.slots), PushedBy(rest),
          PoppedBy(c, rest), EvictedBy(c, rest), Held(Run(c, rest).slots));
    if op.Pop? {
      assert PoppedBy(b, ops) == Out(b, op) + PoppedBy(c, rest);
      assert EvictedBy(b, ops) == EvictedBy(c, rest);
    } else {
      assert PoppedBy(b, ops) == PoppedBy(c, rest);
      assert EvictedBy(b, ops) == Out(b, op) + EvictedBy(c, rest);
    }
  }

  /**
   Conservation over every run: what was held and pushed is, counted with multiplicity, what
   was popped, evicted and is still held.
   */
  lemma {:induction false} Conservation(b: Buffer, ops: seq<Op>)
    requires Valid(b)
    ensures Conserved(b, ops)
    decreases ops
  {
    if ops != [] {
      StepKeeps(b, ops[0]);
      var c := Step(b, ops[0]);
      Conservation(c, ops[1..]);
      ConservedCons(b, ops, c);
    }
  }

  lemma CountInRange(b: Buffer, ops: seq<Op>)
    requires Valid(b)
    ensures 0 <= Run(b, ops).count <= 20
  {
    HeldSize(Run(b, ops).slots);
  }
}
