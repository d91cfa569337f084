/**
 The jitter buffer as the mixer updates it in place.
 */
module JitterBuffer {
  import opened Common
  import opened Jitter

  class JitterBuffer {
    const buffer: array<Slot>
    var count: int
    var buffering: bool

    ghost predicate Valid()
      reads this, buffer
    {
      buffer.Length == SIZE && Jitter.Valid(State())
    }

    ghost function State(): Buffer
      reads this, buffer
    {
      Buffer(buffer[..], count, buffering)
    }

    // Zeroed memory: no valid slot, and the gate open until a pop finds the buffer empty.
    constructor ()
      ensures Valid() && fresh(buffer)
      ensures Held(State().slots) == multiset{} && !buffering
    {
      buffer := new Slot[SIZE](_ => Slot(Packet(0, 0, []), false));
      count := 0;
      buffering := false;
      new;
      NothingHeld(buffer[..]);
    }

    // The first slot that is not valid.
    method FindFree() returns (idx: nat)
      requires buffer.Length == SIZE
      ensures idx == FirstFree(buffer[..], 0)
    {
      ghost var slots := buffer[..];
      idx := 0;
      while idx < SIZE && buffer[idx].valid
        invariant 0 <= idx <= SIZE
        invariant FirstFree(slots, idx) == FirstFree(slots, 0)
      {
        idx := idx + 1;
      }
    }

    // The valid slot a left-to-right scan settles on, or SIZE when no slot is valid.
    method FindOldest() returns (best: nat)
      requires buffer.Length == SIZE
      ensures best == Oldest(buffer[..])
    {
      ghost var slots := buffer[..];
      best := SIZE;
      for i := 0 to SIZE
        invariant 0 <= best <= SIZE
        invariant best < SIZE ==> slots[best].valid
        invariant Scan(slots, i, best) == Scan(slots, 0, SIZE)
      {
        if buffer[i].valid && (best == SIZE || Precedes(buffer[i].packet.num, buffer[best].packet.num)) {
          best := i;
        }
      }
    }

    method Push(p: Packet)
      requires Valid()
      modifies this, buffer
      ensures Valid()
      ensures Target(old(State())) < SIZE && State() == AfterPush(old(State()), p)
    {
      ghost var before := State();
      StepKeeps(before, Jitter.Push(p));
      var idx := FindFree();
      if idx == SIZE {
        idx := FindOldest();
      } else {
        count := count + 1;
      }
      buffer[idx] := Slot(p, true);
      assert buffer[..] == before.slots[idx := Slot(p, true)];
      assert State() == Step(before, Jitter.Push(p));
    }

    method Pop() returns (out: Option<Packet>)
      requires Valid()
      modifies this, buffer
      ensures Valid()
      ensures out == Popped(old(State())) && State() == AfterPop(old(State()))
    {
      ghost var before := State();
      StepKeeps(before, Jitter.Pop);
      OldestExists(before.slots);
      if count == 0 {
        buffering := true;
        return None;
      }
      if buffering {
        if count >= CUSHION {
          buffering := false;
        } else {
          return None;
        }
      }
      var best := FindOldest();
      out := Some(buffer[best].packet);
      buffer[best] := buffer[best].(valid := false);
      count := count - 1;
      assert buffer[..] == before.slots[best := before.slots[best].(valid := false)];
      assert State() == Step(before, Jitter.Pop);
    }
  }

  lemma NothingHeld(slots: seq<Slot>)
    requires forall i :: 0 <= i < |slots| ==> !slots[i].valid
    ensures Held(slots) == multiset{}
  {
    if Held(slots) != multiset{} {
      var p :| p in Held(slots);
      HeldMember(slots, p);
    }
  }
}
