/**
 The ring in shared memory, pushed to and popped from by one thread at a time. Each call runs
 the three steps of the interleaved model back to back.
 */
module RingBuffer {
  import opened Ring

  class RingBuffer<T(0, ==)> {
    const packets: array<T>
    var head: nat
    var tail: nat
    var count: int
    var ringEmpty: int
    var ringFull: int
    ghost var written: seq<T>
    ghost var taken: seq<T>

    ghost function View(): State<T>
      reads this, packets
    {
      State(packets[..], head, tail, count, ringEmpty, ringFull, [Idle], written, taken)
    }

    ghost predicate Valid()
      reads this, packets
    {
      Inv(View())
    }

    // The packets in the ring, oldest first.
    ghost function Unread(): seq<T>
      requires Valid()
      reads this, packets
    {
      written[|taken|..]
    }

    constructor (blank: T)
      ensures Valid() && fresh(packets) && Unread() == []
    {
      packets := new T[CAPACITY](_ => blank);
      head, tail, count, ringEmpty, ringFull := 0, 0, 0, CAPACITY, 0;
      written, taken := [], [];
      new;
      StartHolds(blank, 1);
      assert View() == Start(blank, 1);
    }

    // Drops the packet instead of blocking when the ring is full.
    method Push(packet: T) returns (ok: bool)
      requires Valid()
      modifies this, packets
      ensures Valid()
      ensures ok <==> |old(Unread())| < 128
      ensures Unread() == if ok then old(Unread()) + [packet] else old(Unread())
    {
      ghost var s := View();
      QuiescentSemaphores(s);
      if ringEmpty == 0 {
        return false;
      }
      PushThrough(s, packet);
      ringEmpty := ringEmpty - 1;
      packets[tail] := packet;
      tail := (tail + 1) % CAPACITY;
      count := count + 1;
      written := written + [packet];
      ringFull := ringFull + 1;
      return true;
    }

    method Pop() returns (ok: bool, packet: T)
      requires Valid()
      modifies this
      ensures Valid()
      ensures ok <==> old(Unread()) != []
      ensures ok ==> old(Unread()) == [packet] + Unread()
      ensures !ok ==> Unread() == old(Unread())
    {
      ghost var s := View();
      QuiescentSemaphores(s);
      packet := packets[head];
      if ringFull == 0 {
        return false, packet;
      }
      PopThrough(s);
      ringFull := ringFull - 1;
      head := (head + 1) % CAPACITY;
      count := count - 1;
      taken := taken + [packet];
      ringEmpty := ringEmpty + 1;
      return true, packet;
    }
  }
}
