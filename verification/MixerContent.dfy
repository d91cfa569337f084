/**
 What is in a mix: which packets a tick collects, what samples they hold, and whose samples a
 listener is sent.
 */
module MixerContent {
  import opened Common
  import Jitter
  import opened Mixer

  // A subsequence of 0, 1, .., n - 1.
  ghost predicate Picks(idx: seq<nat>, n: nat) {
    && (forall k :: 0 <= k < |idx| ==> idx[k] < n)
    && (forall k, l :: 0 <= k < l < |idx| ==> idx[k] < idx[l])
  }

  lemma PicksGrow(idx: seq<nat>, n: nat)
    requires Picks(idx, n)
    ensures Picks(idx, n + 1) && Picks(idx + [n], n + 1)
  {
  }

  // ----- samples ---------------------------------------------------------------------------------

  // Two payload bytes, low byte first, stand for this number: the same modulo 65536.
  predicate Encodes(lo: Jitter.byte, hi: Jitter.byte, x: int16) {
    (x as int - lo as int - 0x100 * (hi as int)) % 0x1_0000 == 0
  }

  lemma DecodeEncodes(lo: Jitter.byte, hi: Jitter.byte)
    ensures Encodes(lo, hi, Decode(lo, hi))
  {
  }

  // The samples of a payload: two bytes each, at most 320 of them.
  lemma PcmSamples(payload: seq<Jitter.byte>)
    ensures |PcmOf(payload)| == if |payload| / 2 < 320 then |payload| / 2 else 320
    ensures forall i :: 0 <= i < |PcmOf(payload)| ==>
              Encodes(payload[2 * i], payload[2 * i + 1], PcmOf(payload)[i])
  {
    forall i | 0 <= i < |PcmOf(payload)|
      ensures Encodes(payload[2 * i], payload[2 * i + 1], PcmOf(payload)[i])
    {
      DecodeEncodes(payload[2 * i], payload[2 * i + 1]);
    }
  }

  // ----- what a listener is sent ---------------------------------------------------------------------

  // Speaker `i` is someone else, and this is its sample at position `j`: silence past its end.
  predicate HeardAt(speakers: seq<Speaker>, listener: nat, j: nat, i: nat, x: int16) {
    && i < |speakers| && speakers[i].slot != listener
    && x == if j < |speakers[i].pcm| then speakers[i].pcm[j] else 0
  }

  // These are the places of the speakers heard, in order and all of them.
  ghost predicate HeardBy(speakers: seq<Speaker>, listener: nat, j: nat, idx: seq<nat>, xs: seq<int16>) {
    && Picks(idx, |speakers|) && |xs| == |idx|
    && (forall k :: 0 <= k < |idx| ==> HeardAt(speakers, listener, j, idx[k], xs[k]))
    && (forall i :: 0 <= i < |speakers| && speakers[i].slot != listener ==> i in idx)
  }

  lemma HeardBySkip(speakers: seq<Speaker>, s: Speaker, listener: nat, j: nat, idx: seq<nat>, xs: seq<int16>)
    requires HeardBy(speakers, listener, j, idx, xs) && s.slot == listener
    ensures HeardBy(speakers + [s], listener, j, idx, xs)
  {
    PicksGrow(idx, |speakers|);
    forall k | 0 <= k < |idx|
      ensures HeardAt(speakers + [s], listener, j, idx[k], xs[k])
    {
      assert HeardAt(speakers, listener, j, idx[k], xs[k]);
    }
  }

  lemma HeardByAdd(speakers: seq<Speaker>, s: Speaker, listener: nat, j: nat, idx: seq<nat>, xs: seq<int16>, x: int16)
    requires HeardBy(speakers, listener, j, idx, xs) && HeardAt([s], listener, j, 0, x)
    ensures HeardBy(speakers + [s], listener, j, idx + [|speakers|], xs + [x])
  {
    var all, ids := speakers + [s], idx + [|speakers|];
    PicksGrow(idx, |speakers|);
    forall k | 0 <= k < |ids|
      ensures HeardAt(all, listener, j, ids[k], (xs + [x])[k])
    {
      if k < |idx| {
        assert HeardAt(speakers, listener, j, idx[k], xs[k]);
      }
    }
    assert ids[|idx|] == |speakers|;
  }

  /**
   The samples summed for a listener are, in the order of the speakers, exactly those of everyone
   with another slot, a silent one where a speaker sent fewer samples.
   */
  lemma {:induction false} HeardIsExactly(speakers: seq<Speaker>, listener: nat, j: nat) returns (idx: seq<nat>)
    ensures HeardBy(speakers, listener, j, idx, Heard(speakers, listener, j))
  {
    idx := [];
    if speakers != [] {
      var init, s := speakers[..|speakers| - 1], speakers[|speakers| - 1];
      var xs := Heard(init, listener, j);
      var rest := HeardIsExactly(init, listener, j);
      assert speakers == init + [s];
      if s.slot == listener {
        HeardBySkip(init, s, listener, j, rest, xs);
        assert Heard(speakers, listener, j) == xs + [];
        idx := rest;
      } else {
        HeardByAdd(init, s, listener, j, rest, xs, SampleAt(s, j));
        idx := rest + [|init|];
      }
    }
  }

  /**
   The mix: silence for nobody, the sample of one speaker as it is, and for several the clipped sum
   divided by their number towards zero.
   */
  lemma MixIs(speakers: seq<Speaker>, listener: nat, j: nat)
    ensures var xs, m := Heard(speakers, listener, j), MixAt(speakers, listener, j);
            && (|xs| == 0 ==> m == 0)
            && (|xs| == 1 ==> m == xs[0])
            && (|xs| >= 2 ==> Abs(m) * |xs| <= Abs(SatSum(xs)) < Abs(m) * |xs| + |xs|)
            && (|xs| >= 2 ==> m == 0 || (m < 0 <==> SatSum(xs) < 0))
  {
    var xs := Heard(speakers, listener, j);
    if |xs| == 1 {
      assert xs[..0] == [];
    } else if |xs| >= 2 {
      TruncDivTowardsZero(SatSum(xs), |xs|);
    }
  }

  // ----- what a tick collects --------------------------------------------------------------------------

  predicate DistinctSlots(ps: seq<Participant>) {
    forall i, j :: 0 <= i < j < |ps| ==> ps[i].slot != ps[j].slot
  }

  // Participant `i` is unmuted and active, so its buffer is popped.
  predicate Asked(ps: seq<Participant>, i: nat) {
    i < |ps| && !ps[i].muted && ps[i].active
  }

  ghost predicate AskedAt(ps: seq<Participant>, slot: nat) {
    exists i: nat :: Asked(ps, i) && ps[i].slot == slot
  }

  lemma AskedSnoc(ps: seq<Participant>, p: Participant, slot: nat)
    ensures AskedAt(ps + [p], slot) <==> AskedAt(ps, slot) || (!p.muted && p.active && p.slot == slot)
  {
    var all := ps + [p];
    if i: nat :| Asked(all, i) && all[i].slot == slot {
      assert i < |ps| ==> Asked(ps, i) && ps[i].slot == slot;
    }
    if i: nat :| Asked(ps, i) && ps[i].slot == slot {
      assert Asked(all, i) && all[i].slot == slot;
    }
    if !p.muted && p.active && p.slot == slot {
      assert Asked(all, |ps|) && all[|ps|].slot == slot;
    }
  }

  lemma FreshSlot(ps: seq<Participant>, p: Participant)
    requires DistinctSlots(ps + [p])
    ensures DistinctSlots(ps) && !AskedAt(ps, p.slot)
  {
    var all := ps + [p];
    assert forall i | 0 <= i < |ps| :: all[i] == ps[i] && all[i].slot != all[|ps|].slot;
  }

  // Every buffer of an unmuted, active participant is popped once, and no other is touched.
  lemma {:induction false} CollectPops(ps: seq<Participant>, b: Buffers, slot: nat)
    requires DistinctSlots(ps) && slot < 50
    ensures Collect(ps, b).1[slot] == if AskedAt(ps, slot) then Jitter.AfterPop(b[slot]) else b[slot]
  {
    if ps != [] {
      var init, p := ps[..|ps| - 1], ps[|ps| - 1];
      assert ps == init + [p];
      FreshSlot(init, p);
      CollectPops(init, b, slot);
      AskedSnoc(init, p, slot);
    }
  }

  // Participant `i` is asked, the pop gives a packet, and this is the speaker made of it.
  predicate SaidBy(ps: seq<Participant>, b: Buffers, i: nat, s: Speaker) {
    && Asked(ps, i) && Jitter.Popped(b[ps[i].slot]).Some?
    && s == Speaker(ps[i].slot, PcmOf(Jitter.Popped(b[ps[i].slot]).value.payload))
  }

  // Participant `i` says something.
  predicate Says(ps: seq<Participant>, b: Buffers, i: nat) {
    Asked(ps, i) && Jitter.Popped(b[ps[i].slot]).Some?
  }

  // These are the places of the participants collected from, in order and all of them.
  ghost predicate CollectedFrom(ps: seq<Participant>, b: Buffers, idx: seq<nat>, speakers: seq<Speaker>) {
    && Picks(idx, |ps|) && |speakers| == |idx|
    && (forall k :: 0 <= k < |idx| ==> SaidBy(ps, b, idx[k], speakers[k]))
    && (forall i :: 0 <= i < |ps| && Says(ps, b, i) ==> i in idx)
  }

  lemma CollectedSkip(ps: seq<Participant>, p: Participant, b: Buffers, idx: seq<nat>, speakers: seq<Speaker>)
    requires CollectedFrom(ps, b, idx, speakers) && !Says([p], b, 0)
    ensures CollectedFrom(ps + [p], b, idx, speakers)
  {
    var all := ps + [p];
    PicksGrow(idx, |ps|);
    forall k | 0 <= k < |idx|
      ensures SaidBy(all, b, idx[k], speakers[k])
    {
      assert SaidBy(ps, b, idx[k], speakers[k]);
    }
    forall i | 0 <= i < |all| && Says(all, b, i)
      ensures i in idx
    {
      assert i < |ps| && Says(ps, b, i);
    }
  }

  lemma CollectedAdd(ps: seq<Participant>, p: Participant, b: Buffers, idx: seq<nat>, speakers: seq<Speaker>,
                     s: Speaker)
    requires CollectedFrom(ps, b, idx, speakers) && SaidBy([p], b, 0, s)
    ensures CollectedFrom(ps + [p], b, idx + [|ps|], speakers + [s])
  {
    var all, ids := ps + [p], idx + [|ps|];
    PicksGrow(idx, |ps|);
    forall k | 0 <= k < |ids|
      ensures SaidBy(all, b, ids[k], (speakers + [s])[k])
    {
      if k < |idx| {
        assert SaidBy(ps, b, idx[k], speakers[k]);
      }
    }
    forall i | 0 <= i < |all| && Says(all, b, i)
      ensures i in ids
    {
      assert i < |ps| ==> Says(ps, b, i);
      assert ids[|idx|] == |ps|;
    }
  }

  /**
   What a tick collects from participants with slots of their own: in their order, exactly the
   packets popped from the buffers of those who are unmuted and active.
   */
  lemma {:induction false} CollectIsExactly(ps: seq<Participant>, b: Buffers) returns (idx: seq<nat>)
    requires DistinctSlots(ps)
    ensures CollectedFrom(ps, b, idx, Collect(ps, b).0)
  {
    idx := [];
    if ps != [] {
      var init, p := ps[..|ps| - 1], ps[|ps| - 1];
      assert ps == init + [p];
      FreshSlot(init, p);
      var rest := CollectIsExactly(init, b);
      CollectPops(init, b, p.slot);
      var speakers, said := Collect(init, b).0, Turn(p, Collect(init, b).1).0;
      assert Collect(ps, b).0 == speakers + said;
      if said == [] {
        assert speakers + [] == speakers;
        CollectedSkip(init, p, b, rest, speakers);
        idx := rest;
      } else {
        CollectedAdd(init, p, b, rest, speakers, said[0]);
        idx := rest + [|init|];
      }
    }
  }
}
