/**
 The mixer: what it collects from a room's jitter buffers in one tick, and the 320 samples it
 makes of that for each listener.
 */
module Mixer {
  import opened Common
  import Jitter

  const FRAME: nat := 320

  type int16 = x: int | -32768 <= x <= 32767
  type Pcm = s: seq<int16> | |s| <= 320

  // ----- saturating sums ---------------------------------------------------------------------

  function Clamp(x: int): int16 {
    if x > 32767 then 32767 else if x < -32768 then -32768 else x
  }

  // `clamp_add`
  function ClampAdd(a: int16, b: int16): int16 {
    Clamp(a + b)
  }

  // The order is that of the speakers: what is clipped early is not remembered later.
  function SatSum(xs: seq<int16>): int16 {
    if xs == [] then 0 else ClampAdd(SatSum(xs[..|xs| - 1]), xs[|xs| - 1])
  }

  function Sum(xs: seq<int16>): int {
    if xs == [] then 0 else Sum(xs[..|xs| - 1]) + xs[|xs| - 1]
  }

  function Loudness(xs: seq<int16>): nat {
    if xs == [] then 0 else Loudness(xs[..|xs| - 1]) + Abs(xs[|xs| - 1])
  }

  // Division as C defines it: towards zero.
  function TruncDiv(a: int, n: nat): int
    requires n > 0
  {
    if a >= 0 then a / n else -((-a) / n)
  }

  lemma QuotientBounds(x: nat, n: nat)
    requires n > 0
    ensures (x / n) * n <= x < (x / n) * n + n
  {
    var q, r := x / n, x % n;
    assert x == n * q + r;
    Commutes(n, q);
  }

  lemma Commutes(a: nat, b: nat)
    ensures a * b == b * a
  {
  }

  // The quotient's magnitude is the greatest that fits, and its sign the dividend's.
  lemma TruncDivTowardsZero(a: int, n: nat)
    requires n > 0
    ensures Abs(TruncDiv(a, n)) * n <= Abs(a) < Abs(TruncDiv(a, n)) * n + n
    ensures TruncDiv(a, n) == 0 || (TruncDiv(a, n) < 0 <==> a < 0)
  {
    QuotientBounds(Abs(a), n);
  }

  // Samples of one sign sum to their true sum, clipped.
  lemma {:induction false} SameSignSum(xs: seq<int16>)
    requires (forall i :: 0 <= i < |xs| ==> xs[i] >= 0) || (forall i :: 0 <= i < |xs| ==> xs[i] <= 0)
    ensures SatSum(xs) == Clamp(Sum(xs))
    ensures (Sum(xs) > 0 ==> exists i :: 0 <= i < |xs| && xs[i] > 0)
    ensures (Sum(xs) < 0 ==> exists i :: 0 <= i < |xs| && xs[i] < 0)
  {
    if xs != [] {
      SameSignSum(xs[..|xs| - 1]);
    }
  }

  lemma {:induction false} SumBounded(xs: seq<int16>)
    ensures Abs(Sum(xs)) <= Loudness(xs)
  {
    if xs != [] {
      SumBounded(xs[..|xs| - 1]);
    }
  }

  // Samples that are quiet enough together are never clipped on the way.
  lemma {:induction false} QuietSum(xs: seq<int16>)
    requires Loudness(xs) <= 32767
    ensures SatSum(xs) == Sum(xs)
  {
    if xs != [] {
      QuietSum(xs[..|xs| - 1]);
      SumBounded(xs);
    }
  }

  // Louder samples never make a quieter sum.
  lemma {:induction false} MonotoneSum(xs: seq<int16>, ys: seq<int16>)
    requires |xs| == |ys| && forall i :: 0 <= i < |xs| ==> xs[i] <= ys[i]
    ensures SatSum(xs) <= SatSum(ys)
  {
    if xs != [] {
      MonotoneSum(xs[..|xs| - 1], ys[..|ys| - 1]);
    }
  }

  function Distance(xs: seq<int16>, ys: seq<int16>): nat
    requires |xs| == |ys|
  {
    if xs == [] then 0
    else Distance(xs[..|xs| - 1], ys[..|ys| - 1]) + Abs(xs[|xs| - 1] as int - ys[|ys| - 1])
  }

  // Clipping never amplifies a change.
  lemma {:induction false} NonexpansiveSum(xs: seq<int16>, ys: seq<int16>)
    requires |xs| == |ys|
    ensures Abs(SatSum(xs) - SatSum(ys)) <= Distance(xs, ys)
  {
    if xs != [] {
      NonexpansiveSum(xs[..|xs| - 1], ys[..|ys| - 1]);
    }
  }

  // ----- what a listener hears -------------------------------------------------------------------

  datatype Speaker = Speaker(slot: nat, pcm: Pcm)

  function SampleAt(s: Speaker, j: nat): int16 {
    if j < |s.pcm| then s.pcm[j] else 0
  }

  // The samples at position `j` of everyone but the listener.
  function Heard(speakers: seq<Speaker>, listener: nat, j: nat): seq<int16> {
    if speakers == [] then []
    else
      var last := speakers[|speakers| - 1];
      Heard(speakers[..|speakers| - 1], listener, j) + (if last.slot == listener then [] else [SampleAt(last, j)])
  }

  lemma {:induction false} HeardCount(speakers: seq<Speaker>, listener: nat, j: nat, k: nat)
    ensures |Heard(speakers, listener, j)| == |Heard(speakers, listener, k)|
  {
    if speakers != [] {
      HeardCount(speakers[..|speakers| - 1], listener, j, k);
    }
  }

  // One sample of the listener's mix.
  function MixAt(speakers: seq<Speaker>, listener: nat, j: nat): int {
    var xs := Heard(speakers, listener, j);
    if |xs| > 1 then TruncDiv(SatSum(xs), |xs|) else SatSum(xs)
  }

  function Accumulated(speakers: seq<Speaker>, listener: nat, j: nat): int16 {
    SatSum(Heard(speakers, listener, j))
  }

  lemma AccumulatedNext(speakers: seq<Speaker>, s: Speaker, listener: nat, j: nat)
    ensures var h := Heard(speakers + [s], listener, j);
            |h| == |Heard(speakers, listener, j)| + (if s.slot == listener then 0 else 1)
    ensures Accumulated(speakers + [s], listener, j) ==
            if s.slot == listener then Accumulated(speakers, listener, j)
            else ClampAdd(Accumulated(speakers, listener, j), SampleAt(s, j))
  {
    assert (speakers + [s])[..|speakers|] == speakers;
    var h := Heard(speakers, listener, j);
    assert h + [] == h && (h + [SampleAt(s, j)])[..|h|] == h;
  }

  // Adds one speaker's samples to the mix, in place.
  method AddSpeaker(mixed: array<int16>, pcm: Pcm)
    requires mixed.Length == FRAME
    modifies mixed
    ensures forall j :: 0 <= j < FRAME ==> mixed[j] == ClampAdd(old(mixed[j]), if j < |pcm| then pcm[j] else 0)
  {
    for j := 0 to |pcm|
      invariant forall i :: 0 <= i < j ==> mixed[i] == ClampAdd(old(mixed[i]), pcm[i])
      invariant forall i :: j <= i < FRAME ==> mixed[i] == old(mixed[i])
    {
      mixed[j] := ClampAdd(mixed[j], pcm[j]);
    }
  }

  method Normalize(mixed: array<int16>, n: nat)
    requires mixed.Length == FRAME && n > 1
    modifies mixed
    ensures forall j :: 0 <= j < FRAME ==> mixed[j] == TruncDiv(old(mixed[j]), n)
  {
    for j := 0 to FRAME
      invariant forall i :: 0 <= i < j ==> mixed[i] == TruncDiv(old(mixed[i]), n)
      invariant forall i :: j <= i < FRAME ==> mixed[i] == old(mixed[i])
    {
      Shrinks(mixed[j], n);
      mixed[j] := TruncDiv(mixed[j], n);
    }
  }

  lemma Shrinks(x: int16, n: nat)
    requires n > 1
    ensures -32768 <= TruncDiv(x, n) <= 32767 && Abs(TruncDiv(x, n)) <= 16384
  {
    TruncDivTowardsZero(x, n);
    var q := Abs(TruncDiv(x, n));
    AtMostHalf(q, n, Abs(x));
  }

  lemma AtMostHalf(q: nat, n: nat, a: nat)
    requires n > 1 && q * n <= a
    ensures 2 * q <= a
  {
    assert q * n == 2 * q + q * (n - 2);
  }

  // The frame sent to one listener.
  method Mix(speakers: seq<Speaker>, listener: nat) returns (mixed: array<int16>)
    ensures mixed.Length == 320 && fresh(mixed)
    ensures forall j :: 0 <= j < 320 ==> mixed[j] == MixAt(speakers, listener, j)
  {
    mixed := new int16[FRAME](_ => 0);
    var n := 0;
    for s := 0 to |speakers|
      invariant forall j :: 0 <= j < FRAME ==> mixed[j] == Accumulated(speakers[..s], listener, j)
      invariant n == |Heard(speakers[..s], listener, 0)|
    {
      assert speakers[..s + 1] == speakers[..s] + [speakers[s]];
      forall j: nat
        ensures Accumulated(speakers[..s + 1], listener, j) ==
                if speakers[s].slot == listener then Accumulated(speakers[..s], listener, j)
                else ClampAdd(Accumulated(speakers[..s], listener, j), SampleAt(speakers[s], j))
      {
        AccumulatedNext(speakers[..s], speakers[s], listener, j);
      }
      AccumulatedNext(speakers[..s], speakers[s], listener, 0);
      if speakers[s].slot != listener {
        AddSpeaker(mixed, speakers[s].pcm);
        n := n + 1;
      }
    }
    assert speakers[..|speakers|] == speakers;
    forall j | 0 <= j < FRAME
      ensures |Heard(speakers, listener, j)| == n
    {
      HeardCount(speakers, listener, 0, j);
    }
    if n > 1 {
      Normalize(mixed, n);
    }
  }

  // With n >= 2 speakers the mix stays within an n-th of the range.
  lemma MixWithinShare(speakers: seq<Speaker>, listener: nat, j: nat)
    requires |Heard(speakers, listener, j)| >= 2
    ensures Abs(MixAt(speakers, listener, j)) * |Heard(speakers, listener, j)| <= 32768
  {
    assert Abs(Accumulated(speakers, listener, j)) <= 32768;
    TruncDivTowardsZero(Accumulated(speakers, listener, j), |Heard(speakers, listener, j)|);
  }

  // ----- mix-minus -----------------------------------------------------------------------------------

  datatype Participant = Participant(slot: SlotId, muted: bool, active: bool)

  type SlotId = n: nat | n < 50
  type Buffers = b: seq<Jitter.Buffer> | |b| == 50 witness seq(50, _ => Jitter.Buffer([], 0, false))

  // Two payload bytes, low byte first, as a signed number.
  function Decode(lo: Jitter.byte, hi: Jitter.byte): int16 {
    if hi < 0x80 then hi * 0x100 + lo else hi * 0x100 + lo - 0x1_0000
  }

  function PcmOf(payload: seq<Jitter.byte>): Pcm {
    var n := if |payload| / 2 > 320 then 320 else |payload| / 2;
    seq(n, i requires 0 <= i < n => Decode(payload[2 * i], payload[2 * i + 1]))
  }

  predicate Speaks(p: Participant) {
    !p.muted && p.active
  }

  // One participant's turn: what a pop of its jitter buffer yields.
  function Turn(p: Participant, b: Buffers): (seq<Speaker>, Buffers) {
    if !Speaks(p) then ([], b)
    else
      var popped := Jitter.Popped(b[p.slot]);
      (if popped.Some? then [Speaker(p.slot, PcmOf(popped.value.payload))] else [],
       b[p.slot := Jitter.AfterPop(b[p.slot])])
  }

  // What the participants of a room say in one tick, and the jitter buffers after it.
  function Collect(ps: seq<Participant>, b: Buffers): (seq<Speaker>, Buffers) {
    if ps == [] then ([], b)
    else
      var (speakers, b1) := Collect(ps[..|ps| - 1], b);
      var (said, b2) := Turn(ps[|ps| - 1], b1);
      (speakers + said, b2)
  }

  method CollectSpeakers(ps: seq<Participant>, b: Buffers) returns (speakers: seq<Speaker>, after: Buffers)
    ensures (speakers, after) == Collect(ps, b)
  {
    speakers, after := [], b;
    for i := 0 to |ps|
      invariant (speakers, after) == Collect(ps[..i], b)
    {
      ghost var told := ps[..i + 1];
      assert told[..|told| - 1] == ps[..i] && told[|told| - 1] == ps[i];
      assert speakers + [] == speakers;
      if !ps[i].muted && ps[i].active {
        var jb := after[ps[i].slot];
        if Jitter.Popped(jb).Some? {
          speakers := speakers + [Speaker(ps[i].slot, PcmOf(Jitter.Popped(jb).value.payload))];
        }
        after := after[ps[i].slot := Jitter.AfterPop(jb)];
      }
    }
    assert ps[..|ps|] == ps;
  }

  // The participants other than the listener.
  function Rest(ps: seq<Participant>, listener: nat): seq<Participant> {
    if ps == [] then []
    else Rest(ps[..|ps| - 1], listener) + (if ps[|ps| - 1].slot == listener then [] else [ps[|ps| - 1]])
  }

  ghost predicate AgreeOff(b: Buffers, c: Buffers, listener: nat) {
    forall s :: 0 <= s < MAX_CLIENTS && s != listener ==> b[s] == c[s]
  }

  lemma {:induction false} HeardConcat(a: seq<Speaker>, b: seq<Speaker>, listener: nat, j: nat)
    ensures Heard(a + b, listener, j) == Heard(a, listener, j) + Heard(b, listener, j)
  {
    if b == [] {
      assert a + b == a;
    } else {
      assert (a + b)[..|a + b| - 1] == a + b[..|b| - 1];
      HeardConcat(a, b[..|b| - 1], listener, j);
    }
  }

  lemma OwnTurn(p: Participant, b: Buffers, listener: nat, j: nat)
    requires p.slot == listener
    ensures Heard(Turn(p, b).0, listener, j) == [] && AgreeOff(b, Turn(p, b).1, listener)
  {
    var said := Turn(p, b).0;
    assert said != [] ==> said[..0] == [] && said[0].slot == listener;
  }

  lemma OtherTurn(p: Participant, b: Buffers, c: Buffers, listener: nat)
    requires p.slot != listener && AgreeOff(b, c, listener)
    ensures Turn(p, b).0 == Turn(p, c).0 && AgreeOff(Turn(p, b).1, Turn(p, c).1, listener)
  {
  }

  // Leaving the listener's own entries out, and changing its buffer, changes nothing it hears.
  lemma {:induction false} OwnPartIsIgnored(ps: seq<Participant>, b: Buffers, c: Buffers, listener: nat, j: nat)
    requires AgreeOff(b, c, listener)
    ensures Heard(Collect(ps, b).0, listener, j) == Heard(Collect(Rest(ps, listener), c).0, listener, j)
    ensures AgreeOff(Collect(ps, b).1, Collect(Rest(ps, listener), c).1, listener)
  {
    if ps != [] {
      var init, p := ps[..|ps| - 1], ps[|ps| - 1];
      OwnPartIsIgnored(init, b, c, listener, j);
      var (s1, b1) := Collect(init, b);
      var (s2, c1) := Collect(Rest(init, listener), c);
      HeardConcat(s1, Turn(p, b1).0, listener, j);
      if p.slot == listener {
        OwnTurn(p, b1, listener, j);
        assert Rest(ps, listener) == Rest(init, listener);
      } else {
        OtherTurn(p, b1, c1, listener);
        HeardConcat(s2, Turn(p, c1).0, listener, j);
        assert Rest(ps, listener)[..|Rest(init, listener)|] == Rest(init, listener);
      }
    }
  }

  /**
   Mix-minus: two rounds that differ only in what the listener contributed (whether it took
   part, was muted, or what its jitter buffer held) give it the same samples.
   */
  lemma NonInterference(ps: seq<Participant>, qs: seq<Participant>, b: Buffers, c: Buffers, listener: nat, j: nat)
    requires Rest(ps, listener) == Rest(qs, listener) && AgreeOff(b, c, listener)
    ensures MixAt(Collect(ps, b).0, listener, j) == MixAt(Collect(qs, c).0, listener, j)
  {
    OwnPartIsIgnored(ps, b, b, listener, j);
    OwnPartIsIgnored(qs, c, b, listener, j);
  }
}
