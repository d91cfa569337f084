/**
 The order of the speakers: the saturating sum is taken in the order of the participant list, and
 this says for which samples that order makes a difference.
 */
module MixerOrder {
  import opened Common
  import opened Mixer

  // ----- the order of the speakers -----------------------------------------------------------------------

  lemma {:induction false} SumTakeOut(xs: seq<int16>, i: nat)
    requires i < |xs|
    ensures Sum(xs) == Sum(xs[..i] + xs[i + 1..]) + xs[i]
    ensures Loudness(xs) == Loudness(xs[..i] + xs[i + 1..]) + Abs(xs[i])
  {
    var ys := xs[..i] + xs[i + 1..];
    if i == |xs| - 1 {
      assert ys == xs[..i];
    } else {
      var init := xs[..|xs| - 1];
      SumTakeOut(init, i);
      assert ys[..|ys| - 1] == init[..i] + init[i + 1..];
    }
  }

  // Where the last element of one arrangement stands in another, and what is left without it.
  lemma LastElsewhere<T>(xs: seq<T>, ys: seq<T>) returns (i: nat)
    requires xs != [] && multiset(xs) == multiset(ys)
    ensures i < |ys| && ys[i] == xs[|xs| - 1]
    ensures multiset(xs[..|xs| - 1]) == multiset(ys[..i] + ys[i + 1..])
  {
    var x := xs[|xs| - 1];
    assert x in multiset(xs);
    i :| 0 <= i < |ys| && ys[i] == x;
    TakenOut(ys, i);
    TakenOut(xs, |xs| - 1);
    assert xs[..|xs| - 1] + xs[|xs|..] == xs[..|xs| - 1];
  }

  lemma NothingRearranged<T>(ys: seq<T>)
    requires multiset(ys) == multiset{}
    ensures ys == []
  {
    assert |multiset(ys)| == |ys|;
  }

  lemma {:induction false} SumOfRearranged(xs: seq<int16>, ys: seq<int16>)
    requires multiset(xs) == multiset(ys)
    ensures Sum(xs) == Sum(ys) && Loudness(xs) == Loudness(ys)
  {
    if xs == [] {
      NothingRearranged(ys);
    } else {
      var i := LastElsewhere(xs, ys);
      SumOfRearranged(xs[..|xs| - 1], ys[..i] + ys[i + 1..]);
      SumTakeOut(ys, i);
    }
  }

  lemma HeardTakeOut(speakers: seq<Speaker>, i: nat, listener: nat, j: nat)
    requires i < |speakers|
    ensures multiset(Heard(speakers, listener, j)) ==
            multiset(Heard(speakers[..i] + speakers[i + 1..], listener, j)) +
            multiset(Heard([speakers[i]], listener, j))
  {
    var a, b := speakers[..i], speakers[i + 1..];
    assert speakers == a + ([speakers[i]] + b);
    HeardConcat(a, [speakers[i]] + b, listener, j);
    HeardConcat([speakers[i]], b, listener, j);
    HeardConcat(a, b, listener, j);
  }

  lemma {:induction false} HeardOfRearranged(a: seq<Speaker>, b: seq<Speaker>, listener: nat, j: nat)
    requires multiset(a) == multiset(b)
    ensures multiset(Heard(a, listener, j)) == multiset(Heard(b, listener, j))
  {
    if a == [] {
      NothingRearranged(b);
    } else {
      var n := |a| - 1;
      var i := LastElsewhere(a, b);
      HeardOfRearranged(a[..n], b[..i] + b[i + 1..], listener, j);
      HeardTakeOut(b, i, listener, j);
      HeardTakeOut(a, n, listener, j);
      assert a[..n] + a[n + 1..] == a[..n];
    }
  }

  /**
   Speakers quiet enough together may come in any order: the mix is their exact sum, divided
   by their number where there are several.
   */
  lemma QuietInAnyOrder(a: seq<Speaker>, b: seq<Speaker>, listener: nat, j: nat)
    requires multiset(a) == multiset(b) && Loudness(Heard(a, listener, j)) <= 32767
    ensures MixAt(a, listener, j) == MixAt(b, listener, j)
    ensures var xs := Heard(a, listener, j);
            MixAt(a, listener, j) == if |xs| > 1 then TruncDiv(Sum(xs), |xs|) else Sum(xs)
  {
    var xs, ys := Heard(a, listener, j), Heard(b, listener, j);
    HeardOfRearranged(a, b, listener, j);
    assert |multiset(xs)| == |xs| && |multiset(ys)| == |ys|;
    SumOfRearranged(xs, ys);
    QuietSum(xs);
    QuietSum(ys);
  }

  // ----- when the order matters -----------------------------------------------------------------

  // The samples that are positive, or those that are not.
  function Side(xs: seq<int16>, up: bool): seq<int16> {
    if xs == [] then []
    else
      var x := xs[|xs| - 1];
      Side(xs[..|xs| - 1], up) + if (x > 0) == up then [x] else []
  }

  // How far the samples reach up, and how far down.
  function Reach(xs: seq<int16>, up: bool): nat {
    Abs(Sum(Side(xs, up)))
  }

  lemma SumAppend(xs: seq<int16>, x: int16)
    ensures Sum(xs + [x]) == Sum(xs) + x
  {
    assert (xs + [x])[..|xs|] == xs;
  }

  lemma {:induction false} SideSigns(xs: seq<int16>, up: bool)
    ensures forall i :: 0 <= i < |Side(xs, up)| ==> (Side(xs, up)[i] > 0) == up
  {
    if xs != [] {
      SideSigns(xs[..|xs| - 1], up);
    }
  }

  lemma {:induction false} SidesTogether(xs: seq<int16>)
    ensures multiset(Side(xs, true)) + multiset(Side(xs, false)) == multiset(xs)
  {
    if xs != [] {
      var init, x := xs[..|xs| - 1], xs[|xs| - 1];
      SidesTogether(init);
      SideAppend(Side(init, true), Side(init, false), init, x);
      assert xs == init + [x];
    }
  }

  lemma SideAppend(p: seq<int16>, n: seq<int16>, xs: seq<int16>, x: int16)
    requires multiset(p) + multiset(n) == multiset(xs)
    ensures multiset(p + [x]) + multiset(n + []) == multiset(xs + [x])
    ensures multiset(p + []) + multiset(n + [x]) == multiset(xs + [x])
  {
    assert p + [] == p && n + [] == n;
  }

  // Adding samples of one sign to a sum clips at one end at most.
  lemma {:induction false} OneSidedTail(a: seq<int16>, b: seq<int16>, up: bool)
    requires forall i :: 0 <= i < |b| ==> (b[i] > 0) == up
    ensures SatSum(a + b) == Clamp(SatSum(a) + Sum(b))
    ensures if up then Sum(b) >= |b| else Sum(b) <= 0
  {
    if b == [] {
      assert a + b == a;
    } else {
      OneSidedTail(a, b[..|b| - 1], up);
      assert (a + b)[..|a + b| - 1] == a + b[..|b| - 1];
    }
  }

  lemma SideSums(xs: seq<int16>)
    ensures Sum(Side(xs, true)) == Reach(xs, true) && Sum(Side(xs, false)) == -(Reach(xs, false) as int)
  {
    SideSigns(xs, true);
    SideSigns(xs, false);
    OneSidedTail([], Side(xs, true), true);
    OneSidedTail([], Side(xs, false), false);
  }

  lemma ReachNext(xs: seq<int16>, up: bool)
    requires xs != []
    ensures var x := xs[|xs| - 1];
            Reach(xs, up) == Reach(xs[..|xs| - 1], up) + if (x > 0) == up then Abs(x) else 0
  {
    var init, x := xs[..|xs| - 1], xs[|xs| - 1];
    SideSums(init);
    SumAppend(Side(init, up), x);
    assert Side(init, up) + [] == Side(init, up);
  }

  lemma {:induction false} SumIsDifference(xs: seq<int16>)
    ensures Sum(xs) == Reach(xs, true) - Reach(xs, false)
    ensures Loudness(xs) == Reach(xs, true) + Reach(xs, false)
  {
    if xs != [] {
      SumIsDifference(xs[..|xs| - 1]);
      ReachNext(xs, true);
      ReachNext(xs, false);
    }
  }

  // Samples that fit the range on either side are never clipped on the way.
  lemma {:induction false} NeverClipped(xs: seq<int16>)
    requires Reach(xs, true) <= 32767 && Reach(xs, false) <= 32768
    ensures SatSum(xs) == Sum(xs)
  {
    if xs != [] {
      ReachNext(xs, true);
      ReachNext(xs, false);
      NeverClipped(xs[..|xs| - 1]);
      SumIsDifference(xs);
    }
  }

  // No sample on this side, zeros aside.
  predicate NoneOn(xs: seq<int16>, up: bool) {
    forall i :: 0 <= i < |xs| ==> if up then xs[i] <= 0 else xs[i] >= 0
  }

  lemma NoneOnNext(xs: seq<int16>, x: int16, up: bool)
    requires NoneOn(xs, up) && if up then x <= 0 else x >= 0
    ensures NoneOn(xs + [x], up)
  {
  }

  lemma {:induction false} OneSided(xs: seq<int16>, up: bool)
    requires Reach(xs, up) == 0
    ensures NoneOn(xs, up)
  {
    if xs != [] {
      var init, x := xs[..|xs| - 1], xs[|xs| - 1];
      ReachNext(xs, up);
      OneSided(init, up);
      NoneOnNext(init, x, up);
      assert xs == init + [x];
    }
  }

  lemma ReachOfRearranged(xs: seq<int16>, ys: seq<int16>)
    requires multiset(xs) == multiset(ys)
    ensures Reach(xs, true) == Reach(ys, true) && Reach(xs, false) == Reach(ys, false)
  {
    SumOfRearranged(xs, ys);
    SumIsDifference(xs);
    SumIsDifference(ys);
  }

  // The positive samples first, or last.
  function Sorted(xs: seq<int16>, up: bool): seq<int16> {
    Side(xs, up) + Side(xs, !up)
  }

  lemma SortedIsArrangement(xs: seq<int16>, up: bool)
    ensures multiset(Sorted(xs, up)) == multiset(xs)
  {
    SidesTogether(xs);
  }

  lemma TwoSidedSum(p: seq<int16>, n: seq<int16>, up: bool)
    requires forall i :: 0 <= i < |p| ==> (p[i] > 0) == up
    requires forall i :: 0 <= i < |n| ==> (n[i] > 0) == !up
    ensures SatSum(p + n) == Clamp(Clamp(Sum(p)) + Sum(n))
  {
    OneSidedTail([], p, up);
    assert [] + p == p;
    OneSidedTail(p, n, !up);
  }

  lemma SortedSum(xs: seq<int16>, up: bool)
    ensures SatSum(Sorted(xs, up)) == Clamp(Clamp(Sum(Side(xs, up))) + Sum(Side(xs, !up)))
  {
    SideSigns(xs, up);
    SideSigns(xs, !up);
    TwoSidedSum(Side(xs, up), Side(xs, !up), up);
  }

  // The samples share a sign, or those of each sign fit the range on their own.
  predicate Unclippable(xs: seq<int16>) {
    Reach(xs, true) == 0 || Reach(xs, false) == 0 || (Reach(xs, true) <= 32767 && Reach(xs, false) <= 32768)
  }

  lemma ArrangementsAgree(xs: seq<int16>, ys: seq<int16>)
    requires multiset(xs) == multiset(ys) && Unclippable(xs)
    ensures SatSum(xs) == SatSum(ys)
  {
    ReachOfRearranged(xs, ys);
    SumOfRearranged(xs, ys);
    if Reach(xs, true) == 0 || Reach(xs, false) == 0 {
      var up := Reach(xs, true) == 0;
      OneSided(xs, up);
      OneSided(ys, up);
      SameSignSum(xs);
      SameSignSum(ys);
    } else {
      NeverClipped(xs);
      NeverClipped(ys);
    }
  }

  lemma SortingDecides(xs: seq<int16>)
    requires !Unclippable(xs)
    ensures SatSum(Sorted(xs, true)) != SatSum(Sorted(xs, false))
  {
    SortedSum(xs, true);
    SortedSum(xs, false);
    SideSums(xs);
  }

  // Whatever order the speakers come in, the sum is the same.
  ghost predicate OrderIsIrrelevant(xs: seq<int16>) {
    forall ys: seq<int16> :: multiset(ys) == multiset(xs) ==> SatSum(ys) == SatSum(xs)
  }

  lemma OrderIsIrrelevantFor(xs: seq<int16>, ys: seq<int16>)
    requires OrderIsIrrelevant(xs) && multiset(ys) == multiset(xs)
    ensures SatSum(ys) == SatSum(xs)
  {
  }

  /**
   The order of the speakers is irrelevant if and only if their samples share a sign, or the
   positive ones and the negative ones each fit the range on their own.
   */
  lemma OrderIsIrrelevantIff(xs: seq<int16>)
    ensures OrderIsIrrelevant(xs) <==> Unclippable(xs)
  {
    if Unclippable(xs) {
      forall ys: seq<int16> | multiset(ys) == multiset(xs)
        ensures SatSum(ys) == SatSum(xs)
      {
        ArrangementsAgree(xs, ys);
      }
    } else if OrderIsIrrelevant(xs) {
      SortedIsArrangement(xs, true);
      SortedIsArrangement(xs, false);
      OrderIsIrrelevantFor(xs, Sorted(xs, true));
      OrderIsIrrelevantFor(xs, Sorted(xs, false));
      SortingDecides(xs);
      assert false;
    }
  }

  // Two orders of the same three samples, and their sums.
  lemma OrderMatters()
    ensures multiset([20000, 20000, -20000]) == multiset([20000, -20000, 20000])
    ensures SatSum([20000, 20000, -20000]) == 12767
    ensures SatSum([20000, -20000, 20000]) == 20000
  {
    var a, b := [20000, 20000, -20000], [20000, -20000, 20000];
    assert a[..2] == [20000, 20000] && [20000, 20000][..1] == [20000] && [20000][..0] == [];
    assert b[..2] == [20000, -20000] && [20000, -20000][..1] == [20000];
  }
}
