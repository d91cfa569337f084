/**
 The database over the whole life of its files: runs of writes that each end in a crash, and
 recoveries that may themselves be cut short any number of times.
 */
module WalEpochs {
  import opened Common
  import opened CText
  import opened RoomRecord
  import opened Wal
  import opened WalCrash

  // ----- recovery, interrupted again and again ----------------------------------------------

  // The file after attempts at recovery that stopped after so many restores each.
  function Attempts(f: RoomFile, rs: seq<Restore>, stops: seq<nat>): RoomFile
    requires forall i :: 0 <= i < |stops| ==> stops[i] <= |rs|
  {
    if stops == [] then f
    else ApplyAll(Attempts(f, rs, stops[..|stops| - 1]), rs[..stops[|stops| - 1]])
  }

  lemma {:induction false} AttemptsDoNotMatter(f: RoomFile, rs: seq<Restore>, stops: seq<nat>)
    requires forall i :: 0 <= i < |stops| ==> stops[i] <= |rs|
    ensures ApplyAll(Attempts(f, rs, stops), rs) == ApplyAll(f, rs)
  {
    if stops != [] {
      var init := stops[..|stops| - 1];
      AttemptsDoNotMatter(f, rs, init);
      ReplayAfterPrefix(Attempts(f, rs, init), rs, stops[|stops| - 1]);
    }
  }

  // ----- one epoch ------------------------------------------------------------------------------

  /**
   From one recovery to the next: writes that commit, one more that dies with `k` of its lines
   logged and leaves the room file as `image`, and attempts at recovery that are cut short.
   */
  datatype Epoch = Epoch(ws: seq<Write>, w: Write, k: nat, image: RoomFile, stops: seq<nat>)

  function Committed(e: Epoch): seq<Write> {
    if e.k == 4 then e.ws + [e.w] else e.ws
  }

  ghost predicate Possible(f: RoomFile, e: Epoch) {
    && SafeWrites(e.ws) && Safe(e.w.rec) && e.k <= 4
    && CrashImage(f, e.ws, e.w, e.k, e.image)
    && (forall i :: 0 <= i < |e.image| && i != e.w.id ==> Safe(e.image[i]))
    && (forall i :: 0 <= i < |e.stops| ==> e.stops[i] <= |RestoresOf(CrashText(f, e.ws, e.w, e.k))|)
  }

  // What the log can cope with.
  ghost predicate WithinLimits(f: RoomFile, e: Epoch) {
    Copes(|e.ws|, PriorOf(f, e.ws, e.w), e.k)
  }

  // The room file once recovery is through.
  ghost function Recovered(f: RoomFile, e: Epoch): RoomFile
    requires Possible(f, e)
  {
    var rs := RestoresOf(CrashText(f, e.ws, e.w, e.k));
    ApplyAll(Attempts(e.image, rs, e.stops), rs)
  }

  lemma RecoveredOnce(f: RoomFile, e: Epoch)
    requires SafeFile(f) && Possible(f, e)
    ensures Readable(CrashText(f, e.ws, e.w, e.k))
    ensures Recovered(f, e) == Recover(e.image, CrashText(f, e.ws, e.w, e.k))
  {
    CrashLines(f, e.ws, e.w, e.k);
    AttemptsDoNotMatter(e.image, RestoresOf(CrashText(f, e.ws, e.w, e.k)), e.stops);
  }

  lemma EpochKeepsSafe(f: RoomFile, e: Epoch)
    requires SafeFile(f) && Possible(f, e) && WithinLimits(f, e)
    ensures SafeFile(Recovered(f, e))
  {
    RecoveredOnce(f, e);
    RunFileSafe(f, e.ws);
    if |e.ws| <= 127 {
      RecoverInWindow(f, e.ws, e.w, e.k, e.image);
    } else {
      RecoverBeyondWindow(f, e.ws, e.w, e.k, e.image);
    }
    if e.k == 4 {
      PutSafe(RunFile(f, e.ws), e.w.id, e.w.rec);
    } else if |e.ws| <= 127 && e.k >= 2 {
      PutSafe(e.image, e.w.id, Undone(PriorOf(f, e.ws, e.w)));
    }
  }

  lemma EpochAtomic(f: RoomFile, e: Epoch, id: nat)
    requires SafeFile(f) && Possible(f, e) && WithinLimits(f, e)
    ensures ReadRoom(Recovered(f, e), id) == LastCommitted(f, Committed(e), id)
  {
    RecoveredOnce(f, e);
    CrashAtomicity(f, e.ws, e.w, e.k, e.image, id);
  }

  // ----- all epochs ------------------------------------------------------------------------------

  ghost predicate LegalLife(f: RoomFile, es: seq<Epoch>)
    decreases |es|
  {
    es == [] || (Possible(f, es[0]) && WithinLimits(f, es[0]) && LegalLife(Recovered(f, es[0]), es[1..]))
  }

  ghost function LifeFile(f: RoomFile, es: seq<Epoch>): RoomFile
    requires LegalLife(f, es)
    decreases |es|
  {
    if es == [] then f else LifeFile(Recovered(f, es[0]), es[1..])
  }

  function AllCommitted(es: seq<Epoch>): seq<Write> {
    if es == [] then [] else Committed(es[0]) + AllCommitted(es[1..])
  }

  // A file that reads as a run left it may stand for that run.
  lemma {:induction false} ContinueRun(f: RoomFile, a: seq<Write>, g: RoomFile, b: seq<Write>, id: nat)
    requires ReadRoom(g, id) == LastCommitted(f, a, id)
    ensures LastCommitted(g, b, id) == LastCommitted(f, a + b, id)
  {
    if b == [] {
      assert a + b == a;
    } else {
      var all := a + b;
      assert all[..|all| - 1] == a + b[..|b| - 1] && all[|all| - 1] == b[|b| - 1];
      ContinueRun(f, a, g, b[..|b| - 1], id);
    }
  }

  /**
   Durability and atomicity over any number of crashes and interrupted recoveries: every record
   reads as the last write of it that committed, in whichever epoch that was.
   */
  lemma {:induction false} LifetimeAtomicity(f: RoomFile, es: seq<Epoch>, id: nat)
    requires SafeFile(f) && LegalLife(f, es)
    ensures ReadRoom(LifeFile(f, es), id) == LastCommitted(f, AllCommitted(es), id)
    decreases |es|
  {
    if es != [] {
      var g := Recovered(f, es[0]);
      EpochKeepsSafe(f, es[0]);
      EpochAtomic(f, es[0], id);
      LifetimeAtomicity(g, es[1..], id);
      ContinueRun(f, Committed(es[0]), g, AllCommitted(es[1..]), id);
    }
  }
}
