/**
 Where the log protocol falls short: undoing a failed write, and a crash during that undo.
 */
module WalRollback {
  import opened Common
  import opened CText
  import opened RoomRecord
  import opened Wal
  import opened WalCrash

  // `wal_rollback` searches from the start of the log, so it finds the first transaction
  // on the record, not the one that failed.
  function FirstUndo(lines: seq<Line>, id: RoomId): Option<Record> {
    if lines == [] then None
    else if lines[0] == Begin(id) then UndoRecord(lines[1..])
    else FirstUndo(lines[1..], id)
  }

  function RollbackFile(image: RoomFile, text: string, id: RoomId): RoomFile {
    var undo := FirstUndo(ClassifyAll(Window(text)), id);
    if undo.Some? then Put(image, id, undo.value) else image
  }

  // The log after a write whose data came out short.
  function FailedTexts(prior: Option<Record>, w: Write): seq<string> {
    TxnTexts(prior, w)[..3] + [RollbackText(w.id)]
  }

  function FailedText(f0: RoomFile, ws: seq<Write>, w: Write): string {
    Unlines(RunTexts(f0, ws) + FailedTexts(PriorOf(f0, ws, w), w))
  }

  function FailedBlock(id: RoomId, undo: Record): seq<Line> {
    [Begin(id), Old(undo), Other, Rollback(id)]
  }

  function Head(id: RoomId, undo: Record): seq<Line> {
    [Begin(id), Old(undo), Other]
  }

  lemma HeadReads(prior: Option<Record>, w: Write)
    requires Safe(w.rec) && (prior.Some? ==> Safe(prior.value))
    ensures Reads(TxnTexts(prior, w)[..3], Head(w.id, Undone(prior)))
  {
    ReadTxn(prior, w);
    ReadsPrefix(TxnTexts(prior, w), TxnLines(prior, w), 3);
    assert TxnLines(prior, w)[..3] == Head(w.id, Undone(prior));
  }

  lemma FailedTxnReads(prior: Option<Record>, w: Write)
    requires Safe(w.rec) && (prior.Some? ==> Safe(prior.value))
    ensures Reads(FailedTexts(prior, w), FailedBlock(w.id, Undone(prior)))
  {
    HeadReads(prior, w);
    ReadRollback(w.id);
    ReadsOne(RollbackText(w.id), Rollback(w.id));
    ReadsConcat(TxnTexts(prior, w)[..3], Head(w.id, Undone(prior)), [RollbackText(w.id)], [Rollback(w.id)]);
    assert Head(w.id, Undone(prior)) + [Rollback(w.id)] == FailedBlock(w.id, Undone(prior));
  }

  lemma FailedReads(f0: RoomFile, ws: seq<Write>, w: Write)
    requires SafeFile(f0) && SafeWrites(ws) && Safe(w.rec)
    ensures Reads(RunTexts(f0, ws) + FailedTexts(PriorOf(f0, ws, w), w),
                  RunLines(f0, ws) + FailedBlock(w.id, Undone(PriorOf(f0, ws, w))))
  {
    var prior := PriorOf(f0, ws, w);
    RunFileSafe(f0, ws);
    ReadRun(f0, ws);
    FailedTxnReads(prior, w);
    ReadsConcat(RunTexts(f0, ws), RunLines(f0, ws), FailedTexts(prior, w), FailedBlock(w.id, Undone(prior)));
  }

  lemma FailedLines(f0: RoomFile, ws: seq<Write>, w: Write)
    requires SafeFile(f0) && SafeWrites(ws) && Safe(w.rec)
    ensures ClassifyAll(Window(FailedText(f0, ws, w))) ==
            Cut(RunLines(f0, ws) + FailedBlock(w.id, Undone(PriorOf(f0, ws, w))))
    ensures Readable(FailedText(f0, ws, w))
  {
    var prior := PriorOf(f0, ws, w);
    FailedReads(f0, ws, w);
    NothingUnreadable(f0, ws);
    WindowReads(RunTexts(f0, ws) + FailedTexts(prior, w), RunLines(f0, ws) + FailedBlock(w.id, Undone(prior)));
  }

  // ----- the first transaction on a record ------------------------------------------------

  predicate Wrote(ws: seq<Write>, id: RoomId) {
    ws != [] && (ws[|ws| - 1].id == id || Wrote(ws[..|ws| - 1], id))
  }

  // What the record held when the run first wrote it.
  function FirstPrior(f0: RoomFile, ws: seq<Write>, id: RoomId): Option<Record>
    requires Wrote(ws, id)
  {
    var init := ws[..|ws| - 1];
    if Wrote(init, id) then FirstPrior(f0, init, id) else ReadRaw(RunFile(f0, init), id)
  }

  lemma FirstUndoBlock(b: RoomId, undo: Record, tail: seq<Line>, id: RoomId)
    ensures FirstUndo(Block(b, undo) + tail, id) == if b == id then Some(undo) else FirstUndo(tail, id)
  {
    var o, c := Old(undo), Commit(b);
    assert (Block(b, undo) + tail)[1..] == [o, Other, c] + tail;
    assert ([o, Other, c] + tail)[1..] == [Other, c] + tail;
    assert ([Other, c] + tail)[1..] == [c] + tail;
    assert ([c] + tail)[1..] == tail;
    assert FirstUndo([c] + tail, id) == FirstUndo(tail, id);
    assert FirstUndo([Other, c] + tail, id) == FirstUndo(tail, id);
    assert FirstUndo([o, Other, c] + tail, id) == FirstUndo(tail, id);
  }

  // The first undo record for `id` in a log of completed transactions.
  function FirstIn(us: seq<Restore>, id: RoomId): Option<Record> {
    if us == [] then None
    else
      var r := FirstIn(us[..|us| - 1], id);
      if r.Some? then r
      else if us[|us| - 1].id == id then Some(us[|us| - 1].rec)
      else None
  }

  lemma {:induction false} FirstUndoOfBlocks(us: seq<Restore>, tail: seq<Line>, id: RoomId)
    ensures FirstUndo(Blocks(us) + tail, id) == if FirstIn(us, id).Some? then FirstIn(us, id) else FirstUndo(tail, id)
  {
    if us == [] {
      assert Blocks(us) + tail == tail;
    } else {
      var init, u := us[..|us| - 1], us[|us| - 1];
      FirstUndoBlock(u.id, u.rec, tail, id);
      FirstUndoOfBlocks(init, Block(u.id, u.rec) + tail, id);
      assert Blocks(us) + tail == Blocks(init) + (Block(u.id, u.rec) + tail);
    }
  }

  lemma {:induction false} FirstInRun(f0: RoomFile, ws: seq<Write>, id: RoomId)
    ensures FirstIn(UndoLog(f0, ws), id) == if Wrote(ws, id) then Some(Undone(FirstPrior(f0, ws, id))) else None
  {
    if ws != [] {
      var us, init := UndoLog(f0, ws), ws[..|ws| - 1];
      assert us[..|us| - 1] == UndoLog(f0, init);
      FirstInRun(f0, init, id);
    }
  }

  lemma FirstUndoOfRun(f0: RoomFile, ws: seq<Write>, tail: seq<Line>, id: RoomId)
    ensures FirstUndo(RunLines(f0, ws) + tail, id) ==
            if Wrote(ws, id) then Some(Undone(FirstPrior(f0, ws, id))) else FirstUndo(tail, id)
  {
    FirstUndoOfBlocks(UndoLog(f0, ws), tail, id);
    FirstInRun(f0, ws, id);
  }

  lemma {:induction false} UntouchedRecord(f0: RoomFile, ws: seq<Write>, id: RoomId)
    requires !Wrote(ws, id)
    ensures var raw := ReadRaw(RunFile(f0, ws), id);
            raw == ReadRaw(f0, id) || (ReadRaw(f0, id).None? && raw == Some(ZERO))
  {
    if ws != [] {
      UntouchedRecord(f0, ws[..|ws| - 1], id);
    }
  }

  lemma {:induction false} FirstPriorIsLogStart(f0: RoomFile, ws: seq<Write>, id: RoomId)
    requires Wrote(ws, id)
    ensures var p := FirstPrior(f0, ws, id);
            p == ReadRaw(f0, id) || (ReadRaw(f0, id).None? && p == Some(ZERO))
  {
    var init := ws[..|ws| - 1];
    if Wrote(init, id) {
      FirstPriorIsLogStart(f0, init, id);
    } else {
      UntouchedRecord(f0, init, id);
    }
  }

  lemma UndoneHole()
    ensures Visible(Undone(Some(ZERO))) == Visible(Undone(None)) == None
  {
    UndoneVisible(Some(ZERO));
    UndoneVisible(None);
  }

  // ----- what a rollback leaves --------------------------------------------------------------

  // The transaction that `wal_rollback` looks for is among the lines it reads.
  predicate Findable(ws: seq<Write>, id: RoomId) {
    |ws| <= 127 || Wrote(ws[..128], id)
  }

  // What the record reads as once its first OLD line in the log is put back.
  function LogStartValue(f0: RoomFile, id: RoomId): Option<Record> {
    Visible(Undone(ReadRaw(f0, id)))
  }

  lemma FirstUndoFailedBlock(id: RoomId, undo: Record)
    ensures FirstUndo(FailedBlock(id, undo), id) == Some(undo)
  {
    assert FailedBlock(id, undo)[1..] == [Old(undo), Other, Rollback(id)];
  }

  lemma PriorReadsAsLogStart(f0: RoomFile, prior: Option<Record>, id: RoomId)
    requires prior == ReadRaw(f0, id) || (ReadRaw(f0, id).None? && prior == Some(ZERO))
    ensures Visible(Undone(prior)) == LogStartValue(f0, id)
  {
    UndoneHole();
  }

  lemma FoundUndoInWindow(f0: RoomFile, ws: seq<Write>, w: Write)
    requires SafeFile(f0) && SafeWrites(ws) && Safe(w.rec) && |ws| <= 127
    ensures var undo := FirstUndo(ClassifyAll(Window(FailedText(f0, ws, w))), w.id);
            undo.Some? && Visible(undo.value) == LogStartValue(f0, w.id)
  {
    var prior := PriorOf(f0, ws, w);
    FailedLines(f0, ws, w);
    FirstUndoOfRun(f0, ws, FailedBlock(w.id, Undone(prior)), w.id);
    FirstUndoFailedBlock(w.id, Undone(prior));
    if Wrote(ws, w.id) {
      FirstPriorIsLogStart(f0, ws, w.id);
      PriorReadsAsLogStart(f0, FirstPrior(f0, ws, w.id), w.id);
    } else {
      UntouchedRecord(f0, ws, w.id);
      PriorReadsAsLogStart(f0, prior, w.id);
    }
  }

  lemma FoundUndoBeyondWindow(f0: RoomFile, ws: seq<Write>, w: Write)
    requires SafeFile(f0) && SafeWrites(ws) && Safe(w.rec) && |ws| >= 128
    ensures var undo := FirstUndo(ClassifyAll(Window(FailedText(f0, ws, w))), w.id);
            if Wrote(ws[..128], w.id) then undo.Some? && Visible(undo.value) == LogStartValue(f0, w.id) else undo.None?
  {
    var seen := ws[..128];
    FailedLines(f0, ws, w);
    CutLong(RunLines(f0, ws), FailedBlock(w.id, Undone(PriorOf(f0, ws, w))));
    RunLinesPrefix(f0, ws, 128);
    FirstUndoOfRun(f0, seen, [], w.id);
    assert RunLines(f0, seen) + [] == RunLines(f0, seen);
    if Wrote(seen, w.id) {
      FirstPriorIsLogStart(f0, seen, w.id);
      PriorReadsAsLogStart(f0, FirstPrior(f0, seen, w.id), w.id);
    }
  }

  lemma FoundUndo(f0: RoomFile, ws: seq<Write>, w: Write)
    requires SafeFile(f0) && SafeWrites(ws) && Safe(w.rec)
    ensures var undo := FirstUndo(ClassifyAll(Window(FailedText(f0, ws, w))), w.id);
            if Findable(ws, w.id) then undo.Some? && Visible(undo.value) == LogStartValue(f0, w.id) else undo.None?
  {
    if |ws| <= 127 {
      FoundUndoInWindow(f0, ws, w);
    } else {
      FoundUndoBeyondWindow(f0, ws, w);
    }
  }

  /**
   A failed write takes its record back to the value it had when the log was last emptied,
   and leaves every other record alone, whatever the short write left in the record.
   */
  lemma RollbackReturnsToLogStart(f0: RoomFile, ws: seq<Write>, w: Write, image: RoomFile, id: nat)
    requires SafeFile(f0) && SafeWrites(ws) && Safe(w.rec)
    requires CrashImage(f0, ws, w, 3, image) && Findable(ws, w.id)
    ensures ReadRoom(RollbackFile(image, FailedText(f0, ws, w), w.id), id) ==
            if id == w.id then LogStartValue(f0, w.id) else LastCommitted(f0, ws, id)
  {
    FoundUndo(f0, ws, w);
    RunReadsLastCommitted(f0, ws, id);
  }

  ghost predicate AlwaysRollsBack(f0: RoomFile, ws: seq<Write>, w: Write) {
    forall image: RoomFile, id: nat :: CrashImage(f0, ws, w, 3, image) ==>
      ReadRoom(RollbackFile(image, FailedText(f0, ws, w), w.id), id) == LastCommitted(f0, ws, id)
  }

  lemma AlwaysRollsBackAt(f0: RoomFile, ws: seq<Write>, w: Write, image: RoomFile, id: nat)
    requires AlwaysRollsBack(f0, ws, w) && CrashImage(f0, ws, w, 3, image)
    ensures ReadRoom(RollbackFile(image, FailedText(f0, ws, w), w.id), id) == LastCommitted(f0, ws, id)
  {
  }

  /**
   A failed write is undone, whatever it left behind, if and only if the search finds a
   transaction on the record and the record reads now as its first OLD line restores it.
   */
  lemma RollbackExact(f0: RoomFile, ws: seq<Write>, w: Write)
    requires SafeFile(f0) && SafeWrites(ws) && Safe(w.rec)
    ensures AlwaysRollsBack(f0, ws, w) <==>
            Findable(ws, w.id) && LastCommitted(f0, ws, w.id) == LogStartValue(f0, w.id)
  {
    var before := RunFile(f0, ws);
    RunReadsLastCommitted(f0, ws, w.id);
    if Findable(ws, w.id) {
      if LastCommitted(f0, ws, w.id) == LogStartValue(f0, w.id) {
        forall image: RoomFile, id: nat | CrashImage(f0, ws, w, 3, image)
          ensures ReadRoom(RollbackFile(image, FailedText(f0, ws, w), w.id), id) == LastCommitted(f0, ws, id)
        {
          RollbackReturnsToLogStart(f0, ws, w, image, id);
        }
      } else if AlwaysRollsBack(f0, ws, w) {
        RollbackReturnsToLogStart(f0, ws, w, before, w.id);
        AlwaysRollsBackAt(f0, ws, w, before, w.id);
      }
    } else if AlwaysRollsBack(f0, ws, w) {
      FoundUndo(f0, ws, w);
      AlwaysRollsBackAt(f0, ws, w, Put(before, w.id, Differing(ReadRoom(before, w.id))), w.id);
    }
  }

  lemma {:induction false} UnwrittenKeepsValue(f0: RoomFile, ws: seq<Write>, id: RoomId)
    requires !Wrote(ws, id)
    ensures LastCommitted(f0, ws, id) == ReadRoom(f0, id)
  {
    if ws != [] {
      UnwrittenKeepsValue(f0, ws[..|ws| - 1], id);
    }
  }

  /**
   What a caller can tell before the write: the first write of a record since the log was
   emptied is undone in every case if and only if the record it replaces survives its OLD line.
   */
  lemma FirstWriteRollsBackIff(f0: RoomFile, ws: seq<Write>, w: Write)
    requires SafeFile(f0) && SafeWrites(ws) && Safe(w.rec)
    requires |ws| <= 127 && !Wrote(ws, w.id)
    ensures AlwaysRollsBack(f0, ws, w) <==> Survives(ReadRaw(f0, w.id))
  {
    RollbackExact(f0, ws, w);
    UnwrittenKeepsValue(f0, ws, w.id);
    UndoneVisible(ReadRaw(f0, w.id));
  }

  /**
   The second write of a room is enough: rolling it back deletes the room, whatever the short
   write left, although its first write had committed.
   */
  lemma RollbackDeletesCommittedRoom(r: Record, r': Record, image: RoomFile)
    requires Safe(r) && r.isActive != 0 && Safe(r')
    requires CrashImage([], [Write(0, r)], Write(0, r'), 3, image)
    ensures LastCommitted([], [Write(0, r)], 0) == Some(r)
    ensures ReadRoom(RollbackFile(image, FailedText([], [Write(0, r)], Write(0, r')), 0), 0) == None
  {
    RollbackReturnsToLogStart([], [Write(0, r)], Write(0, r'), image, 0);
    UndoneHole();
  }

  // ----- a crash during the undo ---------------------------------------------------------------

  lemma FailedBlockIsComplete(id: RoomId, undo: Record)
    ensures Restores(FailedBlock(id, undo)) == []
  {
    var o, c := Old(undo), Rollback(id);
    assert FailedBlock(id, undo)[1..] == [o, Other, c];
    assert [o, Other, c][1..] == [Other, c] && [Other, c][1..] == [c] && [c][1..] == [];
    assert Completed([c], id);
    assert Completed([Other, c], id);
    assert Completed([o, Other, c], id);
    assert Restores([c]) == [];
    assert Restores([Other, c]) == [];
    assert Restores([o, Other, c]) == [];
  }

  /**
   ROLLBACK is logged before the undo is done. After a crash in between, recovery takes the
   transaction for finished and keeps whatever the short write left.
   */
  lemma CrashBeforeUndoIsKept(f0: RoomFile, ws: seq<Write>, w: Write, image: RoomFile)
    requires SafeFile(f0) && SafeWrites(ws) && Safe(w.rec)
    ensures Readable(FailedText(f0, ws, w))
    ensures Recover(image, FailedText(f0, ws, w)) == image
  {
    var block := FailedBlock(w.id, Undone(PriorOf(f0, ws, w)));
    FailedLines(f0, ws, w);
    if |ws| <= 127 {
      FailedBlockIsComplete(w.id, Undone(PriorOf(f0, ws, w)));
      RunIsComplete(f0, ws, block);
    } else {
      CutLong(RunLines(f0, ws), block);
      RunLinesPrefix(f0, ws, 128);
      RunIsComplete(f0, ws[..128], []);
      assert RunLines(f0, ws[..128]) + [] == RunLines(f0, ws[..128]);
    }
  }
}
