/**
 Runs that mix successful and failed record writes: what every record reads as after any such
 run, and after a crash in the middle of one more write.
 */
module WalMixed {
  import opened Common
  import opened CText
  import opened RoomRecord
  import opened Wal
  import opened WalCrash
  import opened WalRollback

  // A record write. `torn` is what a data write that comes out short leaves in the record.
  datatype Attempt = Attempt(w: Write, torn: Option<Record>)

  // The room file and the lines of the log.
  datatype Db = Db(file: RoomFile, texts: seq<string>)

  function Try(db: Db, a: Attempt): Db {
    var prior := ReadRaw(db.file, a.w.id);
    if a.torn.None? then Db(Put(db.file, a.w.id, a.w.rec), db.texts + TxnTexts(prior, a.w))
    else
      var texts := db.texts + FailedTexts(prior, a.w);
      Db(RollbackFile(Put(db.file, a.w.id, a.torn.value), Unlines(texts), a.w.id), texts)
  }

  // The database after a run of attempts that started with an empty log.
  function Mix(f0: RoomFile, ts: seq<Attempt>): Db {
    if ts == [] then Db(f0, []) else Try(Mix(f0, ts[..|ts| - 1]), ts[|ts| - 1])
  }

  predicate Tried(ts: seq<Attempt>, id: RoomId) {
    ts != [] && (ts[|ts| - 1].w.id == id || Tried(ts[..|ts| - 1], id))
  }

  // The rollback of a write after these attempts finds a transaction on the record to undo.
  predicate Found(ts: seq<Attempt>, id: RoomId) {
    |ts| <= 127 || Tried(ts[..128], id)
  }

  /**
   The value a record should have: that of its last attempt if it succeeded; if it failed, the
   value the first OLD line of the log restores; the value at log start where there was none.
   A failed write beyond the reach of the rollback leaves what it left.
   */
  function MixValue(f0: RoomFile, ts: seq<Attempt>, id: nat): Option<Record> {
    if ts == [] then ReadRoom(f0, id)
    else
      var init, a := ts[..|ts| - 1], ts[|ts| - 1];
      if a.w.id != id then MixValue(f0, init, id)
      else if a.torn.None? then Visible(a.w.rec)
      else if Found(init, a.w.id) then LogStartValue(f0, a.w.id)
      else Visible(a.torn.value)
  }

  // ----- what the log says -------------------------------------------------------------------------

  // One transaction in the log: its record, what undoing it writes, and whether it committed.
  datatype Entry = Entry(id: RoomId, undo: Record, ok: bool)

  function EntryLines(e: Entry): (ls: seq<Line>)
    ensures |ls| == 4
  {
    [Begin(e.id), Old(e.undo), Other, if e.ok then Commit(e.id) else Rollback(e.id)]
  }

  function LogLines(es: seq<Entry>): (ls: seq<Line>)
    ensures |ls| == 4 * |es|
  {
    if es == [] then [] else LogLines(es[..|es| - 1]) + EntryLines(es[|es| - 1])
  }

  function EntryOf(db: Db, a: Attempt): Entry {
    Entry(a.w.id, Undone(ReadRaw(db.file, a.w.id)), a.torn.None?)
  }

  function Entries(f0: RoomFile, ts: seq<Attempt>): (es: seq<Entry>)
    ensures |es| == |ts|
  {
    if ts == [] then []
    else Entries(f0, ts[..|ts| - 1]) + [EntryOf(Mix(f0, ts[..|ts| - 1]), ts[|ts| - 1])]
  }

  lemma LogLinesSnoc(es: seq<Entry>, e: Entry)
    ensures LogLines(es + [e]) == LogLines(es) + EntryLines(e)
  {
    assert (es + [e])[..|es|] == es;
  }

  lemma EntryComplete(e: Entry, tail: seq<Line>)
    ensures Restores(EntryLines(e) + tail) == Restores(tail)
  {
    var o, c := Old(e.undo), EntryLines(e)[3];
    assert (EntryLines(e) + tail)[1..] == [o, Other, c] + tail;
    assert ([o, Other, c] + tail)[1..] == [Other, c] + tail;
    assert ([Other, c] + tail)[1..] == [c] + tail;
    assert ([c] + tail)[1..] == tail;
    assert Completed([c] + tail, e.id);
    assert Completed([Other, c] + tail, e.id);
    assert Completed([o, Other, c] + tail, e.id);
    assert Restores([c] + tail) == Restores(tail);
    assert Restores([Other, c] + tail) == Restores(tail);
    assert Restores([o, Other, c] + tail) == Restores(tail);
  }

  lemma {:induction false} LogComplete(es: seq<Entry>, tail: seq<Line>)
    ensures Restores(LogLines(es) + tail) == Restores(tail)
  {
    if es == [] {
      assert LogLines(es) + tail == tail;
    } else {
      var init, e := es[..|es| - 1], es[|es| - 1];
      EntryComplete(e, tail);
      LogComplete(init, EntryLines(e) + tail);
      assert LogLines(es) + tail == LogLines(init) + (EntryLines(e) + tail);
    }
  }

  lemma FirstUndoEntry(e: Entry, tail: seq<Line>, id: RoomId)
    ensures FirstUndo(EntryLines(e) + tail, id) == if e.id == id then Some(e.undo) else FirstUndo(tail, id)
  {
    var o, c := Old(e.undo), EntryLines(e)[3];
    assert (EntryLines(e) + tail)[1..] == [o, Other, c] + tail;
    assert ([o, Other, c] + tail)[1..] == [Other, c] + tail;
    assert ([Other, c] + tail)[1..] == [c] + tail;
    assert ([c] + tail)[1..] == tail;
    assert FirstUndo([c] + tail, id) == FirstUndo(tail, id);
    assert FirstUndo([Other, c] + tail, id) == FirstUndo(tail, id);
    assert FirstUndo([o, Other, c] + tail, id) == FirstUndo(tail, id);
  }

  // The undo record of the first transaction on a record.
  function FirstOf(es: seq<Entry>, id: RoomId): Option<Record> {
    if es == [] then None
    else
      var r := FirstOf(es[..|es| - 1], id);
      if r.Some? then r else if es[|es| - 1].id == id then Some(es[|es| - 1].undo) else None
  }

  lemma {:induction false} FirstUndoOfLog(es: seq<Entry>, tail: seq<Line>, id: RoomId)
    ensures FirstUndo(LogLines(es) + tail, id) == if FirstOf(es, id).Some? then FirstOf(es, id) else FirstUndo(tail, id)
  {
    if es == [] {
      assert LogLines(es) + tail == tail;
    } else {
      var init, e := es[..|es| - 1], es[|es| - 1];
      FirstUndoEntry(e, tail, id);
      FirstUndoOfLog(init, EntryLines(e) + tail, id);
      assert LogLines(es) + tail == LogLines(init) + (EntryLines(e) + tail);
    }
  }

  lemma {:induction false} LogLinesPrefix(es: seq<Entry>, k: nat)
    requires k <= |es|
    ensures LogLines(es)[..4 * k] == LogLines(es[..k])
  {
    if k == |es| {
      assert es[..k] == es;
    } else {
      LogLinesPrefix(es[..|es| - 1], k);
      assert es[..|es| - 1][..k] == es[..k];
    }
  }

  lemma EntriesInit(f0: RoomFile, ts: seq<Attempt>)
    requires ts != []
    ensures Entries(f0, ts)[..|ts| - 1] == Entries(f0, ts[..|ts| - 1])
  {
  }

  lemma {:induction false} EntriesPrefix(f0: RoomFile, ts: seq<Attempt>, k: nat)
    requires k <= |ts|
    ensures Entries(f0, ts)[..k] == Entries(f0, ts[..k])
    decreases |ts|
  {
    var prefix := ts[..k];
    if k == |ts| {
      assert prefix == ts;
    } else {
      var init := ts[..|ts| - 1];
      assert init[..k] == prefix;
      EntriesPrefix(f0, init, k);
      EntriesInit(f0, ts);
      PrefixOfPrefix(Entries(f0, ts), Entries(f0, init), k);
    }
  }

  // ----- records that were never tried ------------------------------------------------------------------

  // The same record as at log start, or a hole where there was none.
  ghost predicate AsFound(f0: RoomFile, f: RoomFile, id: RoomId) {
    ReadRaw(f, id) == ReadRaw(f0, id) || (ReadRaw(f0, id).None? && ReadRaw(f, id) == Some(ZERO))
  }

  // Putting a record leaves every other one, or turns one past the end into a hole.
  lemma PutElsewhere(f0: RoomFile, f: RoomFile, at: RoomId, r: Record, id: RoomId)
    requires AsFound(f0, f, id) && at != id
    ensures AsFound(f0, Put(f, at, r), id)
  {
  }

  lemma {:induction false} UntriedAsFound(f0: RoomFile, ts: seq<Attempt>, id: RoomId)
    requires !Tried(ts, id)
    ensures AsFound(f0, Mix(f0, ts).file, id)
  {
    if ts != [] {
      UntriedAsFound(f0, ts[..|ts| - 1], id);
      var db, a := Mix(f0, ts[..|ts| - 1]), ts[|ts| - 1];
      if a.torn.None? {
        PutElsewhere(f0, db.file, a.w.id, a.w.rec, id);
      } else {
        var image := Put(db.file, a.w.id, a.torn.value);
        PutElsewhere(f0, db.file, a.w.id, a.torn.value, id);
        RollbackElsewhere(f0, image, Unlines(Mix(f0, ts).texts), a.w.id, id);
      }
    }
  }

  lemma RollbackElsewhere(f0: RoomFile, image: RoomFile, text: string, at: RoomId, id: RoomId)
    requires AsFound(f0, image, id) && at != id
    ensures AsFound(f0, RollbackFile(image, text, at), id)
  {
    var undo := FirstUndo(ClassifyAll(Window(text)), at);
    if undo.Some? {
      PutElsewhere(f0, image, at, undo.value, id);
    }
  }

  // The first transaction on a record undoes to the value at log start.
  lemma {:induction false} FirstIsLogStart(f0: RoomFile, ts: seq<Attempt>, id: RoomId)
    ensures FirstOf(Entries(f0, ts), id).Some? <==> Tried(ts, id)
    ensures Tried(ts, id) ==> Visible(FirstOf(Entries(f0, ts), id).value) == LogStartValue(f0, id)
    ensures Tried(ts, id) ==> Safe(FirstOf(Entries(f0, ts), id).value)
  {
    if ts != [] {
      var init, es := ts[..|ts| - 1], Entries(f0, ts);
      FirstIsLogStart(f0, init, id);
      EntriesInit(f0, ts);
      if !Tried(init, id) {
        UntriedAsFound(f0, init, id);
        PriorReadsAsLogStart(f0, ReadRaw(Mix(f0, init).file, id), id);
      }
    }
  }

  // ----- reading the log -----------------------------------------------------------------------------------

  // Records are free of white space; what a short write leaves is too, unless it is rolled back.
  ghost predicate SafeAttempt(ts: seq<Attempt>, i: nat)
    requires i < |ts|
  {
    && Safe(ts[i].w.rec)
    && (ts[i].torn.Some? ==> Found(ts[..i], ts[i].w.id) || Safe(ts[i].torn.value))
  }

  ghost predicate SafeAttempts(ts: seq<Attempt>) {
    forall i :: 0 <= i < |ts| ==> SafeAttempt(ts, i)
  }

  lemma SafeInit(ts: seq<Attempt>)
    requires SafeAttempts(ts) && ts != []
    ensures SafeAttempts(ts[..|ts| - 1]) && SafeAttempt(ts, |ts| - 1)
  {
    var init := ts[..|ts| - 1];
    forall i | 0 <= i < |init|
      ensures SafeAttempt(init, i)
    {
      assert SafeAttempt(ts, i);
      assert init[..i] == ts[..i];
    }
  }

  // The file is free of white space, and recovery reads the log as its transactions.
  ghost predicate Sound(f0: RoomFile, ts: seq<Attempt>) {
    SafeFile(Mix(f0, ts).file) && Reads(Mix(f0, ts).texts, LogLines(Entries(f0, ts)))
  }

  lemma EntryReads(db: Db, a: Attempt)
    requires SafeFile(db.file) && Safe(a.w.rec)
    ensures var prior := ReadRaw(db.file, a.w.id);
            Reads(if a.torn.None? then TxnTexts(prior, a.w) else FailedTexts(prior, a.w), EntryLines(EntryOf(db, a)))
  {
    var prior := ReadRaw(db.file, a.w.id);
    if a.torn.None? {
      ReadTxn(prior, a.w);
    } else {
      FailedTxnReads(prior, a.w);
    }
  }

  lemma TextsRead(f0: RoomFile, ts: seq<Attempt>)
    requires ts != [] && Sound(f0, ts[..|ts| - 1]) && Safe(ts[|ts| - 1].w.rec)
    ensures Reads(Mix(f0, ts).texts, LogLines(Entries(f0, ts)))
  {
    var init, a := ts[..|ts| - 1], ts[|ts| - 1];
    var db := Mix(f0, init);
    var prior := ReadRaw(db.file, a.w.id);
    EntryReads(db, a);
    LogLinesSnoc(Entries(f0, init), EntryOf(db, a));
    ReadsConcat(db.texts, LogLines(Entries(f0, init)),
                if a.torn.None? then TxnTexts(prior, a.w) else FailedTexts(prior, a.w), EntryLines(EntryOf(db, a)));
  }

  lemma {:induction false} LogReadable(es: seq<Entry>)
    ensures Unreadable !in LogLines(es)
  {
    if es != [] {
      LogReadable(es[..|es| - 1]);
    }
  }

  // What the rollback of the last attempt finds.
  lemma RollbackFinds(f0: RoomFile, ts: seq<Attempt>)
    requires ts != [] && ts[|ts| - 1].torn.Some? && Reads(Mix(f0, ts).texts, LogLines(Entries(f0, ts)))
    ensures var id := ts[|ts| - 1].w.id;
            var undo := FirstUndo(ClassifyAll(Window(Unlines(Mix(f0, ts).texts))), id);
            if Found(ts[..|ts| - 1], id)
            then undo.Some? && Visible(undo.value) == LogStartValue(f0, id) && Safe(undo.value)
            else undo.None?
  {
    var id, seen := ts[|ts| - 1].w.id, Seen(ts);
    WindowReads(Mix(f0, ts).texts, LogLines(Entries(f0, ts)));
    FirstInWindow(Entries(f0, ts), id);
    EntriesPrefix(f0, ts, |seen|);
    FirstIsLogStart(f0, seen, id);
    SeenFinds(ts);
  }

  // The part of a sequence of transactions that fits the 512 lines.
  function Seen<T>(xs: seq<T>): (r: seq<T>)
    ensures |r| <= |xs| && r == xs[..|r|]
  {
    if |xs| <= 128 then xs else xs[..128]
  }

  lemma FirstInWindow(es: seq<Entry>, id: RoomId)
    ensures FirstUndo(Cut(LogLines(es)), id) == FirstOf(Seen(es), id)
  {
    var seen := Seen(es);
    LogLinesPrefix(es, |seen|);
    FirstUndoOfLog(seen, [], id);
    assert LogLines(seen) + [] == LogLines(seen);
    assert Cut(LogLines(es)) == LogLines(seen);
  }

  lemma SeenFinds(ts: seq<Attempt>)
    requires ts != []
    ensures Tried(Seen(ts), ts[|ts| - 1].w.id) <==> Found(ts[..|ts| - 1], ts[|ts| - 1].w.id)
  {
    assert |ts| > 128 ==> ts[..|ts| - 1][..128] == ts[..128];
  }

  lemma TryTwice(f: RoomFile, id: nat, torn: Record, r: Record)
    requires SafeFile(f) && Safe(r)
    ensures SafeFile(Put(Put(f, id, torn), id, r))
  {
    var g := Put(f, id, torn);
    forall i | 0 <= i < |g| && i != id
      ensures Safe(g[i])
    {
      assert g[i] == if i < |f| then f[i] else ZERO;
    }
    PutSafe(g, id, r);
  }

  // The file after the last attempt.
  lemma TrySafe(f0: RoomFile, ts: seq<Attempt>)
    requires ts != [] && SafeFile(Mix(f0, ts[..|ts| - 1]).file) && SafeAttempt(ts, |ts| - 1)
    requires Reads(Mix(f0, ts).texts, LogLines(Entries(f0, ts)))
    ensures SafeFile(Mix(f0, ts).file)
  {
    var db, a := Mix(f0, ts[..|ts| - 1]), ts[|ts| - 1];
    if a.torn.None? {
      PutSafe(db.file, a.w.id, a.w.rec);
    } else {
      RollbackFinds(f0, ts);
      var undo := FirstUndo(ClassifyAll(Window(Unlines(Mix(f0, ts).texts))), a.w.id);
      if undo.Some? {
        TryTwice(db.file, a.w.id, a.torn.value, undo.value);
      } else {
        PutSafe(db.file, a.w.id, a.torn.value);
      }
    }
  }

  lemma {:induction false} MixSound(f0: RoomFile, ts: seq<Attempt>)
    requires SafeFile(f0) && SafeAttempts(ts)
    ensures Sound(f0, ts)
  {
    if ts != [] {
      SafeInit(ts);
      MixSound(f0, ts[..|ts| - 1]);
      TextsRead(f0, ts);
      TrySafe(f0, ts);
    }
  }

  // ----- main results --------------------------------------------------------------------------------------

  /**
   After any mix of successful and failed writes, every record reads as its last successful write
   since its last failure, and after a failure as the log's first OLD line on it restores it.
   */
  lemma {:induction false} MixReads(f0: RoomFile, ts: seq<Attempt>, id: nat)
    requires SafeFile(f0) && SafeAttempts(ts)
    ensures ReadRoom(Mix(f0, ts).file, id) == MixValue(f0, ts, id)
  {
    if ts != [] {
      SafeInit(ts);
      MixReads(f0, ts[..|ts| - 1], id);
      MixSound(f0, ts);
      if ts[|ts| - 1].torn.Some? {
        RollbackFinds(f0, ts);
      }
    }
  }

  // The log when the process dies with `k` lines of one more transaction written.
  function MixCrashText(f0: RoomFile, ts: seq<Attempt>, w: Write, k: nat): string
    requires k <= 4
  {
    Unlines(Mix(f0, ts).texts + TxnTexts(ReadRaw(Mix(f0, ts).file, w.id), w)[..k])
  }

  // The room file at that moment.
  ghost predicate MixCrashImage(f0: RoomFile, ts: seq<Attempt>, w: Write, k: nat, image: RoomFile) {
    var before := Mix(f0, ts).file;
    if k < 3 then image == before
    else if k == 3 then forall id: nat :: id != w.id ==> ReadRoom(image, id) == ReadRoom(before, id)
    else image == Put(before, w.id, w.rec)
  }

  lemma MixCrashLines(f0: RoomFile, ts: seq<Attempt>, w: Write, k: nat)
    requires SafeFile(f0) && SafeAttempts(ts) && Safe(w.rec) && k <= 4
    ensures var tail := TxnLines(ReadRaw(Mix(f0, ts).file, w.id), w)[..k];
            ClassifyAll(Window(MixCrashText(f0, ts, w, k))) == Cut(LogLines(Entries(f0, ts)) + tail)
    ensures Readable(MixCrashText(f0, ts, w, k))
  {
    var prior := ReadRaw(Mix(f0, ts).file, w.id);
    var lines := LogLines(Entries(f0, ts));
    MixSound(f0, ts);
    ReadTxn(prior, w);
    ReadsPrefix(TxnTexts(prior, w), TxnLines(prior, w), k);
    ReadsConcat(Mix(f0, ts).texts, lines, TxnTexts(prior, w)[..k], TxnLines(prior, w)[..k]);
    LogReadable(Entries(f0, ts));
    BlockReadable(w.id, Undone(prior), k);
    WindowReads(Mix(f0, ts).texts + TxnTexts(prior, w)[..k], lines + TxnLines(prior, w)[..k]);
  }

  lemma MixRecoverInWindow(f0: RoomFile, ts: seq<Attempt>, w: Write, k: nat, image: RoomFile)
    requires SafeFile(f0) && SafeAttempts(ts) && Safe(w.rec) && k <= 4 && |ts| <= 127
    ensures Readable(MixCrashText(f0, ts, w, k))
    ensures Recover(image, MixCrashText(f0, ts, w, k)) ==
            if k == 2 || k == 3 then Put(image, w.id, Undone(ReadRaw(Mix(f0, ts).file, w.id))) else image
  {
    var prior := ReadRaw(Mix(f0, ts).file, w.id);
    MixCrashLines(f0, ts, w, k);
    UnfinishedBlock(w.id, Undone(prior), k);
    LogComplete(Entries(f0, ts), TxnLines(prior, w)[..k]);
    if k == 2 || k == 3 {
      OneRestore(image, w.id, Undone(prior));
    }
  }

  lemma MixRecoverBeyondWindow(f0: RoomFile, ts: seq<Attempt>, w: Write, k: nat, image: RoomFile)
    requires SafeFile(f0) && SafeAttempts(ts) && Safe(w.rec) && k <= 4 && |ts| >= 128
    ensures Readable(MixCrashText(f0, ts, w, k))
    ensures Recover(image, MixCrashText(f0, ts, w, k)) == image
  {
    var es := Entries(f0, ts);
    MixCrashLines(f0, ts, w, k);
    LogLinesPrefix(es, 128);
    LogComplete(es[..128], []);
    CutLong(LogLines(es), TxnLines(ReadRaw(Mix(f0, ts).file, w.id), w)[..k]);
    assert LogLines(es[..128]) + [] == LogLines(es[..128]);
  }

  /**
   Crash atomicity over mixed runs: after a crash at any step of one more write that the log copes
   with, recovery makes every record read as it should.
   */
  lemma MixCrashAtomicity(f0: RoomFile, ts: seq<Attempt>, w: Write, k: nat, image: RoomFile, id: nat)
    requires SafeFile(f0) && SafeAttempts(ts) && Safe(w.rec) && k <= 4
    requires Copes(|ts|, ReadRaw(Mix(f0, ts).file, w.id), k)
    requires MixCrashImage(f0, ts, w, k, image)
    ensures Readable(MixCrashText(f0, ts, w, k))
    ensures ReadRoom(Recover(image, MixCrashText(f0, ts, w, k)), id) ==
            MixValue(f0, if k == 4 then ts + [Attempt(w, None)] else ts, id)
  {
    MixReads(f0, ts, id);
    MixSound(f0, ts);
    var more := ts + [Attempt(w, None)];
    assert more[..|more| - 1] == ts;
    if |ts| <= 127 {
      MixRecoverInWindow(f0, ts, w, k, image);
      UndoneVisible(ReadRaw(Mix(f0, ts).file, w.id));
    } else {
      MixRecoverBeyondWindow(f0, ts, w, k, image);
    }
  }

  // Recovery brings every record back from every file a crash at this step may have left.
  ghost predicate MixAlwaysRecovers(f0: RoomFile, ts: seq<Attempt>, w: Write, k: nat)
    requires k <= 4 && Readable(MixCrashText(f0, ts, w, k))
  {
    forall image: RoomFile, id: nat :: MixCrashImage(f0, ts, w, k, image) ==>
      ReadRoom(Recover(image, MixCrashText(f0, ts, w, k)), id) ==
      MixValue(f0, if k == 4 then ts + [Attempt(w, None)] else ts, id)
  }

  lemma MixTorn(f0: RoomFile, ts: seq<Attempt>, w: Write)
    requires SafeFile(f0) && SafeAttempts(ts) && Safe(w.rec) && |ts| >= 128
    ensures Readable(MixCrashText(f0, ts, w, 3)) && !MixAlwaysRecovers(f0, ts, w, 3)
  {
    var before := Mix(f0, ts).file;
    MixReads(f0, ts, w.id);
    var image := Put(before, w.id, Differing(ReadRoom(before, w.id)));
    MixRecoverBeyondWindow(f0, ts, w, 3, image);
    assert ReadRoom(Recover(image, MixCrashText(f0, ts, w, 3)), w.id) != MixValue(f0, ts, w.id);
  }

  lemma MixLost(f0: RoomFile, ts: seq<Attempt>, w: Write, k: nat)
    requires SafeFile(f0) && SafeAttempts(ts) && Safe(w.rec) && |ts| <= 127 && (k == 2 || k == 3)
    requires !Survives(ReadRaw(Mix(f0, ts).file, w.id))
    ensures Readable(MixCrashText(f0, ts, w, k)) && !MixAlwaysRecovers(f0, ts, w, k)
  {
    var before := Mix(f0, ts).file;
    MixReads(f0, ts, w.id);
    MixSound(f0, ts);
    MixRecoverInWindow(f0, ts, w, k, before);
    UndoneVisible(ReadRaw(before, w.id));
    assert ReadRoom(Recover(before, MixCrashText(f0, ts, w, k)), w.id) != MixValue(f0, ts, w.id);
  }

  // The limits are as exact as for runs without failures.
  lemma MixCrashExact(f0: RoomFile, ts: seq<Attempt>, w: Write, k: nat)
    requires SafeFile(f0) && SafeAttempts(ts) && Safe(w.rec) && k <= 4
    ensures Readable(MixCrashText(f0, ts, w, k))
    ensures MixAlwaysRecovers(f0, ts, w, k) <==> Copes(|ts|, ReadRaw(Mix(f0, ts).file, w.id), k)
  {
    MixCrashLines(f0, ts, w, k);
    if Copes(|ts|, ReadRaw(Mix(f0, ts).file, w.id), k) {
      forall image: RoomFile, id: nat | MixCrashImage(f0, ts, w, k, image)
        ensures ReadRoom(Recover(image, MixCrashText(f0, ts, w, k)), id) ==
                MixValue(f0, if k == 4 then ts + [Attempt(w, None)] else ts, id)
      {
        MixCrashAtomicity(f0, ts, w, k, image, id);
      }
    } else if |ts| >= 128 {
      MixTorn(f0, ts, w);
    } else {
      MixLost(f0, ts, w, k);
    }
  }
}
