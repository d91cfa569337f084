/**
 Runs of record writes, crashes at any step of one, and what recovery makes of them.
 */
module WalCrash {
  import opened Common
  import opened CText
  import opened RoomRecord
  import opened Wal

  datatype Write = Write(id: RoomId, rec: Record)

  // The four lines of a transaction that replaces `prior`.
  function TxnTexts(prior: Option<Record>, w: Write): (ls: seq<string>)
    ensures |ls| == 4
  {
    [BeginText(w.id), OldLine(prior), NewLine(w.rec), CommitText(w.id)]
  }

  // The third line of a transaction is about the record it writes, not the one it replaces.
  lemma TxnLogsNew(prior: Option<Record>, w: Write)
    requires w.rec.name != "" && SpaceFree(w.rec.name) && w.rec.password != "" && SpaceFree(w.rec.password)
    ensures var line := TxnTexts(prior, w)[2];
            HasPrefix(line, "NEW") && ParseFields(line[3..]) == w.rec
  {
    NewLineRoundTrip(w.rec);
  }

  // The record that undoing such a transaction writes.
  function Undone(prior: Option<Record>): Record {
    assert OldLine(prior)[..3] == "OLD";
    ReadOld(OldLine(prior))
  }

  // What recovery reads in a transaction on record `id` whose undo record is `undo`.
  function Block(id: RoomId, undo: Record): (ls: seq<Line>)
    ensures |ls| == 4
  {
    [Begin(id), Old(undo), Other, Commit(id)]
  }

  function TxnLines(prior: Option<Record>, w: Write): (ls: seq<Line>)
    ensures |ls| == 4
  {
    Block(w.id, Undone(prior))
  }

  // The room file after a serial run of committed writes.
  function RunFile(f0: RoomFile, ws: seq<Write>): RoomFile {
    if ws == [] then f0
    else
      var w := ws[|ws| - 1];
      Put(RunFile(f0, ws[..|ws| - 1]), w.id, w.rec)
  }

  // The log such a run leaves, starting from an empty one.
  function RunTexts(f0: RoomFile, ws: seq<Write>): (ls: seq<string>)
    ensures |ls| == 4 * |ws|
  {
    if ws == [] then []
    else
      var init, w := ws[..|ws| - 1], ws[|ws| - 1];
      RunTexts(f0, init) + TxnTexts(ReadRaw(RunFile(f0, init), w.id), w)
  }

  // The undo records of the transactions of a run, in order.
  function UndoLog(f0: RoomFile, ws: seq<Write>): (us: seq<Restore>)
    ensures |us| == |ws|
  {
    if ws == [] then []
    else
      var init, w := ws[..|ws| - 1], ws[|ws| - 1];
      UndoLog(f0, init) + [Restore(w.id, Undone(ReadRaw(RunFile(f0, init), w.id)))]
  }

  // The lines of a log of completed transactions.
  function Blocks(us: seq<Restore>): (ls: seq<Line>)
    ensures |ls| == 4 * |us|
  {
    if us == [] then []
    else Blocks(us[..|us| - 1]) + Block(us[|us| - 1].id, us[|us| - 1].rec)
  }

  function RunLines(f0: RoomFile, ws: seq<Write>): (ls: seq<Line>)
    ensures |ls| == 4 * |ws|
  {
    Blocks(UndoLog(f0, ws))
  }

  lemma RunLinesSnoc(f0: RoomFile, ws: seq<Write>)
    requires ws != []
    ensures var init, w := ws[..|ws| - 1], ws[|ws| - 1];
            RunLines(f0, ws) == RunLines(f0, init) + TxnLines(ReadRaw(RunFile(f0, init), w.id), w)
  {
    var init, w := ws[..|ws| - 1], ws[|ws| - 1];
    var u := Restore(w.id, Undone(ReadRaw(RunFile(f0, init), w.id)));
    BlocksSnoc(UndoLog(f0, init), u);
  }

  lemma BlocksSnoc(us: seq<Restore>, u: Restore)
    ensures Blocks(us + [u]) == Blocks(us) + Block(u.id, u.rec)
  {
    assert (us + [u])[..|us|] == us;
  }

  // The value a record was last given by a committed write.
  function LastCommitted(f0: RoomFile, ws: seq<Write>, id: nat): Option<Record> {
    if ws == [] then ReadRoom(f0, id)
    else if ws[|ws| - 1].id == id then Visible(ws[|ws| - 1].rec)
    else LastCommitted(f0, ws[..|ws| - 1], id)
  }

  lemma {:induction false} RunReadsLastCommitted(f0: RoomFile, ws: seq<Write>, id: nat)
    ensures ReadRoom(RunFile(f0, ws), id) == LastCommitted(f0, ws, id)
  {
    if ws != [] {
      RunReadsLastCommitted(f0, ws[..|ws| - 1], id);
    }
  }

  // ----- records without white space print as single lines ----------------------------

  predicate Safe(r: Record) {
    SpaceFree(r.name) && SpaceFree(r.password)
  }

  predicate SafeFile(f: RoomFile) {
    forall i :: 0 <= i < |f| ==> Safe(f[i])
  }

  predicate SafeWrites(ws: seq<Write>) {
    forall i :: 0 <= i < |ws| ==> Safe(ws[i].rec)
  }

  lemma {:induction false} RunFileSafe(f0: RoomFile, ws: seq<Write>)
    requires SafeFile(f0) && SafeWrites(ws)
    ensures SafeFile(RunFile(f0, ws))
  {
    if ws != [] {
      RunFileSafe(f0, ws[..|ws| - 1]);
      var g := RunFile(f0, ws[..|ws| - 1]);
      var h := RunFile(f0, ws);
      forall i | 0 <= i < |h|
        ensures Safe(h[i])
      {
        assert i < |g| ==> Safe(g[i]);
      }
    }
  }

  lemma PutSafe(f: RoomFile, id: nat, r: Record)
    requires Safe(r) && forall i :: 0 <= i < |f| && i != id ==> Safe(f[i])
    ensures SafeFile(Put(f, id, r))
  {
    var g := Put(f, id, r);
    forall i | 0 <= i < |g|
      ensures Safe(g[i])
    {
      assert i != id ==> g[i] == if i < |f| then f[i] else ZERO;
    }
  }

  lemma SepNewlineFree(x: string, y: string)
    requires SpaceFree(x) && '\n' !in y
    ensures '\n' !in Sep(x, y)
  {
    var s := Sep(x, y);
    forall i | 0 <= i < |s|
      ensures s[i] != '\n'
    {
      if i < |x| {
        assert s[i] == x[i];
      } else if i > |x| {
        assert s[i] == y[i - |x| - 1];
      }
    }
  }

  lemma FieldsNewlineFree(r: Record)
    requires Safe(r)
    ensures '\n' !in ShowFields(r)
  {
    var act, cnt := ShowInt(r.isActive), ShowInt(r.userCount);
    assert '\n' !in cnt by {
      assert forall i | 0 <= i < |cnt| :: !IsSpace(cnt[i]);
    }
    SepNewlineFree(act, cnt);
    SepNewlineFree(r.password, Sep(act, cnt));
    SepNewlineFree(r.name, Sep(r.password, Sep(act, cnt)));
    SepNewlineFree(ShowInt(r.roomId), Sep(r.name, Sep(r.password, Sep(act, cnt))));
  }

  lemma TagLine(tag: string, id: RoomId)
    requires SpaceFree(tag) && tag != ""
    ensures LineText(Sep(tag, ShowInt(id)))
    ensures ScanInt(Sep(tag, ShowInt(id))[|tag|..]) == Match(id, "")
    ensures Sep(tag, ShowInt(id))[..|tag|] == tag
  {
    var s := ShowInt(id);
    assert '\n' !in s by {
      assert forall i | 0 <= i < |s| :: !IsSpace(s[i]);
    }
    SepNewlineFree(tag, s);
    assert Sep(tag, s)[|tag|..] == " " + s;
    LastInt(id);
  }

  // A line's first letter rules out every tag with another one.
  lemma OtherTag(l: string, tag: string)
    requires tag != "" && l != "" && l[0] != tag[0]
    ensures !HasPrefix(l, tag)
  {
    assert |l| >= |tag| ==> l[..|tag|][0] == l[0];
  }

  lemma ReadBegin(id: RoomId)
    ensures LineText(BeginText(id)) && Classify(BeginText(id)) == Begin(id)
  {
    TagLine("BEGIN", id);
  }

  lemma ReadCommit(id: RoomId)
    ensures LineText(CommitText(id)) && Classify(CommitText(id)) == Commit(id)
  {
    TagLine("COMMIT", id);
    OtherTag(CommitText(id), "BEGIN");
    OtherTag(CommitText(id), "OLD");
  }

  lemma ReadRollback(id: RoomId)
    ensures LineText(RollbackText(id)) && Classify(RollbackText(id)) == Rollback(id)
  {
    TagLine("ROLLBACK", id);
    OtherTag(RollbackText(id), "BEGIN");
    OtherTag(RollbackText(id), "OLD");
    OtherTag(RollbackText(id), "COMMIT");
  }

  lemma ReadPrior(prior: Option<Record>)
    requires prior.Some? ==> Safe(prior.value)
    ensures LineText(OldLine(prior)) && Classify(OldLine(prior)) == Old(Undone(prior))
  {
    if prior.Some? {
      FieldsNewlineFree(prior.value);
      SepNewlineFree("OLD", ShowFields(prior.value));
    } else {
      SepNewlineFree("OLD", "NULL");
    }
    assert OldLine(prior)[..3] == "OLD";
    OtherTag(OldLine(prior), "BEGIN");
  }

  lemma ReadNew(r: Record)
    requires Safe(r)
    ensures LineText(NewLine(r)) && Classify(NewLine(r)) == Other
  {
    FieldsNewlineFree(r);
    SepNewlineFree("NEW", ShowFields(r));
    OtherTag(NewLine(r), "BEGIN");
    OtherTag(NewLine(r), "OLD");
    OtherTag(NewLine(r), "COMMIT");
    OtherTag(NewLine(r), "ROLLBACK");
  }

  // `texts` are newline-free lines, and recovery reads `lines` in them.
  ghost predicate Reads(texts: seq<string>, lines: seq<Line>) {
    && |texts| == |lines|
    && forall i :: 0 <= i < |texts| ==> LineText(texts[i]) && Classify(texts[i]) == lines[i]
  }

  lemma ReadsOne(text: string, line: Line)
    requires LineText(text) && Classify(text) == line
    ensures Reads([text], [line])
  {
  }

  lemma ReadsConcat(ts: seq<string>, ls: seq<Line>, us: seq<string>, ms: seq<Line>)
    requires Reads(ts, ls) && Reads(us, ms)
    ensures Reads(ts + us, ls + ms)
  {
  }

  lemma ReadsPrefix(ts: seq<string>, ls: seq<Line>, k: nat)
    requires Reads(ts, ls) && k <= |ts|
    ensures Reads(ts[..k], ls[..k])
  {
  }

  lemma ReadsFour(t0: string, l0: Line, t1: string, l1: Line, t2: string, l2: Line, t3: string, l3: Line)
    requires Reads([t0], [l0]) && Reads([t1], [l1]) && Reads([t2], [l2]) && Reads([t3], [l3])
    ensures Reads([t0, t1, t2, t3], [l0, l1, l2, l3])
  {
    ReadsConcat([t0], [l0], [t1], [l1]);
    ReadsConcat([t2], [l2], [t3], [l3]);
    ReadsConcat([t0] + [t1], [l0] + [l1], [t2] + [t3], [l2] + [l3]);
    assert [t0, t1, t2, t3] == [t0] + [t1] + ([t2] + [t3]);
    assert [l0, l1, l2, l3] == [l0] + [l1] + ([l2] + [l3]);
  }

  lemma ReadTxn(prior: Option<Record>, w: Write)
    requires Safe(w.rec) && (prior.Some? ==> Safe(prior.value))
    ensures Reads(TxnTexts(prior, w), TxnLines(prior, w))
  {
    ReadBegin(w.id);
    ReadPrior(prior);
    ReadNew(w.rec);
    ReadCommit(w.id);
    ReadsOne(BeginText(w.id), Begin(w.id));
    ReadsOne(OldLine(prior), Old(Undone(prior)));
    ReadsOne(NewLine(w.rec), Other);
    ReadsOne(CommitText(w.id), Commit(w.id));
    ReadsFour(BeginText(w.id), Begin(w.id), OldLine(prior), Old(Undone(prior)),
              NewLine(w.rec), Other, CommitText(w.id), Commit(w.id));
  }

  lemma {:induction false} ReadRun(f0: RoomFile, ws: seq<Write>)
    requires SafeFile(f0) && SafeWrites(ws)
    ensures Reads(RunTexts(f0, ws), RunLines(f0, ws))
  {
    if ws != [] {
      var init, w := ws[..|ws| - 1], ws[|ws| - 1];
      ReadRun(f0, init);
      RunFileSafe(f0, init);
      var prior := ReadRaw(RunFile(f0, init), w.id);
      ReadTxn(prior, w);
      RunLinesSnoc(f0, ws);
      ReadsConcat(RunTexts(f0, init), RunLines(f0, init), TxnTexts(prior, w), TxnLines(prior, w));
    }
  }

  function Cut(lines: seq<Line>): seq<Line> {
    if |lines| <= MAX_LINES then lines else lines[..MAX_LINES]
  }

  lemma WindowReads(texts: seq<string>, lines: seq<Line>)
    requires Reads(texts, lines)
    ensures ClassifyAll(Window(Unlines(texts))) == Cut(lines)
    ensures Unreadable !in lines ==> Readable(Unlines(texts))
  {
    TokensOfUnlines(texts);
  }

  lemma CutLong(ls: seq<Line>, ms: seq<Line>)
    requires |ls| >= MAX_LINES
    ensures Cut(ls + ms) == ls[..MAX_LINES]
  {
  }

  // ----- completed transactions are left alone -----------------------------------------

  lemma CompleteBlock(id: RoomId, undo: Record, tail: seq<Line>)
    ensures Restores(Block(id, undo) + tail) == Restores(tail)
  {
    var o, c := Old(undo), Commit(id);
    assert (Block(id, undo) + tail)[1..] == [o, Other, c] + tail;
    assert ([o, Other, c] + tail)[1..] == [Other, c] + tail;
    assert ([Other, c] + tail)[1..] == [c] + tail;
    assert ([c] + tail)[1..] == tail;
    assert Completed([c] + tail, id);
    assert Completed([Other, c] + tail, id);
    assert Completed([o, Other, c] + tail, id);
    assert Restores([c] + tail) == Restores(tail);
    assert Restores([Other, c] + tail) == Restores(tail);
    assert Restores([o, Other, c] + tail) == Restores(tail);
  }

  lemma {:induction false} BlocksAreComplete(us: seq<Restore>, tail: seq<Line>)
    ensures Restores(Blocks(us) + tail) == Restores(tail)
  {
    if us == [] {
      assert Blocks(us) + tail == tail;
    } else {
      var init, u := us[..|us| - 1], us[|us| - 1];
      CompleteBlock(u.id, u.rec, tail);
      BlocksAreComplete(init, Block(u.id, u.rec) + tail);
      assert Blocks(us) + tail == Blocks(init) + (Block(u.id, u.rec) + tail);
    }
  }

  lemma RunIsComplete(f0: RoomFile, ws: seq<Write>, tail: seq<Line>)
    ensures Restores(RunLines(f0, ws) + tail) == Restores(tail)
  {
    BlocksAreComplete(UndoLog(f0, ws), tail);
  }

  lemma {:induction false} BlocksPrefix(us: seq<Restore>, k: nat)
    requires k <= |us|
    ensures Blocks(us)[..4 * k] == Blocks(us[..k])
  {
    if k == |us| {
      assert us[..k] == us;
    } else {
      BlocksPrefix(us[..|us| - 1], k);
      assert us[..|us| - 1][..k] == us[..k];
    }
  }

  lemma PrefixOfPrefix<T>(u: seq<T>, v: seq<T>, k: nat)
    requires k <= |v| <= |u| && u[..|v|] == v
    ensures u[..k] == v[..k]
  {
    assert u[..|v|][..k] == u[..k];
  }

  lemma UndoLogInit(f0: RoomFile, ws: seq<Write>)
    requires ws != []
    ensures UndoLog(f0, ws)[..|ws| - 1] == UndoLog(f0, ws[..|ws| - 1])
  {
  }

  lemma {:induction false} UndoLogPrefix(f0: RoomFile, ws: seq<Write>, k: nat)
    requires k <= |ws|
    ensures UndoLog(f0, ws)[..k] == UndoLog(f0, ws[..k])
    decreases |ws|
  {
    var prefix := ws[..k];
    if k == |ws| {
      assert prefix == ws;
    } else {
      var init := ws[..|ws| - 1];
      assert init[..k] == prefix;
      UndoLogPrefix(f0, init, k);
      UndoLogInit(f0, ws);
      PrefixOfPrefix(UndoLog(f0, ws), UndoLog(f0, init), k);
    }
  }

  lemma RunLinesPrefix(f0: RoomFile, ws: seq<Write>, k: nat)
    requires k <= |ws|
    ensures RunLines(f0, ws)[..4 * k] == RunLines(f0, ws[..k])
  {
    BlocksPrefix(UndoLog(f0, ws), k);
    UndoLogPrefix(f0, ws, k);
  }

  // ----- a crash at any step of the next write -------------------------------------------

  function PriorOf(f0: RoomFile, ws: seq<Write>, w: Write): Option<Record> {
    ReadRaw(RunFile(f0, ws), w.id)
  }

  // The log when the process dies with `k` lines of the last transaction written.
  function CrashText(f0: RoomFile, ws: seq<Write>, w: Write, k: nat): string
    requires k <= 4
  {
    Unlines(RunTexts(f0, ws) + TxnTexts(PriorOf(f0, ws, w), w)[..k])
  }

  // The room file at that moment. Once the NEW line is out the record itself may hold
  // anything: the old value, the new one, or a mixture.
  ghost predicate CrashImage(f0: RoomFile, ws: seq<Write>, w: Write, k: nat, image: RoomFile) {
    var before := RunFile(f0, ws);
    if k < 3 then image == before
    else if k == 3 then forall id: nat :: id != w.id ==> ReadRoom(image, id) == ReadRoom(before, id)
    else image == Put(before, w.id, w.rec)
  }

  lemma CrashReads(f0: RoomFile, ws: seq<Write>, w: Write, k: nat)
    requires SafeFile(f0) && SafeWrites(ws) && Safe(w.rec) && k <= 4
    ensures var prior := PriorOf(f0, ws, w);
            Reads(RunTexts(f0, ws) + TxnTexts(prior, w)[..k], RunLines(f0, ws) + TxnLines(prior, w)[..k])
  {
    var prior := PriorOf(f0, ws, w);
    RunFileSafe(f0, ws);
    ReadRun(f0, ws);
    ReadTxn(prior, w);
    ReadsPrefix(TxnTexts(prior, w), TxnLines(prior, w), k);
    ReadsConcat(RunTexts(f0, ws), RunLines(f0, ws), TxnTexts(prior, w)[..k], TxnLines(prior, w)[..k]);
  }

  lemma CrashLines(f0: RoomFile, ws: seq<Write>, w: Write, k: nat)
    requires SafeFile(f0) && SafeWrites(ws) && Safe(w.rec) && k <= 4
    ensures ClassifyAll(Window(CrashText(f0, ws, w, k))) ==
            Cut(RunLines(f0, ws) + TxnLines(PriorOf(f0, ws, w), w)[..k])
    ensures Readable(CrashText(f0, ws, w, k))
  {
    var prior := PriorOf(f0, ws, w);
    CrashReads(f0, ws, w, k);
    NothingUnreadable(f0, ws);
    BlockReadable(w.id, Undone(prior), k);
    WindowReads(RunTexts(f0, ws) + TxnTexts(prior, w)[..k], RunLines(f0, ws) + TxnLines(prior, w)[..k]);
  }

  lemma BlockReadable(id: RoomId, undo: Record, k: nat)
    requires k <= 4
    ensures Unreadable !in Block(id, undo)[..k]
  {
  }

  lemma {:induction false} BlocksReadable(us: seq<Restore>)
    ensures Unreadable !in Blocks(us)
  {
    if us != [] {
      BlocksReadable(us[..|us| - 1]);
    }
  }

  lemma NothingUnreadable(f0: RoomFile, ws: seq<Write>)
    ensures Unreadable !in RunLines(f0, ws)
  {
    BlocksReadable(UndoLog(f0, ws));
  }

  // What the unfinished transaction itself makes recovery write.
  lemma UnfinishedBlock(id: RoomId, undo: Record, k: nat)
    requires k <= 4
    ensures Restores(Block(id, undo)[..k]) == if k == 2 || k == 3 then [Restore(id, undo)] else []
  {
    var b, o := Begin(id), Old(undo);
    var all := Block(id, undo);
    if k == 4 {
      CompleteBlock(id, undo, []);
      assert all[..4] == all + [];
    } else if k == 3 {
      assert all[..3] == [b, o, Other] && [b, o, Other][1..] == [o, Other] && [o, Other][1..] == [Other];
      assert !Completed([Other], id);
      assert !Completed([o, Other], id);
      assert Restores([Other]) == [] && Restores([o, Other]) == [];
    } else if k == 2 {
      assert all[..2] == [b, o] && [b, o][1..] == [o] && [o][1..] == [];
      assert !Completed([o], id);
      assert Restores([o]) == [];
    } else if k == 1 {
      assert all[..1] == [b] && [b][1..] == [];
    }
  }

  ghost predicate Survives(prior: Option<Record>) {
    prior.Some? ==> SurvivesLog(prior.value)
  }

  lemma UndoneVisible(prior: Option<Record>)
    requires prior.Some? ==> Safe(prior.value)
    ensures Visible(Undone(prior)) == (if prior.Some? then Visible(prior.value) else None) <==> Survives(prior)
  {
    if prior.Some? {
      OldLineKeepsVisible(prior.value);
    } else {
      ReadOldNull();
    }
  }

  // Recovery after a crash, while the whole log fits the 512 lines that are read.
  lemma RecoverInWindow(f0: RoomFile, ws: seq<Write>, w: Write, k: nat, image: RoomFile)
    requires SafeFile(f0) && SafeWrites(ws) && Safe(w.rec) && k <= 4 && |ws| <= 127
    ensures Readable(CrashText(f0, ws, w, k))
    ensures Recover(image, CrashText(f0, ws, w, k)) ==
            if k == 2 || k == 3 then Put(image, w.id, Undone(PriorOf(f0, ws, w))) else image
  {
    var prior := PriorOf(f0, ws, w);
    CrashLines(f0, ws, w, k);
    UnfinishedBlock(w.id, Undone(prior), k);
    RunIsComplete(f0, ws, TxnLines(prior, w)[..k]);
    if k == 2 || k == 3 {
      var rs := [Restore(w.id, Undone(prior))];
      assert rs[1..] == [];
      assert ApplyAll(image, rs) == ApplyAll(Put(image, w.id, rs[0].rec), []);
    }
  }

  // With 128 transactions or more before it, the unfinished one is never seen.
  lemma RecoverBeyondWindow(f0: RoomFile, ws: seq<Write>, w: Write, k: nat, image: RoomFile)
    requires SafeFile(f0) && SafeWrites(ws) && Safe(w.rec) && k <= 4 && |ws| >= 128
    ensures Readable(CrashText(f0, ws, w, k))
    ensures Recover(image, CrashText(f0, ws, w, k)) == image
  {
    CrashLines(f0, ws, w, k);
    RunLinesPrefix(f0, ws, 128);
    RunIsComplete(f0, ws[..128], []);
    CutLong(RunLines(f0, ws), TxnLines(PriorOf(f0, ws, w), w)[..k]);
    assert RunLines(f0, ws[..128]) + [] == RunLines(f0, ws[..128]);
  }

  // Whether the log can cope with a crash that leaves `k` lines of a transaction behind `n` others.
  // Once the OLD line is out the record replaced must survive it, if recovery gets to see it;
  // once the data may be torn, recovery must get to see it too.
  ghost predicate Copes(n: nat, prior: Option<Record>, k: nat) {
    if k == 2 then n <= 127 ==> Survives(prior)
    else if k == 3 then n <= 127 && Survives(prior)
    else true
  }

  /**
   Crash atomicity. From an empty log, after any serial run of committed writes and a crash at any
   step of one more write that the log copes with, recovery makes every record read as its last
   committed value.
   */
  lemma CrashAtomicity(f0: RoomFile, ws: seq<Write>, w: Write, k: nat, image: RoomFile, id: nat)
    requires SafeFile(f0) && SafeWrites(ws) && Safe(w.rec) && k <= 4
    requires Copes(|ws|, PriorOf(f0, ws, w), k)
    requires CrashImage(f0, ws, w, k, image)
    ensures Readable(CrashText(f0, ws, w, k))
    ensures ReadRoom(Recover(image, CrashText(f0, ws, w, k)), id) ==
            LastCommitted(f0, if k == 4 then ws + [w] else ws, id)
  {
    RunReadsLastCommitted(f0, ws, id);
    assert (ws + [w])[..|ws + [w]| - 1] == ws;
    if |ws| <= 127 {
      RecoverInWindow(f0, ws, w, k, image);
      RunFileSafe(f0, ws);
      UndoneVisible(PriorOf(f0, ws, w));
    } else {
      RecoverBeyondWindow(f0, ws, w, k, image);
    }
  }

  // Recovery brings every record back from every file a crash at this step may have left.
  ghost predicate AlwaysRecovers(f0: RoomFile, ws: seq<Write>, w: Write, k: nat)
    requires k <= 4 && Readable(CrashText(f0, ws, w, k))
  {
    forall image: RoomFile, id: nat :: CrashImage(f0, ws, w, k, image) ==>
      ReadRoom(Recover(image, CrashText(f0, ws, w, k)), id) == LastCommitted(f0, if k == 4 then ws + [w] else ws, id)
  }

  /**
   The limits are exact: a crash at a step is always recovered from if and only if the log copes
   with it. For a crash during the data write that means at most 127 transactions before it and a
   record that survives its OLD line.
   */
  lemma CrashAtomicityExact(f0: RoomFile, ws: seq<Write>, w: Write, k: nat)
    requires SafeFile(f0) && SafeWrites(ws) && Safe(w.rec) && k <= 4
    ensures Readable(CrashText(f0, ws, w, k))
    ensures AlwaysRecovers(f0, ws, w, k) <==> Copes(|ws|, PriorOf(f0, ws, w), k)
  {
    CrashLines(f0, ws, w, k);
    if Copes(|ws|, PriorOf(f0, ws, w), k) {
      forall image: RoomFile, id: nat | CrashImage(f0, ws, w, k, image)
        ensures ReadRoom(Recover(image, CrashText(f0, ws, w, k)), id) ==
                LastCommitted(f0, if k == 4 then ws + [w] else ws, id)
      {
        CrashAtomicity(f0, ws, w, k, image, id);
      }
    } else if AlwaysRecovers(f0, ws, w, k) {
      if |ws| >= 128 {
        TornBeyondWindow(f0, ws, w);
      } else {
        LostInWindow(f0, ws, w, k);
      }
      assert false;
    }
  }

  // A record that reads differently.
  function Differing(v: Option<Record>): (r: Record)
    ensures Visible(r) != v
  {
    if v.None? then Record(0, "a", "b", 1, 0) else ZERO
  }

  // A torn record that recovery does not see stays torn.
  lemma TornBeyondWindow(f0: RoomFile, ws: seq<Write>, w: Write)
    requires SafeFile(f0) && SafeWrites(ws) && Safe(w.rec) && |ws| >= 128
    ensures Readable(CrashText(f0, ws, w, 3)) && !AlwaysRecovers(f0, ws, w, 3)
  {
    var before := RunFile(f0, ws);
    RunReadsLastCommitted(f0, ws, w.id);
    var image := Put(before, w.id, Differing(ReadRoom(before, w.id)));
    RecoverBeyondWindow(f0, ws, w, 3, image);
    assert ReadRoom(Recover(image, CrashText(f0, ws, w, 3)), w.id) != LastCommitted(f0, ws, w.id);
  }

  // A record that does not survive its OLD line is lost even when the data write had not begun.
  lemma LostInWindow(f0: RoomFile, ws: seq<Write>, w: Write, k: nat)
    requires SafeFile(f0) && SafeWrites(ws) && Safe(w.rec) && |ws| <= 127 && (k == 2 || k == 3)
    requires !Survives(PriorOf(f0, ws, w))
    ensures Readable(CrashText(f0, ws, w, k)) && !AlwaysRecovers(f0, ws, w, k)
  {
    var before := RunFile(f0, ws);
    RunReadsLastCommitted(f0, ws, w.id);
    RunFileSafe(f0, ws);
    RecoverInWindow(f0, ws, w, k, before);
    UndoneVisible(PriorOf(f0, ws, w));
    assert ReadRoom(Recover(before, CrashText(f0, ws, w, k)), w.id) != LastCommitted(f0, ws, w.id);
  }
}
