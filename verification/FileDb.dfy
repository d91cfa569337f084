/**
 The database as the server holds it: a room file and a log, both updated in place.
 */
module FileDb {
  import opened Common
  import opened CText
  import opened RoomRecord
  import opened Wal
  import opened WalCrash
  import opened WalRollback
  import opened WalMixed

  lemma UndoStep(ls: seq<Line>, i: nat)
    requires i < |ls|
    ensures UndoRecord(ls[i..]) == match ls[i]
                                   case Begin(_) => None
                                   case Old(rec) => Some(rec)
                                   case _ => UndoRecord(ls[i + 1..])
  {
    assert ls[i..][1..] == ls[i + 1..];
  }

  // The record of the first OLD line from line `start` on, before the next BEGIN.
  method FindOld(lines: seq<Line>, start: nat) returns (undo: Option<Record>)
    requires start <= |lines|
    ensures undo == UndoRecord(lines[start..])
  {
    for i := start to |lines|
      invariant UndoRecord(lines[i..]) == UndoRecord(lines[start..])
    {
      UndoStep(lines, i);
      if lines[i].Begin? {
        return None;
      }
      if lines[i].Old? {
        return Some(lines[i].rec);
      }
    }
    return None;
  }

  lemma EndStep(ls: seq<Line>, i: nat, id: RoomId)
    requires i < |ls|
    ensures Completed(ls[i..], id) <==> !ls[i].Begin? && (Ends(ls[i], id) || Completed(ls[i + 1..], id))
  {
    assert ls[i..][1..] == ls[i + 1..];
  }

  // Searches from line `start` on for a COMMIT or ROLLBACK, up to the next BEGIN.
  method FindEnd(id: RoomId, lines: seq<Line>, start: nat) returns (completed: bool)
    requires start <= |lines|
    ensures completed == Completed(lines[start..], id)
  {
    for i := start to |lines|
      invariant Completed(lines[i..], id) == Completed(lines[start..], id)
    {
      EndStep(lines, i, id);
      if lines[i].Begin? {
        return false;
      }
      if Ends(lines[i], id) {
        return true;
      }
    }
    return false;
  }

  class Database {
    var rooms: RoomFile
    var log: string

    constructor ()
      ensures rooms == [] && log == ""
    {
      rooms, log := [], "";
    }

    method ReadRoomRaw(id: RoomId) returns (rec: Option<Record>)
      ensures rec == ReadRaw(rooms, id)
    {
      rec := if id < |rooms| then Some(rooms[id]) else None;
    }

    // The least index that holds no active record, counting the end of the file.
    method NextFreeRoomId() returns (id: nat)
      ensures id <= |rooms|
      ensures id < |rooms| ==> rooms[id].isActive == 0
      ensures forall i :: 0 <= i < id ==> rooms[i].isActive != 0
    {
      id := 0;
      while id < |rooms|
        invariant id <= |rooms|
        invariant forall i :: 0 <= i < id ==> rooms[i].isActive != 0
      {
        if rooms[id].isActive == 0 {
          return;
        }
        id := id + 1;
      }
    }

    method WriteLine(line: string)
      modifies this`log
      ensures log == old(log) + Unlines([line])
    {
      log := log + line + "\n";
      assert Unlines([line]) == line + "\n" + Unlines([line][1..]);
    }

    method WalBegin(id: RoomId, prior: Option<Record>, rec: Record)
      modifies this`log
      ensures log == old(log) + Unlines(TxnTexts(prior, Write(id, rec))[..3])
    {
      WriteLine(BeginText(id));
      WriteLine(OldLine(prior));
      WriteLine(NewLine(rec));
      ThreeLines(old(log), BeginText(id), OldLine(prior), NewLine(rec));
      FirstThree(BeginText(id), OldLine(prior), NewLine(rec), CommitText(id));
    }

    // Puts back the record logged by the transaction that begins at line `start`.
    method WalRestoreOld(id: RoomId, lines: seq<string>, start: nat)
      requires start < |lines| && Classify(lines[start]).Begin?
      modifies this`rooms
      ensures rooms == var undo := UndoRecord(ClassifyAll(lines)[start + 1..]);
                       if undo.Some? then Put(old(rooms), id, undo.value) else old(rooms)
    {
      var undo := FindOld(ClassifyAll(lines), start + 1);
      if undo.Some? {
        rooms := Put(rooms, id, undo.value);
      }
    }

    // Whether the transaction that begins at line `start` reached its COMMIT or ROLLBACK.
    method IsCompleted(id: RoomId, lines: seq<string>, start: nat) returns (completed: bool)
      requires start < |lines|
      ensures completed == Completed(ClassifyAll(lines)[start + 1..], id)
    {
      completed := FindEnd(id, ClassifyAll(lines), start + 1);
    }

    method WalRecover()
      requires Readable(log)
      modifies this
      ensures rooms == Recover(old(rooms), old(log))
      ensures log == ""
    {
      var lines := Window(log);
      ghost var ls := ClassifyAll(lines);
      var i := 0;
      assert ls[0..] == ls;
      while i < |lines|
        invariant 0 <= i <= |lines|
        invariant ApplyAll(rooms, Restores(ls[i..])) == ApplyAll(old(rooms), Restores(ls))
      {
        ghost var before := rooms;
        ghost var rest := ls[i + 1..];
        assert ls[i..][0] == ls[i] && ls[i..][1..] == rest;
        var line := Classify(lines[i]);
        if line.Begin? {
          var completed := IsCompleted(line.id, lines, i);
          if !completed {
            WalRestoreOld(line.id, lines, i);
            ghost var undo := UndoRecord(rest);
            if undo.Some? {
              ApplyFirst(before, Restore(line.id, undo.value), Restores(rest));
            }
          }
        }
        i := i + 1;
      }
      assert ls[|ls|..] == [];
      log := "";
    }

    // Undoes a failed write with the first transaction on its record in the log.
    method WalRollback(id: RoomId)
      modifies this
      ensures log == old(log) + Unlines([RollbackText(id)])
      ensures rooms == RollbackFile(old(rooms), log, id)
    {
      WriteLine(RollbackText(id));
      var lines := Window(log);
      ghost var ls := ClassifyAll(lines);
      var i := 0;
      assert ls[0..] == ls;
      while i < |lines|
        invariant 0 <= i <= |lines|
        invariant FirstUndo(ls[i..], id) == FirstUndo(ls, id)
        invariant rooms == old(rooms) && log == old(log) + Unlines([RollbackText(id)])
      {
        assert ls[i..][0] == ls[i] && ls[i..][1..] == ls[i + 1..];
        if Classify(lines[i]) == Begin(id) {
          WalRestoreOld(id, lines, i);
          return;
        }
        i := i + 1;
      }
      assert ls[|ls|..] == [];
    }

    // Writes a record under the log. `torn` is what the record holds afterwards when the
    // data write comes out short.
    method WriteRoom(id: RoomId, rec: Record, torn: Option<Record>) returns (ok: bool)
      modifies this
      ensures ok == torn.None?
      ensures ok ==> rooms == Put(old(rooms), id, rec)
      ensures ok ==> log == old(log) + Unlines(TxnTexts(ReadRaw(old(rooms), id), Write(id, rec)))
      ensures !ok ==> log == old(log) + Unlines(FailedTexts(ReadRaw(old(rooms), id), Write(id, rec)))
      ensures !ok ==> rooms == RollbackFile(Put(old(rooms), id, torn.value), log, id)
    {
      var prior := ReadRoomRaw(id);
      var w := Write(id, rec);
      WalBegin(id, prior, rec);
      if torn.Some? {
        rooms := Put(rooms, id, torn.value);
        WalRollback(id);
        LogGrows(old(log), TxnTexts(prior, w)[..3], [RollbackText(id)]);
        return false;
      }
      rooms := Put(rooms, id, rec);
      WriteLine(CommitText(id));
      LogGrows(old(log), TxnTexts(prior, w)[..3], [CommitText(id)]);
      assert TxnTexts(prior, w) == TxnTexts(prior, w)[..3] + [CommitText(id)];
      return true;
    }
  }

  lemma ApplyFirst(f: RoomFile, r: Restore, rest: seq<Restore>)
    ensures ApplyAll(f, [r] + rest) == ApplyAll(Put(f, r.id, r.rec), rest)
  {
    assert ([r] + rest)[1..] == rest;
  }

  lemma ThreeLines(log: string, a: string, b: string, c: string)
    ensures log + Unlines([a]) + Unlines([b]) + Unlines([c]) == log + Unlines([a, b, c])
  {
    LogGrows(log, [a], [b]);
    LogGrows(log, [a] + [b], [c]);
    assert [a, b, c] == [a] + [b] + [c];
  }

  lemma FirstThree(a: string, b: string, c: string, d: string)
    ensures [a, b, c, d][..3] == [a, b, c]
  {
  }

  lemma LogGrows(log: string, ls: seq<string>, ms: seq<string>)
    ensures log + Unlines(ls) + Unlines(ms) == log + Unlines(ls + ms)
  {
    UnlinesConcat(ls, ms);
  }

  // The log and the file that a run of successful writes leaves are those the crash
  // theorems speak of.
  method RunWrites(db: Database, ws: seq<Write>)
    requires db.log == ""
    modifies db
    ensures db.rooms == RunFile(old(db.rooms), ws)
    ensures db.log == Unlines(RunTexts(old(db.rooms), ws))
  {
    ghost var f0 := db.rooms;
    for i := 0 to |ws|
      invariant db.rooms == RunFile(f0, ws[..i])
      invariant db.log == Unlines(RunTexts(f0, ws[..i]))
    {
      var _ := db.WriteRoom(ws[i].id, ws[i].rec, None);
      RunGrows(f0, ws, i);
    }
    assert ws[..|ws|] == ws;
  }

  lemma RunGrows(f0: RoomFile, ws: seq<Write>, i: nat)
    requires i < |ws|
    ensures RunFile(f0, ws[..i + 1]) == Put(RunFile(f0, ws[..i]), ws[i].id, ws[i].rec)
    ensures Unlines(RunTexts(f0, ws[..i + 1])) ==
            Unlines(RunTexts(f0, ws[..i])) + Unlines(TxnTexts(ReadRaw(RunFile(f0, ws[..i]), ws[i].id), ws[i]))
  {
    assert ws[..i + 1][..i] == ws[..i] && ws[..i + 1][i] == ws[i];
    UnlinesConcat(RunTexts(f0, ws[..i]), TxnTexts(ReadRaw(RunFile(f0, ws[..i]), ws[i].id), ws[i]));
  }

  // So are those that a run of successful and failed writes leaves.
  method RunAttempts(db: Database, ts: seq<Attempt>)
    requires db.log == ""
    modifies db
    ensures db.rooms == Mix(old(db.rooms), ts).file
    ensures db.log == Unlines(Mix(old(db.rooms), ts).texts)
  {
    ghost var f0 := db.rooms;
    for i := 0 to |ts|
      invariant db.rooms == Mix(f0, ts[..i]).file
      invariant db.log == Unlines(Mix(f0, ts[..i]).texts)
    {
      var _ := db.WriteRoom(ts[i].w.id, ts[i].w.rec, ts[i].torn);
      MixGrows(f0, ts, i);
    }
    assert ts[..|ts|] == ts;
  }

  lemma MixGrows(f0: RoomFile, ts: seq<Attempt>, i: nat)
    requires i < |ts|
    ensures var db := Mix(f0, ts[..i]);
            var prior := ReadRaw(db.file, ts[i].w.id);
            var lines := if ts[i].torn.None? then TxnTexts(prior, ts[i].w) else FailedTexts(prior, ts[i].w);
            && Mix(f0, ts[..i + 1]) == Try(db, ts[i])
            && Unlines(Mix(f0, ts[..i + 1]).texts) == Unlines(db.texts) + Unlines(lines)
  {
    var all := ts[..i + 1];
    assert all[..|all| - 1] == ts[..i] && all[|all| - 1] == ts[i];
    var db := Mix(f0, ts[..i]);
    var prior := ReadRaw(db.file, ts[i].w.id);
    UnlinesConcat(db.texts, if ts[i].torn.None? then TxnTexts(prior, ts[i].w) else FailedTexts(prior, ts[i].w));
  }
}
