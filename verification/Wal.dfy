/**
 The room file, the write-ahead log and crash recovery, as functions on values.
 */
module Wal {
  import opened Common
  import opened CText
  import opened RoomRecord

  const MAX_LINES: nat := 512

  type RoomId = x: int | 0 <= x < 0x8000_0000

  // The room file: one fixed-size record per room id.
  type RoomFile = seq<Record>

  function ReadRaw(f: RoomFile, id: nat): Option<Record> {
    if id < |f| then Some(f[id]) else None
  }

  function ReadRoom(f: RoomFile, id: nat): Option<Record> {
    if id < |f| then Visible(f[id]) else None
  }

  // Writing past the end leaves a hole, which reads as zero records.
  function Put(f: RoomFile, id: nat, r: Record): (g: RoomFile)
    ensures |g| == if id < |f| then |f| else id + 1
    ensures g[id] == r
    ensures forall i: nat {:trigger g[i]} :: i < |g| && i != id ==> g[i] == if i < |f| then f[i] else ZERO
    ensures forall i: nat :: ReadRoom(g, i) == if i == id then Visible(r) else ReadRoom(f, i)
  {
    if id < |f| then f[id := r] else f + seq(id - |f|, _ => ZERO) + [r]
  }

  // ----- log lines -----------------------------------------------------------------

  function BeginText(id: RoomId): string { Sep("BEGIN", ShowInt(id)) }
  function CommitText(id: RoomId): string { Sep("COMMIT", ShowInt(id)) }
  function RollbackText(id: RoomId): string { Sep("ROLLBACK", ShowInt(id)) }

  // What recovery reads in a line. An OLD line stands for the record that undoing the
  // transaction writes. `Unreadable` is a line whose id does not scan or is negative: the
  // C code then goes on with an indeterminate id, which is not modelled.
  datatype Line = Begin(id: RoomId) | Old(rec: Record) | Commit(end: int32) | Rollback(end: int32) | Other | Unreadable

  function Classify(l: string): Line {
    if HasPrefix(l, "BEGIN") then
      var id := ScanInt(l[5..]);
      if id.Match? && id.value >= 0 then Begin(id.value) else Unreadable
    else if HasPrefix(l, "OLD") then Old(ReadOld(l))
    else if HasPrefix(l, "COMMIT") then
      var id := ScanInt(l[6..]);
      if id.Match? then Commit(id.value) else Unreadable
    else if HasPrefix(l, "ROLLBACK") then
      var id := ScanInt(l[8..]);
      if id.Match? then Rollback(id.value) else Unreadable
    else Other
  }

  function ClassifyAll(ls: seq<string>): (r: seq<Line>)
    ensures |r| == |ls| && forall i :: 0 <= i < |ls| ==> r[i] == Classify(ls[i])
  {
    seq(|ls|, i requires 0 <= i < |ls| => Classify(ls[i]))
  }

  // ----- recovery ------------------------------------------------------------------

  // Of a log's lines only the first 512 are read.
  function Window(text: string): (lines: seq<string>)
    ensures |lines| <= MAX_LINES
  {
    var lines := Tokens(text);
    if |lines| <= MAX_LINES then lines else lines[..MAX_LINES]
  }

  predicate Readable(text: string) {
    Unreadable !in ClassifyAll(Window(text))
  }

  predicate Ends(l: Line, id: RoomId) {
    (l.Commit? || l.Rollback?) && l.end == id
  }

  // Does the transaction whose BEGIN precedes `lines` reach its COMMIT or ROLLBACK
  // before the next BEGIN?
  predicate Completed(lines: seq<Line>, id: RoomId) {
    if lines == [] || lines[0].Begin? then false
    else Ends(lines[0], id) || Completed(lines[1..], id)
  }

  // The record that `wal_restore_old` puts back, if the transaction logged one.
  function UndoRecord(lines: seq<Line>): Option<Record> {
    if lines == [] || lines[0].Begin? then None
    else if lines[0].Old? then Some(lines[0].rec)
    else UndoRecord(lines[1..])
  }

  datatype Restore = Restore(id: RoomId, rec: Record)

  // The writes recovery makes to the room file, in order.
  function Restores(lines: seq<Line>): seq<Restore> {
    if lines == [] then []
    else
      var rest := Restores(lines[1..]);
      if lines[0].Begin? && !Completed(lines[1..], lines[0].id) && UndoRecord(lines[1..]).Some?
      then [Restore(lines[0].id, UndoRecord(lines[1..]).value)] + rest
      else rest
  }

  function ApplyAll(f: RoomFile, rs: seq<Restore>): RoomFile
    decreases rs
  {
    if rs == [] then f else ApplyAll(Put(f, rs[0].id, rs[0].rec), rs[1..])
  }

  lemma OneRestore(f: RoomFile, id: RoomId, rec: Record)
    ensures ApplyAll(f, [Restore(id, rec)]) == Put(f, id, rec)
  {
    var rs := [Restore(id, rec)];
    assert rs[1..] == [];
    assert ApplyAll(f, rs) == ApplyAll(Put(f, id, rec), []);
  }

  // The writes recovery makes for a log.
  function RestoresOf(text: string): seq<Restore> {
    Restores(ClassifyAll(Window(text)))
  }

  function Recover(f: RoomFile, text: string): RoomFile
    requires Readable(text)
  {
    ApplyAll(f, RestoresOf(text))
  }

  // ----- recovery can be interrupted -------------------------------------------------

  ghost function At(f: RoomFile, i: nat): Record {
    if i < |f| then f[i] else ZERO
  }

  // The value a batch of restores leaves at an index: that of the last one there.
  ghost function LastAt(f: RoomFile, rs: seq<Restore>, i: nat): Record {
    if rs == [] then At(f, i)
    else if rs[|rs| - 1].id == i then rs[|rs| - 1].rec
    else LastAt(f, rs[..|rs| - 1], i)
  }

  // The length of the file a batch of restores leaves.
  ghost function Extent(f: RoomFile, rs: seq<Restore>): nat {
    if rs == [] then |f|
    else
      var e := Extent(f, rs[..|rs| - 1]);
      if rs[|rs| - 1].id < e then e else rs[|rs| - 1].id + 1
  }

  lemma {:induction false} ApplySnoc(f: RoomFile, rs: seq<Restore>, r: Restore)
    ensures ApplyAll(f, rs + [r]) == Put(ApplyAll(f, rs), r.id, r.rec)
    decreases rs
  {
    if rs == [] {
      assert rs + [r] == [r] && [r][1..] == [];
      assert ApplyAll(f, [r]) == ApplyAll(Put(f, r.id, r.rec), []);
    } else {
      assert (rs + [r])[1..] == rs[1..] + [r];
      ApplySnoc(Put(f, rs[0].id, rs[0].rec), rs[1..], r);
    }
  }

  lemma {:induction false} ApplyPointwise(f: RoomFile, rs: seq<Restore>, i: nat)
    ensures |ApplyAll(f, rs)| == Extent(f, rs)
    ensures At(ApplyAll(f, rs), i) == LastAt(f, rs, i)
  {
    if rs != [] {
      var init, r := rs[..|rs| - 1], rs[|rs| - 1];
      assert rs == init + [r];
      ApplyPointwise(f, init, i);
      ApplySnoc(f, init, r);
    }
  }

  ghost predicate Touches(rs: seq<Restore>, i: nat) {
    rs != [] && (rs[|rs| - 1].id == i || Touches(rs[..|rs| - 1], i))
  }

  lemma {:induction false} TouchesPrefix(rs: seq<Restore>, k: nat, i: nat)
    requires k <= |rs| && !Touches(rs, i)
    ensures !Touches(rs[..k], i)
  {
    if k == |rs| {
      assert rs[..k] == rs;
    } else {
      TouchesPrefix(rs[..|rs| - 1], k, i);
      assert rs[..|rs| - 1][..k] == rs[..k];
    }
  }

  // What a batch leaves at an index does not depend on the file unless no restore goes there.
  lemma {:induction false} LastAtBase(f: RoomFile, g: RoomFile, rs: seq<Restore>, i: nat)
    ensures Touches(rs, i) ==> LastAt(f, rs, i) == LastAt(g, rs, i)
    ensures !Touches(rs, i) ==> LastAt(f, rs, i) == At(f, i)
  {
    if rs != [] {
      LastAtBase(f, g, rs[..|rs| - 1], i);
    }
  }

  lemma {:induction false} ExtentBase(f: RoomFile, rs: seq<Restore>)
    ensures Extent(f, rs) == if |f| < Extent([], rs) then Extent([], rs) else |f|
  {
    if rs != [] {
      ExtentBase(f, rs[..|rs| - 1]);
    }
  }

  lemma {:induction false} ExtentGrows(rs: seq<Restore>, k: nat)
    requires k <= |rs|
    ensures Extent([], rs[..k]) <= Extent([], rs)
  {
    if k == |rs| {
      assert rs[..k] == rs;
    } else {
      ExtentGrows(rs[..|rs| - 1], k);
      assert rs[..|rs| - 1][..k] == rs[..k];
    }
  }

  // Stopping after any number of restores and starting the batch over changes nothing.
  lemma ReplayAfterPrefix(f: RoomFile, rs: seq<Restore>, k: nat)
    requires k <= |rs|
    ensures ApplyAll(ApplyAll(f, rs[..k]), rs) == ApplyAll(f, rs)
  {
    var g := ApplyAll(f, rs[..k]);
    ExtentBase(f, rs[..k]);
    ExtentBase(f, rs);
    ExtentBase(g, rs);
    ExtentGrows(rs, k);
    ApplyPointwise(f, rs[..k], 0);
    ApplyPointwise(g, rs, 0);
    ApplyPointwise(f, rs, 0);
    var x, y := ApplyAll(g, rs), ApplyAll(f, rs);
    assert |x| == |y|;
    forall i: nat | i < |x|
      ensures x[i] == y[i]
    {
      ApplyPointwise(f, rs[..k], i);
      ApplyPointwise(g, rs, i);
      ApplyPointwise(f, rs, i);
      LastAtBase(f, g, rs, i);
      LastAtBase(g, f, rs, i);
      LastAtBase(f, f, rs[..k], i);
      if !Touches(rs, i) {
        TouchesPrefix(rs, k, i);
      }
    }
  }

  // Recovery is restartable: the log is only truncated once every restore is done, so a
  // second run sees the same log, and it ends with the file one undisturbed run gives.
  lemma RecoverRestartable(f: RoomFile, text: string, k: nat)
    requires Readable(text) && k <= |RestoresOf(text)|
    ensures Recover(ApplyAll(f, RestoresOf(text)[..k]), text) == Recover(f, text)
  {
    ReplayAfterPrefix(f, RestoresOf(text), k);
  }
}
