/**
 Transactions of several threads in one log: which of them recovery undoes.
 */
module WalInterleave {
  import opened Common
  import opened CText
  import opened RoomRecord
  import opened Wal
  import opened WalCrash
  import opened WalRollback

  // ----- any log at all -------------------------------------------------------------------------

  // Line `k` comes after line `i` and no later than the next BEGIN after it.
  ghost predicate InGap(lines: seq<Line>, i: nat, k: nat) {
    i < k < |lines| && forall j :: i < j <= k ==> !lines[j].Begin?
  }

  // A COMMIT or ROLLBACK of this record.
  predicate Terminates(l: Line, id: RoomId) {
    l == Commit(id) || l == Rollback(id)
  }

  // The transaction begun at line `i` reaches a COMMIT or ROLLBACK of its record, whoever wrote
  // it, before the next BEGIN.
  ghost predicate Finished(lines: seq<Line>, i: nat)
    requires i < |lines| && lines[i].Begin?
  {
    exists k: nat :: InGap(lines, i, k) && Terminates(lines[k], lines[i].id)
  }

  // There is an OLD line, whoever wrote it, before the next BEGIN.
  ghost predicate HasOld(lines: seq<Line>, i: nat) {
    exists k: nat :: InGap(lines, i, k) && lines[k].Old?
  }

  ghost predicate Undoes(lines: seq<Line>, i: nat) {
    && i < |lines| && lines[i].Begin?
    && !Completed(lines[i + 1..], lines[i].id) && UndoRecord(lines[i + 1..]).Some?
  }

  ghost predicate UndoneBy(lines: seq<Line>, i: nat, r: Restore) {
    Undoes(lines, i) && r == Restore(lines[i].id, UndoRecord(lines[i + 1..]).value)
  }

  lemma GapTail(lines: seq<Line>, i: nat, k: nat)
    requires i + 1 < |lines| && !lines[i + 1].Begin? && i + 1 < k
    ensures InGap(lines, i, k) <==> InGap(lines, i + 1, k)
  {
  }

  lemma FinishedTail(lines: seq<Line>, i: nat, id: RoomId)
    requires i + 1 < |lines| && !lines[i + 1].Begin?
    ensures (exists k: nat :: InGap(lines, i, k) && Terminates(lines[k], id)) <==>
            Terminates(lines[i + 1], id) || exists k: nat :: InGap(lines, i + 1, k) && Terminates(lines[k], id)
  {
    if k: nat :| InGap(lines, i, k) && Terminates(lines[k], id) {
      if k > i + 1 {
        GapTail(lines, i, k);
      }
    }
    if k: nat :| InGap(lines, i + 1, k) && Terminates(lines[k], id) {
      GapTail(lines, i, k);
    }
    assert InGap(lines, i, i + 1);
  }

  lemma {:induction false} CompletedIff(lines: seq<Line>, i: nat, id: RoomId)
    requires i < |lines|
    ensures Completed(lines[i + 1..], id) <==> exists k: nat :: InGap(lines, i, k) && Terminates(lines[k], id)
    decreases |lines| - i
  {
    var rest := lines[i + 1..];
    if rest == [] {
      assert forall k: nat :: !InGap(lines, i, k);
    } else if rest[0].Begin? {
      assert forall k: nat :: !InGap(lines, i, k);
    } else {
      assert rest[0] == lines[i + 1] && rest[1..] == lines[i + 2..];
      CompletedIff(lines, i + 1, id);
      FinishedTail(lines, i, id);
    }
  }

  lemma OldTail(lines: seq<Line>, i: nat)
    requires i + 1 < |lines| && !lines[i + 1].Begin?
    ensures HasOld(lines, i) <==> lines[i + 1].Old? || HasOld(lines, i + 1)
  {
    if k: nat :| InGap(lines, i, k) && lines[k].Old? {
      if k > i + 1 {
        GapTail(lines, i, k);
      }
    }
    if k: nat :| InGap(lines, i + 1, k) && lines[k].Old? {
      GapTail(lines, i, k);
    }
    assert InGap(lines, i, i + 1);
  }

  lemma {:induction false} HasOldIff(lines: seq<Line>, i: nat)
    requires i < |lines|
    ensures UndoRecord(lines[i + 1..]).Some? <==> HasOld(lines, i)
    decreases |lines| - i
  {
    var rest := lines[i + 1..];
    if rest == [] {
      assert forall k: nat :: !InGap(lines, i, k);
    } else if rest[0].Begin? {
      assert forall k: nat :: !InGap(lines, i, k);
    } else {
      assert rest[0] == lines[i + 1] && rest[1..] == lines[i + 2..];
      HasOldIff(lines, i + 1);
      OldTail(lines, i);
    }
  }

  // The record put back is that of the first OLD line, whoever wrote it, before the next BEGIN.
  ghost predicate FirstOld(lines: seq<Line>, i: nat, k: nat, rec: Record) {
    InGap(lines, i, k) && lines[k] == Old(rec) && forall j :: i < j < k ==> !lines[j].Old?
  }

  lemma {:induction false} UndoRecordIs(lines: seq<Line>, i: nat, k: nat, rec: Record)
    requires FirstOld(lines, i, k, rec)
    ensures UndoRecord(lines[i + 1..]) == Some(rec)
    decreases k - i
  {
    var rest := lines[i + 1..];
    assert rest[0] == lines[i + 1] && rest[1..] == lines[i + 2..];
    if k > i + 1 {
      GapTail(lines, i, k);
      UndoRecordIs(lines, i + 1, k, rec);
    }
  }

  /**
   Recovery undoes the transaction begun at a line if and only if an OLD line, but no COMMIT or
   ROLLBACK of its record, comes before the next BEGIN.
   */
  lemma UndoesIff(lines: seq<Line>, i: nat)
    requires i < |lines| && lines[i].Begin?
    ensures Undoes(lines, i) <==> HasOld(lines, i) && !Finished(lines, i)
  {
    CompletedIff(lines, i, lines[i].id);
    HasOldIff(lines, i);
  }

  lemma UndoesShift(lines: seq<Line>, i: nat)
    requires lines != []
    ensures Undoes(lines[1..], i) <==> Undoes(lines, i + 1)
    ensures forall r :: UndoneBy(lines[1..], i, r) <==> UndoneBy(lines, i + 1, r)
  {
    assert i < |lines| - 1 ==> lines[1..][i + 1..] == lines[i + 2..];
  }

  lemma RestoresHead(lines: seq<Line>, r: Restore)
    requires lines != []
    ensures r in Restores(lines) <==> UndoneBy(lines, 0, r) || r in Restores(lines[1..])
  {
  }

  lemma UndoneSplit(lines: seq<Line>, r: Restore)
    requires lines != []
    ensures (exists i: nat :: UndoneBy(lines, i, r)) <==>
            UndoneBy(lines, 0, r) || exists i: nat :: UndoneBy(lines[1..], i, r)
  {
    if i: nat :| UndoneBy(lines[1..], i, r) {
      UndoesShift(lines, i);
      assert UndoneBy(lines, i + 1, r);
    }
    if i: nat :| UndoneBy(lines, i, r) && i > 0 {
      UndoesShift(lines, i - 1);
      assert UndoneBy(lines[1..], i - 1, r);
    }
  }

  // The restores recovery makes are those of the transactions it undoes.
  lemma {:induction false} RestoresIff(lines: seq<Line>, r: Restore)
    ensures r in Restores(lines) <==> exists i: nat :: UndoneBy(lines, i, r)
  {
    if lines != [] {
      RestoresIff(lines[1..], r);
      RestoresHead(lines, r);
      UndoneSplit(lines, r);
    }
  }

  /**
   Of any readable log, recovery restores a record if and only if some transaction among the
   lines it reads logged it and reaches no COMMIT or ROLLBACK before the next BEGIN.
   */
  lemma RecoveryUndoesIff(text: string, r: Restore)
    requires Readable(text)
    ensures var lines := ClassifyAll(Window(text));
            r in RestoresOf(text) <==>
            exists i :: UndoneBy(lines, i, r) && HasOld(lines, i) && !Finished(lines, i)
  {
    var lines := ClassifyAll(Window(text));
    RestoresIff(lines, r);
    if i: nat :| UndoneBy(lines, i, r) {
      UndoesIff(lines, i);
    }
  }

  // A log makes recovery write nothing exactly when every transaction with an OLD line before the
  // next BEGIN has its terminator there too.
  lemma LeftAloneIff(lines: seq<Line>)
    ensures Restores(lines) == [] <==>
            forall i: nat :: i < |lines| && lines[i].Begin? && HasOld(lines, i) ==> Finished(lines, i)
  {
    if Restores(lines) != [] {
      var r := Restores(lines)[0];
      RestoresIff(lines, r);
      var i: nat :| UndoneBy(lines, i, r);
      UndoesIff(lines, i);
    }
    if i: nat :| i < |lines| && lines[i].Begin? && HasOld(lines, i) && !Finished(lines, i) {
      UndoesIff(lines, i);
      var r := Restore(lines[i].id, UndoRecord(lines[i + 1..]).value);
      assert UndoneBy(lines, i, r);
      RestoresIff(lines, r);
    }
  }

  // ----- merges of committed transactions ---------------------------------------------------------

  // A committed transaction and the places of its four lines in a log.
  datatype Txn = Txn(id: RoomId, undo: Record, begin: nat, prior: nat, next: nat, commit: nat)

  ghost predicate WrittenIn(lines: seq<Line>, t: Txn) {
    && t.begin < t.prior < t.next < t.commit < |lines|
    && lines[t.begin] == Begin(t.id) && lines[t.prior] == Old(t.undo)
    && lines[t.next] == Other && lines[t.commit] == Commit(t.id)
  }

  predicate Owns(t: Txn, i: nat) {
    i == t.begin || i == t.prior || i == t.next || i == t.commit
  }

  // Every line belongs to some transaction.
  ghost predicate Covered(ts: seq<Txn>, i: nat) {
    exists x :: 0 <= x < |ts| && Owns(ts[x], i)
  }

  // Two transactions have no line in common.
  ghost predicate Disjoint(t: Txn, u: Txn) {
    forall i: nat :: Owns(t, i) ==> !Owns(u, i)
  }

  // The log is some merge of the lines of these transactions, each in its own order.
  ghost predicate Merge(lines: seq<Line>, ts: seq<Txn>) {
    && (forall x :: 0 <= x < |ts| ==> WrittenIn(lines, ts[x]))
    && (forall i :: 0 <= i < |lines| ==> Covered(ts, i))
    && (forall x, y :: 0 <= x < |ts| && 0 <= y < |ts| && x != y ==> Disjoint(ts[x], ts[y]))
  }

  // The BEGIN of `u` lies inside `t`.
  predicate Inside(t: Txn, u: Txn) {
    t.begin < u.begin < t.commit
  }

  ghost predicate Serial(ts: seq<Txn>) {
    forall x, y :: 0 <= x < |ts| && 0 <= y < |ts| ==> !Inside(ts[x], ts[y])
  }

  lemma Owner(lines: seq<Line>, ts: seq<Txn>, i: nat) returns (x: nat)
    requires Merge(lines, ts) && i < |lines|
    ensures x < |ts| && Owns(ts[x], i) && WrittenIn(lines, ts[x])
    ensures lines[i].Begin? ==> i == ts[x].begin
    ensures lines[i].Commit? ==> i == ts[x].commit
    ensures lines[i].Old? ==> i == ts[x].prior
  {
    assert Covered(ts, i);
    var k :| 0 <= k < |ts| && Owns(ts[k], i);
    assert WrittenIn(lines, ts[k]);
    x := k;
  }

  lemma SerialFinished(lines: seq<Line>, ts: seq<Txn>, x: nat)
    requires Merge(lines, ts) && Serial(ts) && x < |ts|
    ensures WrittenIn(lines, ts[x]) && Finished(lines, ts[x].begin)
  {
    var t := ts[x];
    forall j | t.begin < j <= t.commit
      ensures !lines[j].Begin?
    {
      var y := Owner(lines, ts, j);
      assert !Inside(t, ts[y]);
    }
    assert InGap(lines, t.begin, t.commit);
  }

  /**
   A log of committed transactions in which none begins inside another is left alone.
   */
  lemma SerialIsLeftAlone(lines: seq<Line>, ts: seq<Txn>)
    requires Merge(lines, ts) && Serial(ts)
    ensures Restores(lines) == []
  {
    if Restores(lines) != [] {
      var r := Restores(lines)[0];
      RestoresIff(lines, r);
      var i: nat :| UndoneBy(lines, i, r);
      UndoesIff(lines, i);
      var x := Owner(lines, ts, i);
      SerialFinished(lines, ts, x);
      assert false;
    }
  }

  // Transaction `u` has its OLD line, or its COMMIT, between the BEGIN of `t` and the next one.
  ghost predicate LendsOld(lines: seq<Line>, t: Txn, u: Txn) {
    InGap(lines, t.begin, u.prior)
  }

  ghost predicate LendsCommit(lines: seq<Line>, t: Txn, u: Txn) {
    u.id == t.id && InGap(lines, t.begin, u.commit)
  }

  /**
   When all committed transactions of any merge are left alone: each one before whose next BEGIN
   some OLD line stands, its own or another's, has some COMMIT of its record there too.
   */
  lemma MergeIsLeftAloneIff(lines: seq<Line>, ts: seq<Txn>)
    requires Merge(lines, ts)
    ensures Restores(lines) == [] <==>
            forall x, y :: 0 <= x < |ts| && 0 <= y < |ts| && LendsOld(lines, ts[x], ts[y]) ==>
              exists z :: 0 <= z < |ts| && LendsCommit(lines, ts[x], ts[z])
  {
    LeftAloneIff(lines);
    forall x: nat | x < |ts|
      ensures WrittenIn(lines, ts[x])
      ensures HasOld(lines, ts[x].begin) <==> exists y :: 0 <= y < |ts| && LendsOld(lines, ts[x], ts[y])
      ensures Finished(lines, ts[x].begin) <==> exists z :: 0 <= z < |ts| && LendsCommit(lines, ts[x], ts[z])
    {
      GapLenders(lines, ts, x);
    }
    forall i: nat | i < |lines| && lines[i].Begin?
      ensures exists x :: 0 <= x < |ts| && ts[x].begin == i
    {
      var x := Owner(lines, ts, i);
    }
  }

  lemma GapLenders(lines: seq<Line>, ts: seq<Txn>, x: nat)
    requires Merge(lines, ts) && x < |ts|
    ensures WrittenIn(lines, ts[x])
    ensures HasOld(lines, ts[x].begin) <==> exists y :: 0 <= y < |ts| && LendsOld(lines, ts[x], ts[y])
    ensures Finished(lines, ts[x].begin) <==> exists z :: 0 <= z < |ts| && LendsCommit(lines, ts[x], ts[z])
  {
    assert WrittenIn(lines, ts[x]);
    OldLenders(lines, ts, ts[x]);
    CommitLenders(lines, ts, ts[x]);
  }

  lemma OldLenders(lines: seq<Line>, ts: seq<Txn>, t: Txn)
    requires Merge(lines, ts)
    ensures HasOld(lines, t.begin) <==> exists y :: 0 <= y < |ts| && LendsOld(lines, t, ts[y])
  {
    if k: nat :| InGap(lines, t.begin, k) && lines[k].Old? {
      var y := Owner(lines, ts, k);
      assert LendsOld(lines, t, ts[y]);
    }
    if y :| 0 <= y < |ts| && LendsOld(lines, t, ts[y]) {
      assert WrittenIn(lines, ts[y]);
    }
  }

  lemma CommitLenders(lines: seq<Line>, ts: seq<Txn>, t: Txn)
    requires Merge(lines, ts) && WrittenIn(lines, t)
    ensures Finished(lines, t.begin) <==> exists z :: 0 <= z < |ts| && LendsCommit(lines, t, ts[z])
  {
    if k: nat :| InGap(lines, t.begin, k) && Terminates(lines[k], t.id) {
      var z := Owner(lines, ts, k);
      assert LendsCommit(lines, t, ts[z]);
    }
    if z :| 0 <= z < |ts| && LendsCommit(lines, t, ts[z]) {
      assert WrittenIn(lines, ts[z]);
    }
  }

  // Each OLD line directly follows its BEGIN.
  predicate Prompt(ts: seq<Txn>) {
    forall x :: 0 <= x < |ts| ==> ts[x].prior == ts[x].begin + 1
  }

  // Who wrote the terminator that a transaction with another BEGIN inside it runs into.
  lemma Borrowed(lines: seq<Line>, ts: seq<Txn>, x: nat, y: nat) returns (z: nat)
    requires Merge(lines, ts) && x < |ts| && y < |ts| && Inside(ts[x], ts[y])
    requires WrittenIn(lines, ts[x]) && Finished(lines, ts[x].begin)
    ensures z < |ts| && Inside(ts[z], ts[x])
  {
    var t := ts[x];
    var k: nat :| InGap(lines, t.begin, k) && Terminates(lines[k], t.id);
    assert WrittenIn(lines, ts[y]);
    z := Owner(lines, ts, k);
    var w := Owner(lines, ts, ts[z].begin);
    assert z != x ==> Disjoint(ts[z], t);
    assert Owns(ts[z], ts[z].begin) && Owns(t, t.begin);
  }

  lemma PromptlyUndone(lines: seq<Line>, t: Txn)
    requires WrittenIn(lines, t) && t.prior == t.begin + 1 && !Finished(lines, t.begin)
    ensures UndoneBy(lines, t.begin, Restore(t.id, t.undo))
  {
    var rest := lines[t.begin + 1..];
    assert rest[0] == lines[t.prior];
    assert UndoRecord(rest) == Some(t.undo);
    CompletedIff(lines, t.begin, t.id);
  }

  // Walking back to the first transaction that another begins inside of.
  lemma {:induction false} SomeoneIsUndone(lines: seq<Line>, ts: seq<Txn>, x: nat, y: nat) returns (z: nat)
    requires Merge(lines, ts) && Prompt(ts) && x < |ts| && y < |ts| && Inside(ts[x], ts[y])
    ensures z < |ts| && WrittenIn(lines, ts[z]) && UndoneBy(lines, ts[z].begin, Restore(ts[z].id, ts[z].undo))
    decreases ts[x].begin
  {
    var t := ts[x];
    assert WrittenIn(lines, t);
    if Finished(lines, t.begin) {
      var w := Borrowed(lines, ts, x, y);
      z := SomeoneIsUndone(lines, ts, w, x);
    } else {
      z := x;
      PromptlyUndone(lines, t);
    }
  }

  /**
   With each OLD line right behind its BEGIN, the committed transactions of a merge are all left
   alone if and only if none begins inside another. Otherwise recovery takes one of them back.
   */
  lemma LeftAloneIffSerial(lines: seq<Line>, ts: seq<Txn>)
    requires Merge(lines, ts) && Prompt(ts)
    ensures Restores(lines) == [] <==> Serial(ts)
    ensures !Serial(ts) ==> exists z :: 0 <= z < |ts| && Restore(ts[z].id, ts[z].undo) in Restores(lines)
  {
    if Serial(ts) {
      SerialIsLeftAlone(lines, ts);
    } else {
      var x, y :| 0 <= x < |ts| && 0 <= y < |ts| && Inside(ts[x], ts[y]);
      var z := SomeoneIsUndone(lines, ts, x, y);
      RestoresIff(lines, Restore(ts[z].id, ts[z].undo));
    }
  }

  // Recovery of a serial log, read from its text, changes nothing.
  lemma SerialLogIsLeftAlone(f: RoomFile, texts: seq<string>, lines: seq<Line>, ts: seq<Txn>)
    requires Reads(texts, lines) && |lines| <= MAX_LINES && Unreadable !in lines
    requires Merge(lines, ts) && Serial(ts)
    ensures Readable(Unlines(texts)) && Recover(f, Unlines(texts)) == f
  {
    RecoverReads(f, texts, lines);
    SerialIsLeftAlone(lines, ts);
  }

  // ----- BEGIN after BEGIN --------------------------------------------------------------------------

  // Both BEGIN lines come before both OLD lines.
  function TwoBegins(v: RoomId, uv: Record, w: RoomId, uw: Record): seq<Line> {
    [Begin(v), Begin(w), Old(uv), Old(uw), Other, Other]
  }

  /**
   Without that the equivalence fails: two transactions that begin one right after the other are
   not serial, yet nothing is undone, because the first has no OLD line before the next BEGIN.
   */
  lemma NestedYetLeftAlone(v: RoomId, uv: Record, w: RoomId, uw: Record)
    ensures var lines := TwoBegins(v, uv, w, uw) + [Commit(v), Commit(w)];
            var ts := [Txn(v, uv, 0, 2, 4, 6), Txn(w, uw, 1, 3, 5, 7)];
            Merge(lines, ts) && !Serial(ts) && Restores(lines) == []
  {
    var lines := TwoBegins(v, uv, w, uw) + [Commit(v), Commit(w)];
    var ts := [Txn(v, uv, 0, 2, 4, 6), Txn(w, uw, 1, 3, 5, 7)];
    assert Inside(ts[0], ts[1]);
    assert InGap(lines, 1, 7) && Terminates(lines[7], w);
    forall i | 0 <= i < |lines|
      ensures Covered(ts, i)
    {
      assert Owns(ts[0], i) || Owns(ts[1], i);
    }
    if Restores(lines) != [] {
      var r := Restores(lines)[0];
      RestoresIff(lines, r);
      var i: nat :| UndoneBy(lines, i, r);
      UndoesIff(lines, i);
      assert false;
    }
  }

  /**
   Two writers of one record. The second has not committed when the process dies, but the COMMIT
   of the first counts as its own, so whatever its torn write left is kept.
   */
  lemma UnfinishedIsKept(id: RoomId, uv: Record, uw: Record)
    ensures Restores(TwoBegins(id, uv, id, uw) + [Commit(id)]) == []
  {
    var lines := TwoBegins(id, uv, id, uw) + [Commit(id)];
    assert InGap(lines, 1, 6) && Terminates(lines[6], id);
    if Restores(lines) != [] {
      var r := Restores(lines)[0];
      RestoresIff(lines, r);
      var i: nat :| UndoneBy(lines, i, r);
      UndoesIff(lines, i);
      assert false;
    }
  }

  // ----- two writers ------------------------------------------------------------------------------

  // Two workers log their transactions one inside the other, and both commit.
  function InterleavedTexts(p: Option<Record>, v: Write, q: Option<Record>, w: Write): seq<string> {
    TxnTexts(p, v)[..3] + TxnTexts(q, w)[..3] + [CommitText(v.id), CommitText(w.id)]
  }

  function InterleavedLines(v: RoomId, uv: Record, w: RoomId, uw: Record): seq<Line> {
    [Begin(v), Old(uv), Other, Begin(w), Old(uw), Other, Commit(v), Commit(w)]
  }

  lemma InterleavedRestores(v: RoomId, uv: Record, w: RoomId, uw: Record)
    ensures Restores(InterleavedLines(v, uv, w, uw)) == [Restore(v, uv)]
  {
    var t6 := [Commit(v), Commit(w)];
    var t3 := [Begin(w), Old(uw), Other] + t6;
    InnerRestores(v, w, uw);
    StepOver(Other, t3, v);
    StepOver(Old(uv), [Other] + t3, v);
    assert !Completed(t3, v);
    assert [Old(uv)] + ([Other] + t3) == InterleavedLines(v, uv, w, uw)[1..];
    assert Restores(InterleavedLines(v, uv, w, uw)) == [Restore(v, uv)] + [];
  }

  // Lines other than BEGIN ask for no restore of their own.
  lemma StepOver(l: Line, rest: seq<Line>, id: RoomId)
    requires !l.Begin?
    ensures Restores([l] + rest) == Restores(rest)
    ensures Completed([l] + rest, id) <==> Ends(l, id) || Completed(rest, id)
    ensures UndoRecord([l] + rest) == if l.Old? then Some(l.rec) else UndoRecord(rest)
  {
    assert ([l] + rest)[1..] == rest;
  }

  lemma InnerRestores(v: RoomId, w: RoomId, uw: Record)
    ensures Restores([Begin(w), Old(uw), Other] + [Commit(v), Commit(w)]) == []
  {
    StepOver(Commit(w), [], w);
    StepOver(Commit(v), [Commit(w)], w);
    assert [Commit(v)] + [Commit(w)] == [Commit(v), Commit(w)] && [Commit(w)] + [] == [Commit(w)];
    var t6 := [Commit(v), Commit(w)];
    StepOver(Other, t6, w);
    StepOver(Old(uw), [Other] + t6, w);
    var all := [Begin(w), Old(uw), Other] + t6;
    assert all[1..] == [Old(uw)] + ([Other] + t6);
    assert Completed(all[1..], w);
  }

  lemma CommitsRead(v: RoomId, w: RoomId)
    ensures Reads([CommitText(v), CommitText(w)], [Commit(v), Commit(w)])
  {
    ReadCommit(v);
    ReadCommit(w);
    ReadsOne(CommitText(v), Commit(v));
    ReadsOne(CommitText(w), Commit(w));
    ReadsConcat([CommitText(v)], [Commit(v)], [CommitText(w)], [Commit(w)]);
    assert [CommitText(v)] + [CommitText(w)] == [CommitText(v), CommitText(w)];
    assert [Commit(v)] + [Commit(w)] == [Commit(v), Commit(w)];
  }

  lemma ThreePieces(a: seq<string>, la: seq<Line>, b: seq<string>, lb: seq<Line>, c: seq<string>, lc: seq<Line>)
    requires Reads(a, la) && Reads(b, lb) && Reads(c, lc)
    ensures Reads(a + b + c, la + lb + lc)
  {
    ReadsConcat(a, la, b, lb);
    ReadsConcat(a + b, la + lb, c, lc);
  }

  lemma InterleavedReads(p: Option<Record>, v: Write, q: Option<Record>, w: Write)
    requires Safe(v.rec) && Safe(w.rec) && (p.Some? ==> Safe(p.value)) && (q.Some? ==> Safe(q.value))
    ensures Reads(InterleavedTexts(p, v, q, w), InterleavedLines(v.id, Undone(p), w.id, Undone(q)))
  {
    HeadReads(p, v);
    HeadReads(q, w);
    CommitsRead(v.id, w.id);
    ThreePieces(TxnTexts(p, v)[..3], Head(v.id, Undone(p)), TxnTexts(q, w)[..3], Head(w.id, Undone(q)),
                [CommitText(v.id), CommitText(w.id)], [Commit(v.id), Commit(w.id)]);
    HeadsJoin(v.id, Undone(p), w.id, Undone(q));
  }

  lemma HeadsJoin(v: RoomId, uv: Record, w: RoomId, uw: Record)
    ensures Head(v, uv) + Head(w, uw) + [Commit(v), Commit(w)] == InterleavedLines(v, uv, w, uw)
  {
  }

  /**
   The search for a COMMIT stops at the next BEGIN, so of two interleaved transactions that
   both committed the first is undone by the next recovery.
   */
  lemma InterleavedCommitIsUndone(f: RoomFile, p: Option<Record>, v: Write, q: Option<Record>, w: Write)
    requires Safe(v.rec) && Safe(w.rec) && (p.Some? ==> Safe(p.value)) && (q.Some? ==> Safe(q.value))
    ensures Readable(Unlines(InterleavedTexts(p, v, q, w)))
    ensures Recover(f, Unlines(InterleavedTexts(p, v, q, w))) == Put(f, v.id, Undone(p))
  {
    InterleavedReads(p, v, q, w);
    RecoverInterleaved(f, InterleavedTexts(p, v, q, w), v.id, Undone(p), w.id, Undone(q));
  }

  lemma RecoverInterleaved(f: RoomFile, texts: seq<string>, v: RoomId, uv: Record, w: RoomId, uw: Record)
    requires Reads(texts, InterleavedLines(v, uv, w, uw))
    ensures Readable(Unlines(texts)) && Recover(f, Unlines(texts)) == Put(f, v, uv)
  {
    RecoverReads(f, texts, InterleavedLines(v, uv, w, uw));
    InterleavedRestores(v, uv, w, uw);
    OneRestore(f, v, uv);
  }

  lemma RecoverReads(f: RoomFile, texts: seq<string>, lines: seq<Line>)
    requires Reads(texts, lines) && |lines| <= MAX_LINES && Unreadable !in lines
    ensures Readable(Unlines(texts)) && Recover(f, Unlines(texts)) == ApplyAll(f, Restores(lines))
  {
    WindowReads(texts, lines);
  }

  // ----- two writers of one record --------------------------------------------------------------------

  // The second writer's transaction stands inside the first's, and only the first commits.
  function BorrowedLines(id: RoomId, uv: Record, uw: Record): seq<Line> {
    [Begin(id), Old(uv), Other, Begin(id), Old(uw), Other, Commit(id)]
  }

  lemma BorrowedRestores(id: RoomId, uv: Record, uw: Record)
    ensures Restores(BorrowedLines(id, uv, uw)) == [Restore(id, uv)]
  {
    var t3 := [Begin(id), Old(uw), Other] + [Commit(id)];
    StepOver(Commit(id), [], id);
    StepOver(Other, [Commit(id)], id);
    StepOver(Old(uw), [Other] + [Commit(id)], id);
    assert [Commit(id)] + [] == [Commit(id)];
    assert t3[1..] == [Old(uw)] + ([Other] + [Commit(id)]);
    StepOver(Other, t3, id);
    StepOver(Old(uv), [Other] + t3, id);
    assert BorrowedLines(id, uv, uw)[1..] == [Old(uv)] + ([Other] + t3);
  }

  /**
   Both transactions come out wrong: the committed one is taken back, and the unfinished one
   passes for complete on the other's COMMIT.
   */
  lemma BorrowedCommit(f: RoomFile, p: Option<Record>, v: Write, q: Option<Record>, w: Write)
    requires Safe(v.rec) && Safe(w.rec) && (p.Some? ==> Safe(p.value)) && (q.Some? ==> Safe(q.value))
    requires v.id == w.id
    ensures var texts := TxnTexts(p, v)[..3] + TxnTexts(q, w)[..3] + [CommitText(v.id)];
            Readable(Unlines(texts)) && Recover(f, Unlines(texts)) == Put(f, v.id, Undone(p))
  {
    HeadReads(p, v);
    HeadReads(q, w);
    ReadCommit(v.id);
    ReadsOne(CommitText(v.id), Commit(v.id));
    ThreePieces(TxnTexts(p, v)[..3], Head(v.id, Undone(p)), TxnTexts(q, w)[..3], Head(w.id, Undone(q)),
                [CommitText(v.id)], [Commit(v.id)]);
    BorrowedJoin(v.id, Undone(p), Undone(q));
    RecoverReads(f, TxnTexts(p, v)[..3] + TxnTexts(q, w)[..3] + [CommitText(v.id)],
                 BorrowedLines(v.id, Undone(p), Undone(q)));
    BorrowedRestores(v.id, Undone(p), Undone(q));
    OneRestore(f, v.id, Undone(p));
  }

  lemma BorrowedJoin(id: RoomId, uv: Record, uw: Record)
    ensures Head(id, uv) + Head(id, uw) + [Commit(id)] == BorrowedLines(id, uv, uw)
    ensures Unreadable !in BorrowedLines(id, uv, uw)
  {
  }
}
