/**
 Room records and the text the write-ahead log keeps of them.
 */
module RoomRecord {
  import opened Common
  import opened CText

  datatype Fields = Record(roomId: int32, name: string, password: string, isActive: int32, userCount: int32)

  // `room_name` holds 31 characters and a terminator, `password` 63 and a terminator.
  type Record = r: Fields | |r.name| <= 31 && |r.password| <= 63
    witness Record(0, "", "", 0, 0)

  // A record whose bytes are all zero: what a hole in the file reads as, and what
  // recovery writes to delete a record.
  const ZERO: Record := Record(0, "", "", 0, 0)

  // What `db_read_room` lets its caller see of a record.
  function Visible(r: Record): Option<Record> {
    if r.isActive != 0 then Some(r) else None
  }

  // ----- printing ------------------------------------------------------------------

  function Sep(x: string, y: string): string {
    x + " " + y
  }

  // "%d %s %s %d %d"
  function ShowFields(r: Record): string {
    Sep(ShowInt(r.roomId), Sep(r.name, Sep(r.password, Sep(ShowInt(r.isActive), ShowInt(r.userCount)))))
  }

  function OldLine(prior: Option<Record>): string {
    Sep("OLD", if prior.None? then "NULL" else ShowFields(prior.value))
  }

  function NewLine(r: Record): string {
    Sep("NEW", ShowFields(r))
  }

  // ----- parsing -------------------------------------------------------------------

  // `sscanf(line, "OLD %d %31s %63s %d %d", ...)` into a zeroed record: conversions stop
  // at the first one that does not match, and later fields keep their zeros.
  function ParseFields(s: string): (r: Record)
    ensures SpaceFree(r.name) && SpaceFree(r.password)
  {
    var id := ScanInt(s);
    if id.NoMatch? then ZERO
    else
      var name := ScanString(id.rest, 31);
      if name.NoMatch? then ZERO.(roomId := id.value)
      else
        var password := ScanString(name.rest, 63);
        if password.NoMatch? then ZERO.(roomId := id.value, name := name.value)
        else
          var active := ScanInt(password.rest);
          if active.NoMatch? then ZERO.(roomId := id.value, name := name.value, password := password.value)
          else
            var users := ScanInt(active.rest);
            Record(id.value, name.value, password.value, active.value,
                   if users.NoMatch? then 0 else users.value)
  }

  // The record that undoing a transaction writes, given its OLD line.
  function ReadOld(line: string): (r: Record)
    requires HasPrefix(line, "OLD")
    ensures SpaceFree(r.name) && SpaceFree(r.password)
  {
    if HasNull(line) then ZERO else ParseFields(line[3..])
  }

  // ----- when an OLD line reads as "OLD NULL" ----------------------------------------

  predicate HasSuffix(s: string, p: string) {
    |p| <= |s| && s[|s| - |p|..] == p
  }

  lemma {:induction false} PrefixSplits(x: string, y: string, u: string, v: string)
    requires SpaceFree(x) && SpaceFree(u)
    ensures HasPrefix(Sep(x, y), Sep(u, v)) <==> x == u && HasPrefix(y, v)
  {
    var line, p := Sep(x, y), Sep(u, v);
    assert |line| >= |p| ==> forall k | 0 <= k < |p| :: line[..|p|][k] == line[k];
    if |x| < |u| {
      assert line[|x|] == ' ' && p[|x|] == u[|x|];
    } else if |u| < |x| {
      assert line[|u|] == x[|u|] && p[|u|] == ' ';
    } else {
      assert |line| >= |p| ==> line[..|p|] == x + " " + y[..|v|];
      assert |line| >= |p| ==> line[..|p|][..|u|] == x && line[..|p|][|u| + 1..] == y[..|v|];
      assert p[..|u|] == u && p[|u| + 1..] == v;
    }
  }

  // An occurrence of two words around a space lies either across the first separator of
  // the text or entirely after it.
  lemma {:induction false} ContainsSplits(x: string, y: string, u: string, v: string)
    requires SpaceFree(x) && SpaceFree(u)
    ensures Contains(Sep(x, y), Sep(u, v)) <==> (HasSuffix(x, u) && HasPrefix(y, v)) || Contains(y, Sep(u, v))
  {
    PrefixSplits(x, y, u, v);
    if x == "" {
      assert Sep(x, y)[1..] == y;
    } else {
      assert Sep(x, y)[1..] == Sep(x[1..], y);
      ContainsSplits(x[1..], y, u, v);
      assert |u| < |x| ==> x[|x| - |u|..] == x[1..][|x| - 1 - |u|..];
    }
  }

  lemma {:induction false} SpaceFreeContainsNoSpace(s: string, u: string, v: string)
    requires SpaceFree(s)
    ensures !Contains(s, Sep(u, v))
  {
    var p := Sep(u, v);
    assert p[|u|] == ' ';
    assert |s| >= |p| ==> s[..|p|][|u|] == s[|u|];
    if s != "" {
      SpaceFreeContainsNoSpace(s[1..], u, v);
    }
  }

  predicate LooksNull(r: Record) {
    HasSuffix(r.name, "OLD") && HasPrefix(r.password, "NULL")
  }

  lemma NotAWord(v: int, y: string)
    ensures !HasSuffix(ShowInt(v), "OLD") && !HasPrefix(ShowInt(v), "NULL") && !HasPrefix(Sep(ShowInt(v), y), "NULL")
  {
    var s := ShowInt(v);
    assert |s| >= 3 ==> s[|s| - 3..][2] == s[|s| - 1];
    assert |s| >= 4 ==> s[..4][0] == s[0];
    assert |Sep(s, y)| >= 4 ==> Sep(s, y)[..4][0] == s[0];
  }

  lemma PrefixOfField(x: string, y: string)
    requires SpaceFree(x)
    ensures HasPrefix(Sep(x, y), "NULL") <==> HasPrefix(x, "NULL")
  {
    var s := Sep(x, y);
    assert |x| < 4 <= |s| ==> s[..4][|x|] == ' ' && "NULL"[|x|] != ' ';
    assert |x| >= 4 ==> s[..4] == x[..4];
  }

  predicate HasNull(s: string) {
    Contains(s, "OLD NULL")
  }

  lemma FieldSplits(x: string, y: string)
    requires SpaceFree(x)
    ensures HasNull(Sep(x, y)) <==> (HasSuffix(x, "OLD") && HasPrefix(y, "NULL")) || HasNull(y)
  {
    assert "OLD NULL" == Sep("OLD", "NULL");
    ContainsSplits(x, y, "OLD", "NULL");
  }

  lemma TwoWordsHaveNoNull(x: string, y: string)
    requires SpaceFree(x) && SpaceFree(y) && !HasPrefix(y, "NULL")
    ensures !HasNull(Sep(x, y))
  {
    assert "OLD NULL" == Sep("OLD", "NULL");
    FieldSplits(x, y);
    SpaceFreeContainsNoSpace(y, "OLD", "NULL");
  }

  lemma IntsHaveNoNull(a: int, c: int)
    ensures !HasNull(Sep(ShowInt(a), ShowInt(c))) && !HasPrefix(Sep(ShowInt(a), ShowInt(c)), "NULL")
  {
    NotAWord(a, ShowInt(c));
    NotAWord(c, "");
    TwoWordsHaveNoNull(ShowInt(a), ShowInt(c));
  }

  lemma NamedFieldsHaveNull(name: string, password: string, rest: string)
    requires SpaceFree(name) && SpaceFree(password) && !HasNull(rest) && !HasPrefix(rest, "NULL")
    ensures HasNull(Sep(name, Sep(password, rest))) <==> HasSuffix(name, "OLD") && HasPrefix(password, "NULL")
  {
    FieldSplits(password, rest);
    FieldSplits(name, Sep(password, rest));
    PrefixOfField(password, rest);
  }

  lemma FieldsHaveNull(r: Record)
    requires SpaceFree(r.name) && SpaceFree(r.password)
    ensures HasNull(ShowFields(r)) <==> LooksNull(r)
    ensures !HasPrefix(ShowFields(r), "NULL")
  {
    var s3 := Sep(ShowInt(r.isActive), ShowInt(r.userCount));
    IntsHaveNoNull(r.isActive, r.userCount);
    NamedFieldsHaveNull(r.name, r.password, s3);
    NotAWord(r.roomId, Sep(r.name, Sep(r.password, s3)));
    FieldSplits(ShowInt(r.roomId), Sep(r.name, Sep(r.password, s3)));
  }

  // For records without white space the `strstr` test misfires exactly on a name ending
  // in OLD followed by a password starting with NULL.
  lemma OldLineLooksNull(r: Record)
    requires SpaceFree(r.name) && SpaceFree(r.password)
    ensures HasNull(OldLine(Some(r))) <==> LooksNull(r)
  {
    FieldsHaveNull(r);
    FieldSplits("OLD", ShowFields(r));
  }

  // ----- what an OLD line parses to --------------------------------------------------

  // `sscanf` cannot see an empty field: the fields after it move forward.
  function Reparsed(r: Record): Record {
    var act, cnt := ShowInt(r.isActive), ShowInt(r.userCount);
    ShowIntLength(r.isActive); ShowIntLength(r.userCount);
    if r.name != "" && r.password != "" then r
    else if r.name != "" then Record(r.roomId, r.name, act, r.userCount, 0)
    else if r.password == "" then Record(r.roomId, act, cnt, 0, 0)
    else if |r.password| <= 31 then Record(r.roomId, r.password, act, r.userCount, 0)
    else Record(r.roomId, r.password[..31], r.password[31..], r.isActive, r.userCount)
  }

  lemma LastInt(v: int32)
    ensures ScanInt(" " + ShowInt(v)) == Match(v, "")
    ensures ScanString(" " + ShowInt(v), 63) == Match(ShowInt(v), "")
  {
    var s := ShowInt(v);
    ShowIntLength(v);
    SkipOne(s);
    assert s == s + "";
    ScanShownInt(" " + s, v, "");
    ScanToken(" " + s, s, "", 63);
  }

  lemma FirstInt(s: string, v: int32, y: string)
    requires SkipSpace(s) == Sep(ShowInt(v), y)
    ensures ScanInt(s) == Match(v, " " + y)
  {
    assert Sep(ShowInt(v), y) == ShowInt(v) + (" " + y);
    ScanShownInt(s, v, " " + y);
  }

  lemma FirstIntAsText(s: string, v: int32, y: string, width: nat)
    requires SkipSpace(s) == Sep(ShowInt(v), y) && width >= 11
    ensures ScanString(s, width) == Match(ShowInt(v), " " + y)
  {
    ShowIntLength(v);
    assert Sep(ShowInt(v), y) == ShowInt(v) + (" " + y);
    ScanToken(s, ShowInt(v), " " + y, width);
  }

  lemma TailInts(s: string, r: Record)
    requires SkipSpace(s) == Sep(ShowInt(r.isActive), ShowInt(r.userCount))
    ensures ScanInt(s) == Match(r.isActive, " " + ShowInt(r.userCount))
    ensures ScanInt(" " + ShowInt(r.userCount)) == Match(r.userCount, "")
    ensures ScanString(s, 31) == ScanString(s, 63) == Match(ShowInt(r.isActive), " " + ShowInt(r.userCount))
    ensures ScanString(" " + ShowInt(r.userCount), 63) == Match(ShowInt(r.userCount), "")
    ensures ScanInt("").NoMatch?
  {
    FirstInt(s, r.isActive, ShowInt(r.userCount));
    FirstIntAsText(s, r.isActive, ShowInt(r.userCount), 31);
    FirstIntAsText(s, r.isActive, ShowInt(r.userCount), 63);
    LastInt(r.userCount);
  }

  lemma ParseId(r: Record, s: string)
    ensures ScanInt(" " + Sep(ShowInt(r.roomId), s)) == Match(r.roomId, " " + s)
  {
    var line := Sep(ShowInt(r.roomId), s);
    assert line == ShowInt(r.roomId) + (" " + s);
    SkipOne(line);
    ScanShownInt(" " + line, r.roomId, " " + s);
  }

  // A non-empty field of printable width scans back and leaves what follows it.
  lemma ParseField(x: string, y: string, width: nat)
    requires x != "" && SpaceFree(x) && |x| <= width
    ensures ScanString(" " + Sep(x, y), width) == Match(x, " " + y)
  {
    assert Sep(x, y) == x + (" " + y);
    SkipOne(Sep(x, y));
    ScanToken(" " + Sep(x, y), x, " " + y, width);
  }

  // A field longer than the width is cut, and the rest of it is what follows.
  lemma ParseCutField(x: string, y: string, width: nat)
    requires 0 < width < |x| && SpaceFree(x)
    ensures ScanString(" " + Sep(x, y), width) == Match(x[..width], Sep(x[width..], y))
  {
    var s := Sep(x, y);
    assert s == x[..width] + Sep(x[width..], y);
    SkipOne(s);
    TokenSpanCut(x[..width], Sep(x[width..], y), width);
    assert s[..width] == x[..width] && s[width..] == Sep(x[width..], y);
  }

  lemma {:induction false} TokenSpanCut(tok: string, rest: string, width: nat)
    requires SpaceFree(tok) && |tok| == width
    ensures TokenSpan(tok + rest, width) == width
  {
    if width > 0 {
      assert (tok + rest)[1..] == tok[1..] + rest;
      TokenSpanCut(tok[1..], rest, width - 1);
    }
  }

  lemma ParseNamed(r: Record)
    requires SpaceFree(r.name) && SpaceFree(r.password) && r.name != ""
    ensures ParseFields(" " + ShowFields(r)) == Reparsed(r)
  {
    if r.password != "" {
      ParseBoth(r);
    } else {
      ParseNameOnly(r);
    }
  }

  lemma ParseBoth(r: Record)
    requires SpaceFree(r.name) && SpaceFree(r.password) && r.name != "" && r.password != ""
    ensures ParseFields(" " + ShowFields(r)) == Reparsed(r)
  {
    var s3 := Sep(ShowInt(r.isActive), ShowInt(r.userCount));
    var s2 := Sep(r.password, s3);
    ParseId(r, Sep(r.name, s2));
    ParseField(r.name, s2, 31);
    ParseField(r.password, s3, 63);
    SkipOne(s3);
    TailInts(" " + s3, r);
  }

  lemma ParseNameOnly(r: Record)
    requires SpaceFree(r.name) && r.name != "" && r.password == ""
    ensures ParseFields(" " + ShowFields(r)) == Reparsed(r)
  {
    var s3 := Sep(ShowInt(r.isActive), ShowInt(r.userCount));
    var s2 := Sep(r.password, s3);
    ParseId(r, Sep(r.name, s2));
    ParseField(r.name, s2, 31);
    assert " " + s2 == "  " + s3;
    SkipTwo(s3);
    TailInts("  " + s3, r);
  }

  // With an empty name the scan of the name starts at the password.
  lemma UnnamedTail(r: Record, s2: string)
    requires r.name == ""
    ensures ScanInt(" " + Sep(ShowInt(r.roomId), Sep(r.name, s2))) == Match(r.roomId, "  " + s2)
  {
    ParseId(r, Sep(r.name, s2));
    assert " " + Sep(r.name, s2) == "  " + s2;
  }

  lemma ParseNothing(r: Record)
    requires r.name == "" && r.password == ""
    ensures ParseFields(" " + ShowFields(r)) == Reparsed(r)
  {
    var s3 := Sep(ShowInt(r.isActive), ShowInt(r.userCount));
    UnnamedTail(r, Sep(r.password, s3));
    assert "  " + Sep(r.password, s3) == "   " + s3;
    SkipThree(s3);
    TailInts("   " + s3, r);
  }

  lemma SameScan(s: string, t: string, width: nat)
    requires SkipSpace(s) == SkipSpace(t)
    ensures ScanString(s, width) == ScanString(t, width)
  {
  }

  lemma ParsePasswordOnly(r: Record)
    requires SpaceFree(r.password) && r.name == "" && 0 < |r.password| <= 31
    ensures ParseFields(" " + ShowFields(r)) == Reparsed(r)
  {
    var s3 := Sep(ShowInt(r.isActive), ShowInt(r.userCount));
    var s2 := Sep(r.password, s3);
    UnnamedTail(r, s2);
    SkipOne(s2);
    SkipTwo(s2);
    SameScan(" " + s2, "  " + s2, 31);
    ParseField(r.password, s3, 31);
    SkipOne(s3);
    TailInts(" " + s3, r);
  }

  lemma ParseLongPasswordOnly(r: Record)
    requires SpaceFree(r.password) && r.name == "" && |r.password| > 31
    ensures ParseFields(" " + ShowFields(r)) == Reparsed(r)
  {
    var s3 := Sep(ShowInt(r.isActive), ShowInt(r.userCount));
    var s2 := Sep(r.password, s3);
    var tail := Sep(r.password[31..], s3);
    UnnamedTail(r, s2);
    SkipOne(s2);
    SkipTwo(s2);
    SameScan(" " + s2, "  " + s2, 31);
    ParseCutField(r.password, s3, 31);
    SkipOne(tail);
    SameScan(tail, " " + tail, 63);
    ParseField(r.password[31..], s3, 63);
    SkipOne(s3);
    TailInts(" " + s3, r);
  }

  // Reading the OLD line of any record without white space.
  lemma ReadOldLine(r: Record)
    requires SpaceFree(r.name) && SpaceFree(r.password)
    ensures HasPrefix(OldLine(Some(r)), "OLD")
    ensures ReadOld(OldLine(Some(r))) == if LooksNull(r) then ZERO else Reparsed(r)
  {
    var line := OldLine(Some(r));
    assert line[..3] == "OLD" && line[3..] == " " + ShowFields(r);
    OldLineLooksNull(r);
    if r.name != "" {
      ParseNamed(r);
    } else if r.password == "" {
      ParseNothing(r);
    } else if |r.password| <= 31 {
      ParsePasswordOnly(r);
    } else {
      ParseLongPasswordOnly(r);
    }
  }

  lemma ReadOldNull()
    ensures HasPrefix(OldLine(None), "OLD") && ReadOld(OldLine(None)) == ZERO
  {
    var line := OldLine(None);
    assert line == "OLD NULL";
    assert line[..3] == "OLD" && line[..8] == "OLD NULL";
  }

  // ----- main results ----------------------------------------------------------------

  predicate Loggable(r: Record) {
    && r.name != "" && SpaceFree(r.name)
    && r.password != "" && SpaceFree(r.password)
    && !LooksNull(r)
  }

  // A record comes back from its OLD line unchanged exactly when both strings are
  // non-empty and free of white space and the line does not read as "OLD NULL".
  lemma OldLineRoundTrip(r: Record)
    ensures HasPrefix(OldLine(Some(r)), "OLD")
    ensures ReadOld(OldLine(Some(r))) == r <==> Loggable(r)
  {
    assert OldLine(Some(r))[..3] == "OLD";
    if SpaceFree(r.name) && SpaceFree(r.password) {
      ReadOldLine(r);
    }
  }

  // The NEW line holds the new record: read like an OLD line, it gives it back where that would.
  lemma NewLineRoundTrip(r: Record)
    requires r.name != "" && SpaceFree(r.name) && r.password != "" && SpaceFree(r.password)
    ensures HasPrefix(NewLine(r), "NEW") && ParseFields(NewLine(r)[3..]) == r
  {
    var line := NewLine(r);
    assert line[..3] == "NEW" && line[3..] == " " + ShowFields(r);
    ParseBoth(r);
  }

  // Which records `db_read_room` shows unchanged after they went through the log.
  predicate SurvivesLog(r: Record) {
    if r.isActive != 0 then r.name != "" && r.password != "" && !LooksNull(r)
    else (r.name == "") == (r.password == "") || |r.password| > 31 || r.userCount == 0
  }

  lemma OldLineKeepsVisible(r: Record)
    requires SpaceFree(r.name) && SpaceFree(r.password)
    ensures HasPrefix(OldLine(Some(r)), "OLD")
    ensures Visible(ReadOld(OldLine(Some(r)))) == Visible(r) <==> SurvivesLog(r)
  {
    ReadOldLine(r);
  }

  // Log lines fit the 512-byte buffer they are formatted in, newline and terminator
  // included, so `snprintf` never cuts one.
  lemma LinesFitBuffer(r: Record)
    ensures |OldLine(Some(r))| + 2 <= 512 && |NewLine(r)| + 2 <= 512
    ensures |OldLine(Some(r))| <= 136
  {
    ShowIntLength(r.roomId);
    ShowIntLength(r.isActive);
    ShowIntLength(r.userCount);
  }
}
