/**
 The fragments of `snprintf`, `sscanf` and `strtok` that the write-ahead log relies on.

 A C string is the sequence of its characters before the terminator, so no value here
 contains a terminator of its own.
 */
module CText {
  import opened Common

  type int32 = x: int | -0x8000_0000 <= x < 0x8000_0000

  // The characters `sscanf` skips as white space in the C locale.
  predicate IsSpace(c: char) {
    c == ' ' || c == '\t' || c == '\n' || c == '\r' || c == '\U{B}' || c == '\U{C}'
  }

  predicate IsDigit(c: char) {
    '0' <= c <= '9'
  }

  predicate SpaceFree(s: string) {
    forall i :: 0 <= i < |s| ==> !IsSpace(s[i])
  }

  predicate AllDigits(s: string) {
    forall i :: 0 <= i < |s| ==> IsDigit(s[i])
  }

  predicate HasPrefix(s: string, p: string) {
    |p| <= |s| && s[..|p|] == p
  }

  // `strstr(s, p) != NULL`
  predicate Contains(s: string, p: string) {
    HasPrefix(s, p) || (s != "" && Contains(s[1..], p))
  }

  // ----- %d output ---------------------------------------------------------------

  function DigitChar(d: nat): (c: char)
    requires d < 10
    ensures IsDigit(c) && c as int - '0' as int == d
  {
    '0' + d as char
  }

  function Digits(n: nat): (s: string)
    ensures s != "" && AllDigits(s) && SpaceFree(s)
  {
    if n < 10 then [DigitChar(n)] else Digits(n / 10) + [DigitChar(n % 10)]
  }

  function ShowInt(v: int): (s: string)
    ensures s != "" && SpaceFree(s) && (IsDigit(s[0]) || s[0] == '-') && IsDigit(s[|s| - 1])
  {
    if v < 0 then "-" + Digits(Abs(v)) else Digits(Abs(v))
  }

  ghost function Pow10(k: nat): nat {
    if k == 0 then 1 else 10 * Pow10(k - 1)
  }

  lemma {:induction false} DigitsLength(n: nat, k: nat)
    ensures k > 0 && n < Pow10(k) ==> |Digits(n)| <= k
  {
    if n >= 10 && k > 1 {
      DigitsLength(n / 10, k - 1);
    } else if k == 1 {
      assert Pow10(1) == 10 * Pow10(0);
    }
  }

  // Every 32-bit value prints in at most eleven characters.
  lemma ShowIntLength(v: int32)
    ensures |ShowInt(v)| <= 11
  {
    assert Pow10(10) == 10_000_000_000 by {
      assert Pow10(5) == 100_000;
      assert Pow10(7) == 100 * Pow10(5);
      assert Pow10(9) == 100 * Pow10(7);
    }
    DigitsLength(Abs(v), 10);
  }

  // ----- %d and %s input ---------------------------------------------------------

  datatype Scan<T> = NoMatch | Match(value: T, rest: string)

  function SkipSpace(s: string): (r: string)
    ensures |r| <= |s| && (r != "" ==> !IsSpace(r[0]))
  {
    if s != "" && IsSpace(s[0]) then SkipSpace(s[1..]) else s
  }

  function DigitSpan(s: string): (n: nat)
    ensures n <= |s| && AllDigits(s[..n])
  {
    if s != "" && IsDigit(s[0]) then
      var n := 1 + DigitSpan(s[1..]);
      assert s[..n] == [s[0]] + s[1..][..n - 1];
      n
    else 0
  }

  function ValueOf(s: string): nat
    requires AllDigits(s)
  {
    if s == "" then 0
    else ValueOf(s[..|s| - 1]) * 10 + (s[|s| - 1] as int - '0' as int)
  }

  // `%d` stores the low 32 bits of the value, which it first saturates to 64 bits.
  function StoreInt(v: int): int32 {
    var long := if v > 0x7fff_ffff_ffff_ffff then 0x7fff_ffff_ffff_ffff
                else if v < -0x8000_0000_0000_0000 then -0x8000_0000_0000_0000
                else v;
    (long + 0x8000_0000) % 0x1_0000_0000 - 0x8000_0000
  }

  // What follows the sign.
  function ScanMagnitude(body: string, negative: bool): Scan<int32> {
    var n := DigitSpan(body);
    if n == 0 then NoMatch
    else
      var v: int := ValueOf(body[..n]);
      Match(StoreInt(if negative then -v else v), body[n..])
  }

  function ScanInt(s: string): Scan<int32> {
    var t := SkipSpace(s);
    var signed := t != "" && (t[0] == '-' || t[0] == '+');
    ScanMagnitude(if signed then t[1..] else t, signed && t[0] == '-')
  }

  function TokenSpan(s: string, width: nat): (n: nat)
    ensures n <= |s| && n <= width && SpaceFree(s[..n])
  {
    if width > 0 && s != "" && !IsSpace(s[0]) then
      var n := 1 + TokenSpan(s[1..], width - 1);
      assert s[..n] == [s[0]] + s[1..][..n - 1];
      n
    else 0
  }

  // `%<width>s`
  function ScanString(s: string, width: nat): (r: Scan<string>)
    ensures r.Match? ==> 0 < |r.value| <= width && SpaceFree(r.value)
  {
    var t := SkipSpace(s);
    var n := TokenSpan(t, width);
    if n == 0 then NoMatch else Match(t[..n], t[n..])
  }

  // ----- what is printed scans back ----------------------------------------------

  lemma {:induction false} ValueOfDigits(n: nat)
    ensures ValueOf(Digits(n)) == n
  {
    if n >= 10 {
      ValueOfDigits(n / 10);
      var s := Digits(n);
      assert s[..|s| - 1] == Digits(n / 10);
    }
  }

  lemma {:induction false} DigitSpanOf(ds: string, rest: string)
    requires AllDigits(ds) && (rest == "" || !IsDigit(rest[0]))
    ensures DigitSpan(ds + rest) == |ds|
  {
    if ds == "" {
      assert ds + rest == rest;
    } else {
      assert (ds + rest)[1..] == ds[1..] + rest;
      DigitSpanOf(ds[1..], rest);
    }
  }

  lemma {:induction false} TokenSpanOf(tok: string, rest: string, width: nat)
    requires SpaceFree(tok) && |tok| <= width && (rest == "" || IsSpace(rest[0]))
    ensures TokenSpan(tok + rest, width) == |tok|
  {
    if tok == "" {
      assert tok + rest == rest;
    } else {
      assert (tok + rest)[1..] == tok[1..] + rest;
      TokenSpanOf(tok[1..], rest, width - 1);
    }
  }

  lemma SkipOne(s: string)
    requires s == "" || !IsSpace(s[0])
    ensures SkipSpace(" " + s) == s
  {
    assert (" " + s)[1..] == s;
  }

  lemma SkipTwo(s: string)
    requires s == "" || !IsSpace(s[0])
    ensures SkipSpace("  " + s) == s
  {
    assert ("  " + s)[1..] == " " + s;
    SkipOne(s);
  }

  lemma SkipThree(s: string)
    requires s == "" || !IsSpace(s[0])
    ensures SkipSpace("   " + s) == s
  {
    assert ("   " + s)[1..] == "  " + s;
    SkipTwo(s);
  }

  lemma StoreInt32(v: int32)
    ensures StoreInt(v) == v
  {
  }

  lemma ScanDigits(n: nat, rest: string)
    requires rest == "" || !IsDigit(rest[0])
    ensures var body := Digits(n) + rest;
            var k := DigitSpan(body);
            k > 0 && ValueOf(body[..k]) == n && body[k..] == rest
  {
    var ds := Digits(n);
    ValueOfDigits(n);
    DigitSpanOf(ds, rest);
    assert (ds + rest)[..|ds|] == ds;
    assert (ds + rest)[|ds|..] == rest;
  }

  lemma ScanShownMagnitude(v: int32, rest: string)
    requires rest == "" || !IsDigit(rest[0])
    ensures ScanMagnitude(Digits(Abs(v)) + rest, v < 0) == Match(v, rest)
  {
    StoreInt32(v);
    ScanDigits(Abs(v), rest);
  }

  lemma SignInFront(ds: string, rest: string)
    ensures var t := "-" + ds + rest;
            t != "" && t[0] == '-' && t[1..] == ds + rest
  {
  }

  lemma DigitInFront(ds: string, rest: string)
    requires ds != "" && AllDigits(ds)
    ensures ds + rest != "" && (ds + rest)[0] != '-' && (ds + rest)[0] != '+'
  {
    assert (ds + rest)[0] == ds[0];
  }

  // Scanning an integer depends only on what follows the leading white space.
  lemma ScanShownInt(s: string, v: int32, rest: string)
    requires SkipSpace(s) == ShowInt(v) + rest
    requires rest == "" || !IsDigit(rest[0])
    ensures ScanInt(s) == Match(v, rest)
  {
    var ds := Digits(Abs(v));
    ScanShownMagnitude(v, rest);
    SignInFront(ds, rest);
    DigitInFront(ds, rest);
  }

  lemma ScanToken(s: string, tok: string, rest: string, width: nat)
    requires SkipSpace(s) == tok + rest
    requires tok != "" && SpaceFree(tok) && |tok| <= width && (rest == "" || IsSpace(rest[0]))
    ensures ScanString(s, width) == Match(tok, rest)
  {
    TokenSpanOf(tok, rest, width);
    assert (tok + rest)[..|tok|] == tok && (tok + rest)[|tok|..] == rest;
  }

  // ----- strtok(buffer, "\n") ----------------------------------------------------

  predicate LineText(s: string) {
    s != "" && '\n' !in s
  }

  function LineSpan(s: string): (n: nat)
    ensures n <= |s| && '\n' !in s[..n] && (n < |s| ==> s[n] == '\n')
  {
    if s != "" && s[0] != '\n' then 1 + LineSpan(s[1..]) else 0
  }

  // All the tokens `strtok` yields: maximal newline-free pieces, the empty ones skipped.
  function Tokens(text: string): (ls: seq<string>)
    ensures forall l :: l in ls ==> LineText(l)
    decreases |text|
  {
    if text == "" then []
    else if text[0] == '\n' then Tokens(text[1..])
    else
      var n := LineSpan(text);
      [text[..n]] + Tokens(text[n..])
  }

  // A log holding the given lines, each ended by a newline.
  function Unlines(ls: seq<string>): string {
    if ls == [] then "" else ls[0] + "\n" + Unlines(ls[1..])
  }

  lemma {:induction false} LineSpanOf(l: string, rest: string)
    requires '\n' !in l
    ensures LineSpan(l + "\n" + rest) == |l|
  {
    if l == "" {
      assert l + "\n" + rest == "\n" + rest;
    } else {
      assert (l + "\n" + rest)[1..] == l[1..] + "\n" + rest;
      LineSpanOf(l[1..], rest);
    }
  }

  // Reading a log back gives the lines it was written from.
  lemma {:induction false} TokensOfUnlines(ls: seq<string>)
    requires forall l :: l in ls ==> LineText(l)
    ensures Tokens(Unlines(ls)) == ls
  {
    if ls != [] {
      var l, rest := ls[0], Unlines(ls[1..]);
      assert LineText(l);
      LineSpanOf(l, rest);
      var text := l + "\n" + rest;
      assert text[..|l|] == l;
      assert text[|l|..] == "\n" + rest;
      assert ("\n" + rest)[1..] == rest;
      TokensOfUnlines(ls[1..]);
    }
  }

  lemma {:induction false} UnlinesConcat(a: seq<string>, b: seq<string>)
    ensures Unlines(a + b) == Unlines(a) + Unlines(b)
  {
    if a == [] {
      assert a + b == b;
    } else {
      assert (a + b)[1..] == a[1..] + b;
      UnlinesConcat(a[1..], b);
    }
  }
}
