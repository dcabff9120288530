/** The handful of Python string builtins the scraper relies on:
    `str.split` with a one-character separator, `str.strip`, the substring
    test `t in s`, `str.isdigit`/`int` on ASCII digit strings and the
    decimal rendering of an integer by `str.format`. */
module Text {

  // ---------------------------------------------------------------------
  // Splitting and joining

  /** The pieces joined back together with `sep` between them. */
  function Join(parts: seq<string>, sep: char): string
    requires |parts| >= 1
  {
    if |parts| == 1 then parts[0] else parts[0] + [sep] + Join(parts[1..], sep)
  }

  /** The position of the first `sep` in `s`, or `|s|` when there is none. */
  function IndexOf(s: string, sep: char): (i: nat)
    ensures i <= |s|
  {
    if |s| == 0 || s[0] == sep then 0 else 1 + IndexOf(s[1..], sep)
  }

  /** `IndexOf` finds the first separator: none comes before it. */
  lemma {:induction false} IndexOfSpec(s: string, sep: char)
    ensures sep !in s[..IndexOf(s, sep)]
    ensures IndexOf(s, sep) < |s| ==> s[IndexOf(s, sep)] == sep
  {
    if |s| > 0 && s[0] != sep {
      IndexOfSpec(s[1..], sep);
      assert s[..IndexOf(s, sep)] == [s[0]] + s[1..][..IndexOf(s[1..], sep)];
    }
  }

  /** Text after a separator does not move the first separator. */
  lemma {:induction false} IndexOfAppend(a: string, b: string, sep: char)
    requires IndexOf(a, sep) < |a|
    ensures IndexOf(a + b, sep) == IndexOf(a, sep)
  {
    if a[0] != sep {
      assert (a + b)[1..] == a[1..] + b;
      IndexOfAppend(a[1..], b, sep);
    }
  }

  /** Text without a separator shifts the first separator of what follows. */
  lemma {:induction false} IndexOfAfter(a: string, b: string, sep: char)
    requires IndexOf(a, sep) == |a|
    ensures IndexOf(a + b, sep) == |a| + IndexOf(b, sep)
  {
    if |a| > 0 {
      assert (a + b)[1..] == a[1..] + b;
      IndexOfAfter(a[1..], b, sep);
    } else {
      assert a + b == b;
    }
  }

  /** Python's `s.split(sep)`: the text up to the first separator, then the
      pieces of the rest, so `n` separators give `n + 1` pieces. */
  function Split(s: string, sep: char): (parts: seq<string>)
    ensures |parts| >= 1
    decreases |s|
  {
    var i := IndexOf(s, sep);
    if i == |s| then [s] else [s[..i]] + Split(s[i + 1..], sep)
  }

  /** No piece holds the separator, and joining the pieces gives back `s`. */
  lemma {:induction false} SplitPieces(s: string, sep: char)
    ensures forall i :: 0 <= i < |Split(s, sep)| ==> sep !in Split(s, sep)[i]
    ensures Join(Split(s, sep), sep) == s
    decreases |s|
  {
    var i := IndexOf(s, sep);
    IndexOfSpec(s, sep);
    if i < |s| {
      var rest := Split(s[i + 1..], sep);
      SplitPieces(s[i + 1..], sep);
      var parts := [s[..i]] + rest;
      assert parts[0] == s[..i] && parts[1..] == rest;
      assert s == s[..i] + [sep] + s[i + 1..];
    } else {
      assert s[..i] == s;
    }
  }

  /** There is more than one piece exactly when `s` holds the separator. */
  lemma SplitSingle(s: string, sep: char)
    ensures sep !in s ==> Split(s, sep) == [s]
    ensures sep in s ==> |Split(s, sep)| >= 2
  {
    IndexOfSpec(s, sep);
    assert s[..|s|] == s;
  }

  /** Splitting at one separator splits both sides independently. */
  lemma {:induction false} SplitAround(a: string, b: string, sep: char)
    ensures Split(a + [sep] + b, sep) == Split(a, sep) + Split(b, sep)
    decreases |a|
  {
    var s := a + [sep] + b;
    var i := IndexOf(a, sep);
    if i == |a| {
      IndexOfAfter(a, [sep] + b, sep);
      assert s == a + ([sep] + b);
      assert s[..i] == a && s[i + 1..] == b;
    } else {
      IndexOfAppend(a, [sep] + b, sep);
      assert s == a + ([sep] + b);
      assert s[..i] == a[..i];
      assert s[i + 1..] == a[i + 1..] + [sep] + b;
      SplitAround(a[i + 1..], b, sep);
    }
  }

  /** Joining one more piece adds a separator and the piece at the end. */
  lemma {:induction false} JoinAppend(parts: seq<string>, x: string, sep: char)
    requires |parts| >= 1
    ensures Join(parts + [x], sep) == Join(parts, sep) + [sep] + x
  {
    assert (parts + [x])[0] == parts[0];
    if |parts| == 1 {
      assert (parts + [x])[1..] == [x];
    } else {
      assert (parts + [x])[1..] == parts[1..] + [x];
      JoinAppend(parts[1..], x, sep);
    }
  }

  /** `Split` undoes `Join` when no piece holds the separator. */
  lemma {:induction false} SplitJoin(parts: seq<string>, sep: char)
    requires |parts| >= 1
    requires forall i :: 0 <= i < |parts| ==> sep !in parts[i]
    ensures Split(Join(parts, sep), sep) == parts
  {
    var first := parts[0];
    SplitSingle(first, sep);
    if |parts| > 1 {
      var rest := parts[1..];
      var joined := Join(rest, sep);
      assert Join(parts, sep) == first + [sep] + joined;
      assert Split(joined, sep) == rest by {
        SplitJoin(rest, sep);
      }
      SplitAround(first, joined, sep);
      assert parts == [first] + rest;
    }
  }

  // ---------------------------------------------------------------------
  // Whitespace stripping

  /** The characters Python's `str.isspace` accepts. */
  predicate IsSpace(c: char) {
    || '\t' <= c <= '\r'
    || '\U{1C}' <= c <= ' '
    || c == '\U{85}' || c == '\U{A0}' || c == '\U{1680}'
    || '\U{2000}' <= c <= '\U{200A}'
    || c == '\U{2028}' || c == '\U{2029}' || c == '\U{202F}'
    || c == '\U{205F}' || c == '\U{3000}'
  }

  predicate AllSpace(s: string) {
    forall i :: 0 <= i < |s| ==> IsSpace(s[i])
  }

  /** `r` is `s` with a run of whitespace cut from each end, and `r`
      itself neither begins nor ends with whitespace. */
  ghost predicate StrippedOf(s: string, r: string) {
    && (|r| == 0 || (!IsSpace(r[0]) && !IsSpace(r[|r| - 1])))
    && exists i :: 0 <= i <= |s| - |r| && s[i..i + |r|] == r && AllSpace(s[..i]) && AllSpace(s[i + |r|..])
  }

  function StripStart(s: string): string {
    if |s| > 0 && IsSpace(s[0]) then StripStart(s[1..]) else s
  }

  function StripEnd(s: string): string {
    if |s| > 0 && IsSpace(s[|s| - 1]) then StripEnd(s[..|s| - 1]) else s
  }

  /** Python's `s.strip()`. */
  function Strip(s: string): string {
    StripEnd(StripStart(s))
  }

  /** A whitespace character before or after whitespace keeps it whitespace. */
  lemma AllSpaceExtend(c: char, u: string)
    requires IsSpace(c) && AllSpace(u)
    ensures AllSpace([c] + u) && AllSpace(u + [c])
  {
    assert forall i :: 0 < i <= |u| ==> ([c] + u)[i] == u[i - 1];
    assert forall i :: 0 <= i < |u| ==> (u + [c])[i] == u[i];
  }

  /** `StripStart` drops exactly the leading whitespace. */
  lemma {:induction false} StripStartSpec(s: string)
    ensures |StripStart(s)| <= |s| && StripStart(s) == s[|s| - |StripStart(s)|..]
    ensures AllSpace(s[..|s| - |StripStart(s)|])
    ensures |StripStart(s)| == 0 || !IsSpace(StripStart(s)[0])
  {
    if |s| > 0 && IsSpace(s[0]) {
      var u := s[1..];
      StripStartSpec(u);
      var r := StripStart(u);
      var n := |s| - |r|;
      assert StripStart(s) == r;
      assert u[n - 1..] == s[n..];
      assert s[..n] == [s[0]] + u[..n - 1];
      AllSpaceExtend(s[0], u[..n - 1]);
    } else {
      assert s[..0] == [];
    }
  }

  /** `StripEnd` drops exactly the trailing whitespace. */
  lemma {:induction false} StripEndSpec(s: string)
    ensures |StripEnd(s)| <= |s| && StripEnd(s) == s[..|StripEnd(s)|]
    ensures AllSpace(s[|StripEnd(s)|..])
    ensures |StripEnd(s)| == 0 || !IsSpace(StripEnd(s)[|StripEnd(s)| - 1])
  {
    if |s| > 0 && IsSpace(s[|s| - 1]) {
      var u := s[..|s| - 1];
      StripEndSpec(u);
      var r := StripEnd(u);
      assert StripEnd(s) == r;
      assert u[..|r|] == s[..|r|];
      assert s[|r|..] == u[|r|..] + [s[|s| - 1]];
      AllSpaceExtend(s[|s| - 1], u[|r|..]);
    } else {
      assert s[|s|..] == [];
    }
  }

  /** `Strip` cuts a run of whitespace from each end and leaves a text that
      neither begins nor ends with whitespace. */
  lemma StripSpec(s: string)
    ensures StrippedOf(s, Strip(s))
  {
    var t := StripStart(s);
    var r := StripEnd(t);
    StripStartSpec(s);
    StripEndSpec(t);
    var i := |s| - |t|;
    assert s[i..i + |r|] == r by {
      assert t == s[i..];
    }
    assert AllSpace(s[i + |r|..]) by {
      assert s[i + |r|..] == t[|r|..];
    }
    assert |r| > 0 ==> r[0] == t[0];
    assert Strip(s) == r;
    assert 0 <= i <= |s| - |r| && s[i..i + |r|] == r && AllSpace(s[..i]) && AllSpace(s[i + |r|..]);
  }

  // ---------------------------------------------------------------------
  // Substrings

  /** `t` occurs in `s` starting at offset `i`. */
  predicate OccursAt(s: string, t: string, i: int) {
    0 <= i <= |s| - |t| && s[i..i + |t|] == t
  }

  /** Python's `t in s` on strings. */
  function Contains(s: string, t: string): bool {
    if t <= s then true
    else if |s| == 0 then false
    else Contains(s[1..], t)
  }

  /** Dropping the first character moves every occurrence one place left. */
  lemma OccursShift(s: string, t: string, i: nat)
    requires |s| > 0
    ensures OccursAt(s[1..], t, i) <==> OccursAt(s, t, i + 1)
  {
    if 0 <= i <= |s| - 1 - |t| {
      assert s[1..][i..i + |t|] == s[i + 1..i + 1 + |t|];
    }
  }

  /** `t in s` holds exactly when `t` occurs in `s` at some offset. */
  lemma {:induction false} ContainsSpec(s: string, t: string)
    ensures Contains(s, t) <==> exists i :: OccursAt(s, t, i)
  {
    if t <= s {
      assert OccursAt(s, t, 0);
    } else if |s| > 0 {
      ContainsSpec(s[1..], t);
      assert !OccursAt(s, t, 0);
      if exists i :: OccursAt(s, t, i) {
        var i :| OccursAt(s, t, i);
        OccursShift(s, t, i - 1);
      }
      if exists j :: OccursAt(s[1..], t, j) {
        var j :| OccursAt(s[1..], t, j);
        OccursShift(s, t, j);
      }
    }
  }

  // ---------------------------------------------------------------------
  // Decimal numbers

  predicate IsDigit(c: char) {
    '0' <= c <= '9'
  }

  /** Python's `str.isdigit`, restricted to ASCII digits: a non-empty run of digits. */
  predicate IsAllDigits(s: string) {
    |s| > 0 && forall i :: 0 <= i < |s| ==> IsDigit(s[i])
  }

  /** Python's `int(s)` on a string of decimal digits. */
  function DecimalValue(s: string): nat
    requires forall i :: 0 <= i < |s| ==> IsDigit(s[i])
  {
    if |s| == 0 then 0
    else
      assert IsDigit(s[|s| - 1]);
      DecimalValue(s[..|s| - 1]) * 10 + ((s[|s| - 1] as int) - ('0' as int))
  }

  function DigitChar(d: nat): (c: char)
    requires d < 10
  {
    (('0' as int) + d) as char
  }

  /** The decimal digits of `n`, without leading zeros. */
  function NatToString(n: nat): string {
    if n < 10 then [DigitChar(n)] else NatToString(n / 10) + [DigitChar(n % 10)]
  }

  /** `NatToString` gives digits only, reading back as `n`, with no leading zero. */
  lemma {:induction false} NatToStringSpec(n: nat)
    ensures IsAllDigits(NatToString(n))
    ensures DecimalValue(NatToString(n)) == n
    ensures |NatToString(n)| > 1 ==> NatToString(n)[0] != '0'
  {
    if n >= 10 {
      NatToStringSpec(n / 10);
      var s := NatToString(n);
      assert s[..|s| - 1] == NatToString(n / 10);
    }
  }

  /** `'{0}'.format(n)` for an integer `n`. */
  function IntToString(n: int): string {
    if n < 0 then "-" + NatToString(-n) else NatToString(n)
  }

  /** A value that is not negative is written as its digits, a negative one
      as `-` followed by the digits of its magnitude; neither has a leading zero. */
  lemma IntToStringSpec(n: int)
    ensures n >= 0 ==>
      IsAllDigits(IntToString(n)) && DecimalValue(IntToString(n)) == n
      && (|IntToString(n)| > 1 ==> IntToString(n)[0] != '0')
    ensures n < 0 ==> var s := IntToString(n);
      |s| >= 2 && s[0] == '-' && IsAllDigits(s[1..]) && DecimalValue(s[1..]) == -n
      && (|s| > 2 ==> s[1] != '0')
  {
    if n < 0 {
      var t := NatToString(-n);
      NatToStringSpec(-n);
      var s := IntToString(n);
      assert s == "-" + t;
      assert s[1..] == t;
      assert |s| == |t| + 1;
      assert |s| > 2 ==> s[1] == t[0];
    } else {
      NatToStringSpec(n);
    }
  }
}
