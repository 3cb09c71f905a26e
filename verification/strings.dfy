/** The JavaScript string operations the handlers and components rely on:
    `trim`, `String(n)`, `padStart`, `split` and `indexOf`. */
module Strings {

  /** The code points `String.prototype.trim` strips and the regular-expression class
      `\s` matches (the ECMAScript WhiteSpace and LineTerminator characters). */
  predicate IsSpace(c: char) {
    || c == '\t' || c == '\n' || c == '\U{B}' || c == '\U{C}' || c == '\r' || c == ' '
    || c == '\U{A0}' || c == '\U{1680}' || ('\U{2000}' <= c <= '\U{200A}')
    || c == '\U{2028}' || c == '\U{2029}' || c == '\U{202F}' || c == '\U{205F}'
    || c == '\U{3000}' || c == '\U{FEFF}'
  }

  predicate AllSpace(s: string) {
    forall i :: 0 <= i < |s| ==> IsSpace(s[i])
  }

  /** Number of whitespace characters at the start of `s`. */
  function LeadingSpaces(s: string): (n: nat)
    ensures n <= |s|
    ensures forall i :: 0 <= i < n ==> IsSpace(s[i])
    ensures n < |s| ==> !IsSpace(s[n])
  {
    if |s| > 0 && IsSpace(s[0]) then 1 + LeadingSpaces(s[1..]) else 0
  }

  /** Number of whitespace characters at the end of `s`. */
  function TrailingSpaces(s: string): (n: nat)
    ensures n <= |s|
    ensures forall i :: |s| - n <= i < |s| ==> IsSpace(s[i])
    ensures n < |s| ==> !IsSpace(s[|s| - n - 1])
  {
    if |s| > 0 && IsSpace(s[|s| - 1]) then 1 + TrailingSpaces(s[..|s| - 1]) else 0
  }

  /** `s.trim()`: whitespace removed on both sides. */
  function Trim(s: string): string {
    var t := s[LeadingSpaces(s)..];
    t[..|t| - TrailingSpaces(t)]
  }

  /** The trimmed string is the infix of `s` between its leading whitespace and its
      trailing whitespace, and has no whitespace at either end. */
  lemma TrimSpec(s: string)
    ensures var r := Trim(s);
      && LeadingSpaces(s) + |r| <= |s|
      && r == s[LeadingSpaces(s)..LeadingSpaces(s) + |r|]
      && AllSpace(s[LeadingSpaces(s) + |r|..])
      && (r != [] ==> !IsSpace(r[0]) && !IsSpace(r[|r| - 1]))
  {
    var l := LeadingSpaces(s);
    var t := s[l..];
    var n := TrailingSpaces(t);
    var r := t[..|t| - n];
    assert Trim(s) == r;
    assert r == s[l..l + |r|];
    assert AllSpace(s[l + |r|..]) by {
      var e := s[l + |r|..];
      assert e == t[|t| - n..];
      forall i | 0 <= i < |e| ensures IsSpace(e[i]) {
        assert e[i] == t[|t| - n + i];
      }
    }
    TrimEnds(s);
  }

  lemma TrimEnds(s: string)
    ensures var r := Trim(s); r != [] ==> !IsSpace(r[0]) && !IsSpace(r[|r| - 1])
  {
    var l := LeadingSpaces(s);
    var t := s[l..];
    var n := TrailingSpaces(t);
    var r := t[..|t| - n];
    assert Trim(s) == r;
    if r != [] {
      var a, b := s[l], t[|t| - n - 1];
      assert !IsSpace(a) && !IsSpace(b);
      assert r[0] == a && r[|r| - 1] == b;
    }
  }

  /** Trimming yields the empty string exactly when the input is all whitespace. */
  lemma TrimEmptyIffAllSpace(s: string)
    ensures Trim(s) == [] <==> AllSpace(s)
  {
    TrimSpec(s);
    if Trim(s) == [] {
      // A non-space character at the end of the leading run would survive trimming.
      assert LeadingSpaces(s) == |s|;
    }
  }

  /** Trimming twice is trimming once. */
  lemma TrimIdempotent(s: string)
    ensures Trim(Trim(s)) == Trim(s)
  {
    var r := Trim(s);
    TrimSpec(s);
    TrimSpec(r);
    if r != [] {
      assert LeadingSpaces(r) == 0;
      assert TrailingSpaces(r) == 0;
    }
  }

  // ---------------------------------------------------------------- numbers

  predicate IsDigit(c: char) {
    '0' <= c <= '9'
  }

  predicate AllDigits(s: string) {
    forall i :: 0 <= i < |s| ==> IsDigit(s[i])
  }

  function DigitChar(d: nat): (c: char)
    requires d < 10
  {
    "0123456789"[d]
  }

  /** The value of a string of decimal digits (leading zeros allowed). */
  function DigitsValue(s: string): nat
    requires AllDigits(s)
  {
    if s == [] then 0 else 10 * DigitsValue(s[..|s| - 1]) + (s[|s| - 1] as int - '0' as int)
  }

  /** `String(n)` for a non-negative integer: its canonical decimal numeral. */
  function NatToString(n: nat): (r: string)
    ensures |r| >= 1 && AllDigits(r)
    ensures |r| == 1 <==> n < 10
    ensures 10 <= n < 100 ==> |r| == 2
    ensures r[0] == '0' ==> r == "0"
    decreases n
  {
    if n < 10 then [DigitChar(n)] else NatToString(n / 10) + [DigitChar(n % 10)]
  }

  /** Reading back the numeral `String(n)` gives `n`. */
  lemma {:induction false} NatToStringRoundTrip(n: nat)
    ensures DigitsValue(NatToString(n)) == n
    decreases n
  {
    if n >= 10 {
      var s := NatToString(n);
      assert s[..|s| - 1] == NatToString(n / 10);
      NatToStringRoundTrip(n / 10);
    }
  }

  /** `String(i)` for any integer. */
  function IntToString(i: int): (r: string)
    ensures i < 0 <==> (r != [] && r[0] == '-')
    ensures i >= 0 ==> r == NatToString(i)
  {
    if i < 0 then "-" + NatToString(-i) else NatToString(i)
  }

  /** `s.padStart(width, fill)` with a one-character fill string. */
  function PadStart(s: string, width: nat, fill: char): (r: string)
    ensures |r| == if |s| < width then width else |s|
    ensures r[|r| - |s|..] == s
    ensures forall i :: 0 <= i < |r| - |s| ==> r[i] == fill
  {
    if |s| >= width then s else seq(width - |s|, _ => fill) + s
  }

  /** Leading zeros do not change the value of a numeral. */
  lemma {:induction false} LeadingZeroValue(s: string)
    requires AllDigits(s)
    ensures AllDigits("0" + s) && DigitsValue("0" + s) == DigitsValue(s)
    decreases |s|
  {
    var z := "0" + s;
    assert AllDigits(z) by {
      forall i | 0 <= i < |z| ensures IsDigit(z[i]) {
        if i > 0 { assert z[i] == s[i - 1]; }
      }
    }
    if s != [] {
      assert z[..|z| - 1] == "0" + s[..|s| - 1];
      LeadingZeroValue(s[..|s| - 1]);
    }
  }

  /** `String(n).padStart(2, "0")`. */
  function Pad2(n: nat): string {
    PadStart(NatToString(n), 2, '0')
  }

  /** A number below 100 padded to two digits is exactly two digits that read back as it. */
  lemma Pad2RoundTrip(n: nat)
    requires n < 100
    ensures |Pad2(n)| == 2 && AllDigits(Pad2(n)) && DigitsValue(Pad2(n)) == n
  {
    var s := NatToString(n);
    NatToStringRoundTrip(n);
    if n < 10 {
      assert Pad2(n) == "0" + s;
      LeadingZeroValue(s);
    } else {
      assert Pad2(n) == s;
    }
  }

  // ---------------------------------------------------------------- split

  /** `s.indexOf(c)` when `c` occurs: the first position holding `c`. */
  function IndexOf(s: string, c: char): (i: nat)
    requires c in s
    ensures i < |s| && s[i] == c && c !in s[..i]
  {
    if s[0] == c then 0 else 1 + IndexOf(s[1..], c)
  }

  /** Inverse of `Split`: the parts glued back together with the separator. */
  function Join(parts: seq<string>, sep: char): string
    requires |parts| >= 1
  {
    if |parts| == 1 then parts[0] else parts[0] + [sep] + Join(parts[1..], sep)
  }

  /** `s.split(sep)` for a one-character separator: the maximal separator-free pieces
      between separators, at least one of them (possibly empty). */
  function Split(s: string, sep: char): (parts: seq<string>)
    ensures |parts| >= 1
    ensures forall i :: 0 <= i < |parts| ==> sep !in parts[i]
    decreases |s|
  {
    if sep !in s then [s]
    else
      var i := IndexOf(s, sep);
      [s[..i]] + Split(s[i + 1..], sep)
  }

  /** Joining the pieces of a split with the separator gives back the string. */
  lemma {:induction false} SplitJoin(s: string, sep: char)
    ensures Join(Split(s, sep), sep) == s
    decreases |s|
  {
    if sep in s {
      var i := IndexOf(s, sep);
      var rest := Split(s[i + 1..], sep);
      SplitJoin(s[i + 1..], sep);
      var parts := Split(s, sep);
      assert parts == [s[..i]] + rest;
      assert parts[0] == s[..i] && parts[1..] == rest;
      assert Join(parts, sep) == s[..i] + [sep] + Join(rest, sep);
      assert s == s[..i] + [sep] + s[i + 1..];
    }
  }

  /** The last piece of a split is the tail of `s` after its last separator. */
  lemma {:induction false} SplitLastIsTail(s: string, sep: char)
    ensures IsSeparatedTail(s, sep, Split(s, sep)[|Split(s, sep)| - 1])
    decreases |s|
  {
    var parts := Split(s, sep);
    var last := parts[|parts| - 1];
    if sep in s {
      var i := IndexOf(s, sep);
      var tail := s[i + 1..];
      SplitLastIsTail(tail, sep);
      var tparts := Split(tail, sep);
      assert parts == [s[..i]] + tparts;
      assert last == tparts[|tparts| - 1];
      TailOfTail(s, i, sep, last);
    }
  }

  /** `t` is a separator-free suffix of `s` that is all of `s` or follows a separator. */
  predicate IsSeparatedTail(s: string, sep: char, t: string) {
    && |t| <= |s| && s[|s| - |t|..] == t && sep !in t
    && (|t| < |s| ==> s[|s| - |t| - 1] == sep)
  }

  /** A separated tail of the part after position `i`, where `s[i]` is a separator, is a
      separated tail of `s`. */
  lemma TailOfTail(s: string, i: nat, sep: char, t: string)
    requires i < |s| && s[i] == sep && IsSeparatedTail(s[i + 1..], sep, t)
    ensures IsSeparatedTail(s, sep, t)
  {
    var tail := s[i + 1..];
    assert s[|s| - |t|..] == tail[|tail| - |t|..];
    if |t| < |tail| {
      assert s[|s| - |t| - 1] == tail[|tail| - |t| - 1];
    }
  }

  /** A separator-free tail of `s` that is preceded by a separator (or is all of `s`)
      is unique. */
  lemma SeparatedTailUnique(s: string, sep: char, a: string, b: string)
    requires IsSeparatedTail(s, sep, a) && IsSeparatedTail(s, sep, b)
    ensures a == b
  {
    var n := |s|;
    forall j | n - |a| <= j < n ensures s[j] != sep {
      assert s[j] == a[j - (n - |a|)];
    }
    forall j | n - |b| <= j < n ensures s[j] != sep {
      assert s[j] == b[j - (n - |b|)];
    }
    assert |a| == |b|;
  }

  /** When `s` ends with `sep` followed by a separator-free `t`, the last piece of the
      split is `t`. */
  lemma SplitLastAfterSeparator(s: string, sep: char, t: string)
    requires |t| < |s| && s[|s| - |t|..] == t && s[|s| - |t| - 1] == sep && sep !in t
    ensures Split(s, sep)[|Split(s, sep)| - 1] == t
  {
    SplitLastIsTail(s, sep);
    SeparatedTailUnique(s, sep, Split(s, sep)[|Split(s, sep)| - 1], t);
  }
}
