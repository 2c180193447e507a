/**
 * The pieces of Python's string and integer behaviour that the bot relies on:
 * `str.isdigit`, `int(...)`, `str(n)` and the `02d` format, `str.strip`,
 * `str.lower`, `str.split()` and `str.split(sep)`, `sep.join`, `startswith`,
 * the `in` substring test and list slicing with Python's index rules.
 * Characters are classified on ASCII (see README, "Left out").
 */
module Text {
  import opened Wrappers

  /** The characters `str.isspace` accepts that can reach the bot in practice. */
  predicate IsSpace(c: char) {
    c == ' ' || c == '\t' || c == '\n' || c == '\r' || c == '\U{0b}' || c == '\U{0c}'
    || ('\U{1c}' <= c <= '\U{1f}') || c == '\U{85}' || c == '\U{a0}'
  }

  predicate IsDigit(c: char) { '0' <= c <= '9' }

  /** Every character is a digit (the empty string included). */
  predicate AllDigits(s: string) { forall i :: 0 <= i < |s| ==> IsDigit(s[i]) }

  /** Python's `s.isdigit()`: non-empty and all digits. */
  predicate IsDigits(s: string) { |s| > 0 && AllDigits(s) }

  function DigitValue(c: char): nat
    requires IsDigit(c)
  {
    c as int - '0' as int
  }

  function DigitChar(d: nat): (c: char)
    requires d < 10
    ensures IsDigit(c) && DigitValue(c) == d
  {
    ('0' as int + d) as char
  }

  /** The value of a string of decimal digits (leading zeros allowed, "" is 0). */
  function ParseNat(s: string): nat
    requires AllDigits(s)
    decreases |s|
  {
    if s == [] then 0 else 10 * ParseNat(s[..|s| - 1]) + DigitValue(s[|s| - 1])
  }

  /** Python's `str(n)` for a natural number. */
  function NatToString(n: nat): (r: string)
    ensures IsDigits(r)
    decreases n
  {
    if n < 10 then [DigitChar(n)] else NatToString(n / 10) + [DigitChar(n % 10)]
  }

  /** Python's `str(i)` for any integer. */
  function IntToString(i: int): string {
    if i < 0 then "-" + NatToString(-i) else NatToString(i)
  }

  /** Python's `f"{i:02d}"`: zero-padded to width two, the sign counting towards the width. */
  function Pad2(i: int): string {
    if i < 0 then "-" + NatToString(-i)
    else if i < 10 then "0" + NatToString(i)
    else NatToString(i)
  }

  lemma {:induction false} ParseNatToString(n: nat)
    ensures ParseNat(NatToString(n)) == n
    decreases n
  {
    if n >= 10 {
      var t := NatToString(n);
      assert t[..|t| - 1] == NatToString(n / 10);
      ParseNatToString(n / 10);
    }
  }

  lemma {:induction false} ParseNatLeadingZero(t: string)
    requires AllDigits(t)
    ensures AllDigits("0" + t) && ParseNat("0" + t) == ParseNat(t)
    decreases |t|
  {
    var z := "0" + t;
    assert AllDigits(z);
    if t != [] {
      assert z[..|z| - 1] == "0" + t[..|t| - 1];
      ParseNatLeadingZero(t[..|t| - 1]);
    }
  }

  /** A padded non-negative number is all digits and reads back as itself. */
  lemma Pad2RoundTrip(i: nat)
    ensures IsDigits(Pad2(i)) && ParseNat(Pad2(i)) == i
  {
    ParseNatToString(i);
    if i < 10 { ParseNatLeadingZero(NatToString(i)); }
  }

  function LowerChar(c: char): char {
    if 'A' <= c <= 'Z' then (c as int + 32) as char else c
  }

  /** Python's `s.lower()` on ASCII letters. */
  function Lower(s: string): (r: string)
    ensures |r| == |s|
    ensures forall i :: 0 <= i < |s| ==> r[i] == LowerChar(s[i])
  {
    seq(|s|, i requires 0 <= i < |s| => LowerChar(s[i]))
  }

  function TrimStart(s: string): (r: string)
    ensures |r| <= |s| && r == s[|s| - |r|..]
    ensures r != [] ==> !IsSpace(r[0])
    decreases |s|
  {
    if s != [] && IsSpace(s[0]) then TrimStart(s[1..]) else s
  }

  function TrimEnd(s: string): (r: string)
    ensures |r| <= |s| && r == s[..|r|]
    ensures r != [] ==> !IsSpace(r[|r| - 1])
    decreases |s|
  {
    if s != [] && IsSpace(s[|s| - 1]) then TrimEnd(s[..|s| - 1]) else s
  }

  /** Python's `s.strip()`. */
  function Strip(s: string): string {
    TrimEnd(TrimStart(s))
  }

  lemma StripNoSpace(s: string)
    requires forall i :: 0 <= i < |s| ==> !IsSpace(s[i])
    ensures Strip(s) == s
  {
  }

  /** Python's `int(s)` in base ten: surrounding whitespace, an optional sign, then digits. */
  function PyInt(s: string): Option<int> {
    var t := Strip(s);
    if |t| > 0 && (t[0] == '+' || t[0] == '-') && IsDigits(t[1..]) then
      Some(if t[0] == '-' then 0 - ParseNat(t[1..]) else ParseNat(t[1..]))
    else if IsDigits(t) then Some(ParseNat(t))
    else None
  }

  lemma PyIntOfDigits(s: string)
    requires IsDigits(s)
    ensures PyInt(s) == Some(ParseNat(s))
  {
    StripNoSpace(s);
    assert IsDigit(s[0]);
  }

  /** Python's `s.split(sep)` for a one-character separator. */
  function SplitOn(s: string, sep: char): (r: seq<string>)
    ensures |r| >= 1
    decreases |s|
  {
    if s == [] then [""]
    else
      var rest := SplitOn(s[1..], sep);
      if s[0] == sep then [""] + rest else [[s[0]] + rest[0]] + rest[1..]
  }

  lemma {:induction false} SplitOnNoSep(a: string, sep: char)
    requires sep !in a
    ensures SplitOn(a, sep) == [a]
    decreases |a|
  {
    if a != [] {
      SplitOnNoSep(a[1..], sep);
      assert [a[0]] + a[1..] == a;
    }
  }

  lemma {:induction false} SplitOnSep(a: string, b: string, sep: char)
    requires sep !in a
    ensures SplitOn(a + [sep] + b, sep) == [a] + SplitOn(b, sep)
    decreases |a|
  {
    var s := a + [sep] + b;
    if a == [] {
      assert s[1..] == b;
    } else {
      assert s[1..] == a[1..] + [sep] + b;
      SplitOnSep(a[1..], b, sep);
      assert [a[0]] + a[1..] == a;
    }
  }

  /** Python's `sep.join(ts)`. */
  function Join(ts: seq<string>, sep: string): string
    decreases |ts|
  {
    if ts == [] then "" else if |ts| == 1 then ts[0] else ts[0] + sep + Join(ts[1..], sep)
  }

  /** The run of non-whitespace characters at the start of `s`. */
  function Word(s: string): (w: string)
    ensures |w| <= |s| && w == s[..|w|]
    ensures s != [] && !IsSpace(s[0]) ==> |w| > 0
    decreases |s|
  {
    if s == [] || IsSpace(s[0]) then [] else [s[0]] + Word(s[1..])
  }

  /** Python's `s.split()`: the maximal runs of non-whitespace characters. */
  function SplitWs(s: string): seq<string>
    decreases |s|
  {
    if s == [] then []
    else if IsSpace(s[0]) then SplitWs(s[1..])
    else var w := Word(s); [w] + SplitWs(s[|w|..])
  }

  /** A token `str.split()` can produce: non-empty and free of whitespace. */
  predicate IsToken(t: string) {
    t != [] && forall i :: 0 <= i < |t| ==> !IsSpace(t[i])
  }

  lemma {:induction false} WordOfToken(t: string, rest: string)
    requires forall i :: 0 <= i < |t| ==> !IsSpace(t[i])
    requires rest == [] || IsSpace(rest[0])
    ensures Word(t + rest) == t
    decreases |t|
  {
    if t == [] {
      assert t + rest == rest;
    } else {
      assert (t + rest)[1..] == t[1..] + rest;
      WordOfToken(t[1..], rest);
    }
  }

  /** Joining tokens with single spaces and splitting again gives back the tokens. */
  lemma {:induction false} SplitWsJoin(ts: seq<string>)
    requires forall k :: 0 <= k < |ts| ==> IsToken(ts[k])
    ensures SplitWs(Join(ts, " ")) == ts
    decreases |ts|
  {
    if ts == [] {
    } else if |ts| == 1 {
      WordOfToken(ts[0], "");
      assert ts[0] + "" == ts[0];
      assert ts[0][|ts[0]|..] == [];
    } else {
      var tail := " " + Join(ts[1..], " ");
      var s := ts[0] + tail;
      assert Join(ts, " ") == s;
      WordOfToken(ts[0], tail);
      assert s[|ts[0]|..] == tail;
      assert tail[1..] == Join(ts[1..], " ");
      SplitWsJoin(ts[1..]);
    }
  }

  /** Python's `s.startswith(p)`. */
  predicate StartsWith(s: string, p: string) {
    |p| <= |s| && s[..|p|] == p
  }

  /** Python's `sub in s` for strings. */
  predicate Contains(s: string, sub: string)
    decreases |s|
  {
    StartsWith(s, sub) || (s != [] && Contains(s[1..], sub))
  }

  lemma ContainsSelf(t: string)
    ensures Contains(t, t)
  {
    assert t[..|t|] == t;
  }

  /** `sub` occurs in `s` starting at index `i`. */
  predicate OccursAt(s: string, sub: string, i: nat) {
    i + |sub| <= |s| && s[i..i + |sub|] == sub
  }

  /** A text that does not hold `sub` at any position does not contain it. */
  lemma {:induction false} NotContainsAt(s: string, sub: string)
    requires forall i: nat :: !OccursAt(s, sub, i)
    ensures !Contains(s, sub)
    decreases |s|
  {
    assert !OccursAt(s, sub, 0);
    if s != [] {
      forall i: nat
        ensures !OccursAt(s[1..], sub, i)
      {
        assert !OccursAt(s, sub, i + 1);
        if i + |sub| <= |s[1..]| {
          assert s[1..][i..i + |sub|] == s[i + 1..i + 1 + |sub|];
        }
      }
      NotContainsAt(s[1..], sub);
    }
  }

  /** Between texts of one length, containment is equality. */
  lemma ContainsSameLength(t: string, sub: string)
    requires |t| == |sub|
    ensures Contains(t, sub) <==> t == sub
  {
    assert t[..|sub|] == t;
    if t != [] {
      NotContainsAt(t[1..], sub);
    }
  }

  /** Neither whitespace nor an upper-case ASCII letter. */
  predicate Plain(c: char) {
    !IsSpace(c) && !('A' <= c <= 'Z')
  }

  /** `strip` and `lower` leave plain text unchanged. */
  lemma LowerStripPlain(t: string)
    requires forall i :: 0 <= i < |t| ==> Plain(t[i])
    ensures Lower(Strip(t)) == t
  {
    StripNoSpace(t);
    assert forall i :: 0 <= i < |t| ==> Lower(t)[i] == t[i];
  }

  /** An index of Python slice notation, resolved against a length `n`. */
  function PyIndex(i: int, n: nat): (r: nat)
    ensures r <= n
  {
    if i < 0 then (if n + i < 0 then 0 else n + i) else if i > n then n else i
  }

  /** Python's `s[a:b]`. */
  function PySlice<T>(s: seq<T>, a: int, b: int): seq<T> {
    var lo, hi := PyIndex(a, |s|), PyIndex(b, |s|);
    if lo < hi then s[lo..hi] else []
  }
}
