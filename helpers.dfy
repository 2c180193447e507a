/**
 * Formatting helpers of the bot (utils/helpers.py): the `HH:MM:SS` clock
 * format, text truncation for card labels and the Portuguese
 * "N horas e M minutos" phrase.
 */
module Helpers {
  import opened Wrappers
  import opened Text

  /** `divmod(s, 3600)` then `divmod(rem, 60)`; Python's divmod floors, as Dafny's `/` and `%` do for a positive divisor. */
  function HmsParts(s: int): (p: (int, int, int))
    ensures p.0 * 3600 + p.1 * 60 + p.2 == s
    ensures 0 <= p.1 < 60 && 0 <= p.2 < 60
    ensures s >= 0 ==> p.0 >= 0
  {
    (s / 3600, (s % 3600) / 60, (s % 3600) % 60)
  }

  /**
   * `fmt_hms(s)`. The argument is what `int(s)` made of the value: `None`
   * stands for a value `int` rejects, which formats as "00:00:00".
   */
  function FmtHms(v: Option<int>): string {
    match v
    case None => "00:00:00"
    case Some(s) =>
      var (h, m, sec) := HmsParts(s);
      Pad2(h) + ":" + Pad2(m) + ":" + Pad2(sec)
  }

  /** Reads an `H:MM:SS` clock back into seconds (the inverse of `FmtHms` on non-negative input). */
  function ParseHms(t: string): Option<int> {
    var p := SplitOn(t, ':');
    if |p| == 3 && IsDigits(p[0]) && IsDigits(p[1]) && IsDigits(p[2]) then
      Some(ParseNat(p[0]) * 3600 + ParseNat(p[1]) * 60 + ParseNat(p[2]))
    else None
  }

  lemma Pad2Width(i: int)
    ensures |Pad2(i)| >= 2
  {
    if i >= 10 {
      assert NatToString(i) == NatToString(i / 10) + [DigitChar(i % 10)];
    }
  }

  lemma Pad2TwoDigits(i: int)
    requires 0 <= i < 100
    ensures |Pad2(i)| == 2
  {
    if i >= 10 {
      assert NatToString(i) == NatToString(i / 10) + [DigitChar(i % 10)];
    }
  }

  /** Every field of `fmt_hms` is printed with at least two characters. */
  lemma FmtHmsFieldWidth(s: int)
    ensures var (h, m, sec) := HmsParts(s);
      FmtHms(Some(s)) == Pad2(h) + ":" + Pad2(m) + ":" + Pad2(sec)
      && |Pad2(h)| >= 2 && |Pad2(m)| == 2 && |Pad2(sec)| == 2
  {
    var (h, m, sec) := HmsParts(s);
    Pad2Width(h);
    Pad2TwoDigits(m);
    Pad2TwoDigits(sec);
  }

  /** `fmt_hms` loses nothing on a non-negative count: reading the clock back gives the seconds. */
  lemma FmtHmsRoundTrip(s: nat)
    ensures ParseHms(FmtHms(Some(s))) == Some(s)
  {
    var (h, m, sec) := HmsParts(s);
    Pad2RoundTrip(h);
    Pad2RoundTrip(m);
    Pad2RoundTrip(sec);
    ClockFields(Pad2(h), Pad2(m), Pad2(sec));
  }

  /** Three digit fields joined by colons split back into those fields. */
  lemma ClockFields(a: string, b: string, c: string)
    requires IsDigits(a) && IsDigits(b) && IsDigits(c)
    ensures SplitOn(a + ":" + b + ":" + c, ':') == [a, b, c]
  {
    assert ':' !in a && ':' !in b && ':' !in c by {
      assert forall x :: x in a ==> IsDigit(x);
      assert forall x :: x in b ==> IsDigit(x);
      assert forall x :: x in c ==> IsDigit(x);
    }
    assert a + ":" + b + ":" + c == a + [':'] + (b + [':'] + c);
    SplitOnSep(a, b + [':'] + c, ':');
    SplitOnSep(b, c, ':');
    SplitOnNoSep(c, ':');
  }

  /**
   * `_truncate(text, max_chars)`: "" for empty text, the text itself when it
   * fits, otherwise `text[:max_chars-1] + "..."` with Python slice rules.
   */
  function Truncate(text: string, maxChars: int): (r: string)
    ensures text == "" ==> r == ""
    ensures |text| <= maxChars ==> r == text
    ensures |text| > maxChars && text != "" ==>
      |r| >= 3 && r[|r| - 3..] == "..." && StartsWith(text, r[..|r| - 3])
    ensures |text| > maxChars >= 1 ==> |r| == maxChars + 2
  {
    if text == "" then ""
    else if |text| <= maxChars then text
    else
      var r := PySlice(text, 0, maxChars - 1) + "...";
      assert r[..|r| - 3] == PySlice(text, 0, maxChars - 1);
      r
  }

  /** A count and its unit, with the plural "s" exactly when the count is not 1. */
  function Unit(n: int, word: string): string {
    IntToString(n) + " " + word + (if n != 1 then "s" else "")
  }

  /** Lines 53-64 of `human_hours_minutes` applied to a seconds count. */
  function HoursMinutesText(s: int): string {
    var h := s / 3600;
    var m := (s % 3600) / 60;
    if h > 0 && m > 0 then Unit(h, "hora") + " e " + Unit(m, "minuto")
    else if h > 0 then Unit(h, "hora")
    else Unit(m, "minuto")
  }

  /**
   * `human_hours_minutes(seconds)` as written: `int(s)` reads the local `s`
   * before it is assigned, the bare `except` sets `s = 0`, and the argument
   * is never used.
   */
  function HumanHoursMinutesAsWritten(seconds: int): string {
    HoursMinutesText(0)
  }

  /** `human_hours_minutes(seconds)` as evidently intended: `s = int(seconds)`. */
  function HumanHoursMinutes(seconds: int): string {
    HoursMinutesText(seconds)
  }

  /** As written, every call answers "0 minutos", so the one-hour goal reads as zero. */
  lemma HumanHoursMinutesAsWrittenIgnoresInput(seconds: int)
    ensures HumanHoursMinutesAsWritten(seconds) == "0 minutos"
    ensures HumanHoursMinutes(3600) == "1 hora" != HumanHoursMinutesAsWritten(3600)
  {
    assert NatToString(0) == "0";
    assert NatToString(1) == "1";
  }

  predicate IsHourWord(w: string) { w == "hora" || w == "horas" }
  predicate IsMinuteWord(w: string) { w == "minuto" || w == "minutos" }

  /** Reads "H hora(s) e M minuto(s)", "H hora(s)" or "M minuto(s)" back into (H, M). */
  function ParseHoursMinutes(t: string): Option<(nat, nat)> {
    var w := SplitOn(t, ' ');
    if |w| == 2 && IsDigits(w[0]) && IsHourWord(w[1]) then Some((ParseNat(w[0]), 0))
    else if |w| == 2 && IsDigits(w[0]) && IsMinuteWord(w[1]) then Some((0, ParseNat(w[0])))
    else if |w| == 5 && IsDigits(w[0]) && IsHourWord(w[1]) && w[2] == "e"
      && IsDigits(w[3]) && IsMinuteWord(w[4]) then Some((ParseNat(w[0]), ParseNat(w[3])))
    else None
  }

  lemma DigitsHaveNoSpace(n: nat)
    ensures ' ' !in NatToString(n)
  {
    var d := NatToString(n);
    assert forall x :: x in d ==> IsDigit(x);
  }

  lemma SplitTwo(a: string, b: string)
    requires ' ' !in a && ' ' !in b
    ensures SplitOn(a + " " + b, ' ') == [a, b]
  {
    assert a + " " + b == a + [' '] + b;
    SplitOnSep(a, b, ' ');
    SplitOnNoSep(b, ' ');
  }

  lemma SplitFive(a: string, b: string, d: string, e: string)
    requires ' ' !in a && ' ' !in b && ' ' !in d && ' ' !in e
    ensures SplitOn(a + " " + b + " e " + d + " " + e, ' ') == [a, b, "e", d, e]
  {
    assert a + " " + b + " e " + d + " " + e == a + [' '] + (b + [' '] + ("e" + [' '] + (d + " " + e)));
    SplitOnSep(a, b + [' '] + ("e" + [' '] + (d + " " + e)), ' ');
    SplitOnSep(b, "e" + [' '] + (d + " " + e), ' ');
    SplitOnSep("e", d + " " + e, ' ');
    SplitTwo(d, e);
  }

  lemma ParseHoursOnly(hd: string, hu: string)
    requires IsDigits(hd) && IsHourWord(hu) && ' ' !in hd
    ensures ParseHoursMinutes(hd + " " + hu) == Some((ParseNat(hd), 0))
  {
    SplitTwo(hd, hu);
  }

  lemma ParseMinutesOnly(md: string, mu: string)
    requires IsDigits(md) && IsMinuteWord(mu) && ' ' !in md
    ensures ParseHoursMinutes(md + " " + mu) == Some((0, ParseNat(md)))
  {
    SplitTwo(md, mu);
  }

  lemma ParseBoth(hd: string, hu: string, md: string, mu: string)
    requires IsDigits(hd) && IsHourWord(hu) && ' ' !in hd
    requires IsDigits(md) && IsMinuteWord(mu) && ' ' !in md
    ensures ParseHoursMinutes(hd + " " + hu + " e " + md + " " + mu) == Some((ParseNat(hd), ParseNat(md)))
  {
    SplitFive(hd, hu, md, mu);
    var w := SplitOn(hd + " " + hu + " e " + md + " " + mu, ' ');
    assert |w| == 5 && w[0] == hd && w[1] == hu && w[2] == "e" && w[3] == md && w[4] == mu;
  }

  /** A unit phrase of a natural count is its digits, a space and the word. */
  lemma UnitParts(n: nat, word: string)
    ensures Unit(n, word) == NatToString(n) + " " + (word + (if n != 1 then "s" else ""))
    ensures IsDigits(NatToString(n)) && ' ' !in NatToString(n) && ParseNat(NatToString(n)) == n
  {
    ParseNatToString(n);
    DigitsHaveNoSpace(n);
  }

  lemma HoursMinutesBoth(h: nat, m: nat)
    ensures ParseHoursMinutes(Unit(h, "hora") + " e " + Unit(m, "minuto")) == Some((h, m))
  {
    UnitParts(h, "hora");
    UnitParts(m, "minuto");
    var hu, mu := "hora" + (if h != 1 then "s" else ""), "minuto" + (if m != 1 then "s" else "");
    assert Unit(h, "hora") + " e " + Unit(m, "minuto") == NatToString(h) + " " + hu + " e " + NatToString(m) + " " + mu;
    ParseBoth(NatToString(h), hu, NatToString(m), mu);
  }

  lemma HoursOnly(h: nat)
    ensures ParseHoursMinutes(Unit(h, "hora")) == Some((h, 0))
  {
    UnitParts(h, "hora");
    ParseHoursOnly(NatToString(h), "hora" + (if h != 1 then "s" else ""));
  }

  lemma MinutesOnly(m: nat)
    ensures ParseHoursMinutes(Unit(m, "minuto")) == Some((0, m))
  {
    UnitParts(m, "minuto");
    ParseMinutesOnly(NatToString(m), "minuto" + (if m != 1 then "s" else ""));
  }

  /**
   * The intended phrase names exactly the whole hours and the leftover whole
   * minutes: reading it back gives `(s div 3600, (s mod 3600) div 60)`.
   */
  lemma HumanHoursMinutesRoundTrip(s: nat)
    ensures ParseHoursMinutes(HumanHoursMinutes(s)) == Some((s / 3600, (s % 3600) / 60))
  {
    var h: nat, m: nat := s / 3600, (s % 3600) / 60;
    if h > 0 && m > 0 {
      HoursMinutesBoth(h, m);
    } else if h > 0 {
      HoursOnly(h);
    } else {
      MinutesOnly(m);
    }
  }

  /** The unit word takes the plural "s" exactly when its count is not 1. */
  lemma UnitPlural(n: int, word: string)
    requires word != [] && word[|word| - 1] != 's'
    ensures var u := Unit(n, word); u[|u| - 1] == 's' <==> n != 1
  {
  }
}
