/**
 * The name `downloadMarkdown` gives the saved outline:
 * `tabs_<year><MM><DD>_<HH><mm>.md`, every field but the year padded to two
 * digits. The date fields are parameters; reading the clock is left to the
 * caller. ParseFileName reads a name back, which shows that no two moments
 * (to the minute) share a name.
 */
module FileName {
  import opened Wrappers
  import opened Text

  /** `String(n).padStart(2, '0')`. */
  function Pad2(n: nat): (r: string)
    ensures AllDigits(r) && ParseNat(r) == n
    ensures n < 100 ==> |r| == 2
  {
    var s := NatStr(n);
    ParseNatStr(n);
    if |s| >= 2 then s
    else
      ParseNatLeadingZero(s);
      assert PadStart(s, 2, '0') == "0" + s;
      PadStart(s, 2, '0')
  }

  /** The fixed-width tail `<MM><DD>_<HH><mm>` after the year. */
  function Clock(month0: nat, day: nat, hour: nat, minute: nat): (r: string)
    ensures month0 < 99 && day < 100 && hour < 100 && minute < 100 ==> |r| == 9
  {
    Pad2(month0 + 1) + Pad2(day) + "_" + Pad2(hour) + Pad2(minute)
  }

  /**
   * The download name for the moment `year`, `month0` (0-based, as
   * `getMonth` gives it), `day`, `hour`, `minute`.
   */
  function FileName(year: int, month0: nat, day: nat, hour: nat, minute: nat): (r: string)
    ensures StartsWith(r, "tabs_") && |r| >= 3 && r[|r| - 3..] == ".md"
    ensures month0 < 99 && day < 100 && hour < 100 && minute < 100 ==> |r| == 17 + |IntStr(year)|
  {
    var stem := IntStr(year) + Clock(month0, day, hour, minute);
    Framed(stem);
    "tabs_" + stem + ".md"
  }

  lemma Framed(stem: string)
    ensures StartsWith("tabs_" + stem + ".md", "tabs_")
    ensures ("tabs_" + stem + ".md")[|stem| + 5..] == ".md"
  {
    assert ("tabs_" + stem + ".md")[..5] == "tabs_";
  }

  /** A moment to the minute, with the month 0-based. */
  datatype Stamp = Stamp(year: int, month0: nat, day: nat, hour: nat, minute: nat)

  /** Reads the nine-character tail back into month (0-based), day, hour and minute. */
  function ParseClock(t: string): Option<(nat, nat, nat, nat)> {
    if |t| != 9 || t[4] != '_' then None
    else
      var mm, dd, hh, mi := t[..2], t[2..4], t[5..7], t[7..];
      if !AllDigits(mm) || !AllDigits(dd) || !AllDigits(hh) || !AllDigits(mi) || ParseNat(mm) == 0 then None
      else Some((ParseNat(mm) - 1, ParseNat(dd), ParseNat(hh), ParseNat(mi)))
  }

  /** Reads a download name back into the moment it names, or None. */
  function ParseFileName(s: string): Option<Stamp> {
    if |s| < 18 || !StartsWith(s, "tabs_") || s[|s| - 3..] != ".md" then None
    else
      var stem := s[5..|s| - 3];
      match (ParseInt(stem[..|stem| - 9]), ParseClock(stem[|stem| - 9..]))
      case (Some(year), Some((month0, day, hour, minute))) => Some(Stamp(year, month0, day, hour, minute))
      case _ => None
  }

  lemma ClockRoundTrip(month0: nat, day: nat, hour: nat, minute: nat)
    requires month0 < 99 && day < 100 && hour < 100 && minute < 100
    ensures ParseClock(Clock(month0, day, hour, minute)) == Some((month0, day, hour, minute))
  {
    var a, b, c, d := Pad2(month0 + 1), Pad2(day), Pad2(hour), Pad2(minute);
    var t := Clock(month0, day, hour, minute);
    assert t == a + b + "_" + c + d;
    assert t[..2] == a && t[2..4] == b && t[4] == '_' && t[5..7] == c && t[7..] == d;
  }

  /** Every name read back gives the moment it was made from. */
  lemma FileNameRoundTrip(year: int, month0: nat, day: nat, hour: nat, minute: nat)
    requires month0 < 99 && day < 100 && hour < 100 && minute < 100
    ensures ParseFileName(FileName(year, month0, day, hour, minute)) == Some(Stamp(year, month0, day, hour, minute))
  {
    var y, t := IntStr(year), Clock(month0, day, hour, minute);
    var s := FileName(year, month0, day, hour, minute);
    assert s == "tabs_" + (y + t) + ".md";
    var stem := s[5..|s| - 3];
    assert stem == y + t;
    assert stem[..|stem| - 9] == y;
    assert stem[|stem| - 9..] == t;
    ParseIntStr(year);
    ClockRoundTrip(month0, day, hour, minute);
  }

  /** A number below ten is written as a zero and its digit. */
  lemma Pad2OneDigit(n: nat)
    requires n < 10
    ensures Pad2(n) == ['0', DigitChar(n)]
  {
    assert NatStr(n) == [DigitChar(n)];
  }

  lemma YearExample()
    ensures IntStr(2024) == "2024"
  {
    assert NatStr(2) == "2";
    assert NatStr(20) == "20";
    assert NatStr(202) == "202";
  }

  lemma ClockExample()
    ensures Clock(2, 5, 9, 7) == "0305_0907"
  {
    Pad2OneDigit(3);
    Pad2OneDigit(5);
    Pad2OneDigit(9);
    Pad2OneDigit(7);
  }

  /** The name for 5 March 2024, 09:07. */
  lemma FileNameExample()
    ensures FileName(2024, 2, 5, 9, 7) == "tabs_20240305_0907.md"
  {
    YearExample();
    ClockExample();
    assert FileName(2024, 2, 5, 9, 7) == "tabs_" + ("2024" + "0305_0907") + ".md";
  }
}
