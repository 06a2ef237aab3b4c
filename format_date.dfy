/**
 * `formatDate`: a local clock time, as the hour (0..23) and minute (0..59) a
 * `Date` reports, shown in 12-hour form `H:MM AM` or `H:MM PM`.
 */
module FormatDate {
  import opened Options
  import opened Text

  /** `hours % 12 || 12`. */
  function Hour12(hours: int): (r: int)
    requires 0 <= hours <= 23
    ensures 1 <= r <= 12
    ensures r % 12 == hours % 12
  {
    if hours % 12 == 0 then 12 else hours % 12
  }

  /** `hours >= 12 ? "PM" : "AM"`. */
  function Suffix(hours: int): (r: string)
    ensures r == "PM" <==> hours >= 12
    ensures r == "AM" || r == "PM"
  {
    if hours >= 12 then "PM" else "AM"
  }

  /** `minutes < 10 ? `0${minutes}` : minutes`, as the template renders it. */
  function MinuteText(minutes: int): (r: string)
    requires 0 <= minutes <= 59
    ensures |r| == 2 && AllDigits(r)
    ensures DigitsValue(r) == minutes
  {
    DecimalLength(minutes);
    DecimalRoundTrip(minutes);
    if minutes < 10 then "0" + Decimal(minutes) else Decimal(minutes)
  }

  function FormatDate(hours: int, minutes: int): (r: string)
    requires 0 <= hours <= 23 && 0 <= minutes <= 59
  {
    Decimal(Hour12(hours)) + ":" + MinuteText(minutes) + " " + Suffix(hours)
  }

  /** The output is the unpadded hour, a colon, two minute digits, a space and the suffix. */
  lemma FormatShape(hours: int, minutes: int)
    requires 0 <= hours <= 23 && 0 <= minutes <= 59
    ensures var r := FormatDate(hours, minutes);
      var n := |Decimal(Hour12(hours))|;
      && (n == 1 || n == 2) && |r| == n + 6
      && AllDigits(r[..n]) && r[0] != '0' && DigitsValue(r[..n]) == Hour12(hours)
      && r[n] == ':' && AllDigits(r[n + 1..n + 3]) && DigitsValue(r[n + 1..n + 3]) == minutes
      && r[n + 3] == ' ' && r[n + 4..] == Suffix(hours)
  {
    var h := Decimal(Hour12(hours));
    var r := FormatDate(hours, minutes);
    DecimalLength(Hour12(hours));
    DecimalRoundTrip(Hour12(hours));
    var n := |h|;
    assert r[..n] == h;
    assert r[n + 1..n + 3] == MinuteText(minutes);
    assert r[n + 4..] == Suffix(hours);
  }

  /** Midnight shows as twelve AM and noon as twelve PM. */
  lemma MidnightAndNoon(minutes: int)
    requires 0 <= minutes <= 59
    ensures FormatDate(0, minutes) == "12:" + MinuteText(minutes) + " AM"
    ensures FormatDate(12, minutes) == "12:" + MinuteText(minutes) + " PM"
  {
    assert Decimal(12) == "12";
  }

  /** Reads a formatted time back into the 24-hour hour and the minute. */
  function ParseClock(s: string): (r: Option<(int, int)>)
  {
    var n := if |s| >= 2 && s[1] == ':' then 1 else 2;
    if |s| != n + 6 || s[n] != ':' || !AllDigits(s[..n]) || !AllDigits(s[n + 1..n + 3]) || s[n + 3] != ' ' then None
    else
      var h, m, suffix := DigitsValue(s[..n]), DigitsValue(s[n + 1..n + 3]), s[n + 4..];
      if !(1 <= h <= 12) then None
      else if suffix == "AM" then Some((if h == 12 then 0 else h, m))
      else if suffix == "PM" then Some((if h == 12 then 12 else h + 12, m))
      else None
  }

  /** Reading back a formatted time recovers the hour and minute it was made from. */
  lemma FormatRoundTrip(hours: int, minutes: int)
    requires 0 <= hours <= 23 && 0 <= minutes <= 59
    ensures ParseClock(FormatDate(hours, minutes)) == Some((hours, minutes))
  {
    FormatShape(hours, minutes);
    var n := |Decimal(Hour12(hours))|;
    var s := FormatDate(hours, minutes);
    if n == 2 {
      assert AllDigits(s[..n]);
      assert s[1] != ':';
    }
  }

  /** Different clock times never look the same. */
  lemma FormatInjective(h1: int, m1: int, h2: int, m2: int)
    requires 0 <= h1 <= 23 && 0 <= m1 <= 59 && 0 <= h2 <= 23 && 0 <= m2 <= 59
    requires FormatDate(h1, m1) == FormatDate(h2, m2)
    ensures h1 == h2 && m1 == m2
  {
    FormatRoundTrip(h1, m1);
    FormatRoundTrip(h2, m2);
  }
}
