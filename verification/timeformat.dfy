/**
 The study-time label of the progress screen (`formatTime`): minutes below
 an hour as "<m>m", whole hours as "<h>h", anything else as "<h>h <m>m".
 The label is read back by `ParseDuration`, which the round-trip lemma ties
 to the formatter.
 */
module TimeFormat {
  import opened Common

  /** `formatTime(_:)`. Below an hour the label is the signed minute count
      with "m"; otherwise the hours are the whole hours (at least 1) and the
      minutes the remainder, which is between 1 and 59 when it is shown. */
  function FormatTime(minutes: int): (s: string)
    ensures |s| >= 2
    ensures 'h' in s <==> minutes >= 60
    ensures s[|s| - 1] == 'h' <==> minutes >= 60 && minutes % 60 == 0
    ensures minutes < 60 ==> s[..|s| - 1] == IntToString(minutes) && s[|s| - 1] == 'm'
    ensures minutes >= 60 && minutes % 60 == 0 ==>
              s[..|s| - 1] == NatToString(minutes / 60) && minutes / 60 >= 1
    ensures minutes >= 60 && minutes % 60 != 0 ==>
              && s[|s| - 1] == 'm'
              && SplitHours(s[..|s| - 1]) == Some((minutes / 60, minutes % 60))
              && minutes / 60 >= 1 && 1 <= minutes % 60 <= 59
              && 60 * (minutes / 60) + minutes % 60 == minutes
  {
    if minutes < 60 then
      var s := IntToString(minutes) + "m";
      assert 'h' !in IntToString(minutes) by { IntStringNoLetter(minutes, 'h'); }
      assert s[..|s| - 1] == IntToString(minutes);
      s
    else
      var hours: nat := minutes / 60;
      var rest := minutes % 60;
      if rest == 0 then
        var s := NatToString(hours) + "h";
        assert s[..|s| - 1] == NatToString(hours);
        s
      else
        var s := HoursMinutesLabel(hours, rest);
        assert s[..|s| - 1] == NatToString(hours) + "h " + NatToString(rest);
        SplitHoursLabel(hours, rest);
        s
  }

  function HoursMinutesLabel(h: nat, m: nat): string {
    NatToString(h) + "h " + NatToString(m) + "m"
  }

  // ---------------------------------------------------------------------
  // Reading a label back.
  // ---------------------------------------------------------------------

  function IndexOf(s: string, c: char): (r: Option<nat>)
    ensures r.Some? ==> r.value < |s| && s[r.value] == c && c !in s[..r.value]
    ensures r.None? <==> c !in s
  {
    if |s| == 0 then None
    else if s[0] == c then Some(0)
    else
      var rest := IndexOf(s[1..], c);
      assert s == [s[0]] + s[1..];
      if rest.Some? then
        assert s[..rest.value + 1] == [s[0]] + s[1..][..rest.value];
        Some(rest.value + 1)
      else None
  }

  /** The value of a signed decimal numeral, if `s` is one. */
  function ParseInt(s: string): (r: Option<int>)
    ensures r.Some? ==> IsNumeral(s) || (|s| > 1 && s[0] == '-' && IsNumeral(s[1..]))
  {
    if IsNumeral(s) then Some(ParseNat(s))
    else if |s| > 1 && s[0] == '-' && IsNumeral(s[1..]) then Some(-(ParseNat(s[1..]) as int))
    else None
  }

  /** "<h>h <m>" split into its two numbers. */
  function SplitHours(body: string): (r: Option<(nat, nat)>)
  {
    match IndexOf(body, 'h')
    case None => None
    case Some(k) =>
      if k + 1 < |body| && body[k + 1] == ' ' && IsNumeral(body[..k]) && IsNumeral(body[k + 2..])
      then Some((ParseNat(body[..k]), ParseNat(body[k + 2..])))
      else None
  }

  function ParseDuration(s: string): (r: Option<int>)
  {
    if |s| == 0 then None
    else
      var body := s[..|s| - 1];
      if s[|s| - 1] == 'h' then
        if IsNumeral(body) then Some(60 * ParseNat(body)) else None
      else if s[|s| - 1] == 'm' then
        match SplitHours(body)
        case Some(hm) => Some(60 * hm.0 + hm.1)
        case None => ParseInt(body)
      else None
  }

  lemma IntStringNoLetter(i: int, c: char)
    requires !IsDigit(c) && c != '-'
    ensures c !in IntToString(i)
  {
  }

  lemma ParseIntToString(i: int)
    ensures ParseInt(IntToString(i)) == Some(i)
  {
    if i < 0 {
      ParseNegative(-i);
    } else {
      ParseNatToString(i);
    }
  }

  lemma ParseNegative(n: nat)
    ensures ParseInt("-" + NatToString(n)) == Some(-(n as int))
  {
    var s := "-" + NatToString(n);
    assert s[1..] == NatToString(n);
    assert !IsDigit(s[0]);
    ParseNatToString(n);
  }

  /** Every label reads back as the minutes it was made from, so two
      different durations never share a label. */
  lemma {:induction false} FormatTimeRoundTrip(minutes: int)
    ensures ParseDuration(FormatTime(minutes)) == Some(minutes)
  {
    if minutes < 60 {
      MinutesRoundTrip(minutes);
    } else if minutes % 60 == 0 {
      WholeHoursRoundTrip(minutes);
    } else {
      HoursAndMinutesRoundTrip(minutes);
    }
  }

  lemma MinutesRoundTrip(minutes: int)
    requires minutes < 60
    ensures ParseDuration(FormatTime(minutes)) == Some(minutes)
  {
    var s := FormatTime(minutes);
    assert s[..|s| - 1] == IntToString(minutes);
    IntStringNoLetter(minutes, 'h');
    ParseIntToString(minutes);
  }

  lemma WholeHoursRoundTrip(minutes: int)
    requires minutes >= 60 && minutes % 60 == 0
    ensures ParseDuration(FormatTime(minutes)) == Some(minutes)
  {
    var hours: nat := minutes / 60;
    assert FormatTime(minutes) == NatToString(hours) + "h";
    WholeHoursLabel(hours);
  }

  lemma HoursAndMinutesRoundTrip(minutes: int)
    requires minutes >= 60 && minutes % 60 != 0
    ensures ParseDuration(FormatTime(minutes)) == Some(minutes)
  {
    HoursAndMinutesLabel(minutes / 60, minutes % 60);
  }

  lemma WholeHoursLabel(h: nat)
    ensures ParseDuration(NatToString(h) + "h") == Some(60 * h)
  {
    var s := NatToString(h) + "h";
    assert s[..|s| - 1] == NatToString(h);
    ParseNatToString(h);
  }

  lemma HoursAndMinutesLabel(h: nat, m: nat)
    ensures ParseDuration(HoursMinutesLabel(h, m)) == Some(60 * h + m)
  {
    MinutesSuffix(NatToString(h) + "h " + NatToString(m));
    SplitHoursLabel(h, m);
  }

  /** A label ending in "m" is read as "<h>h <m>" or as a signed number. */
  lemma MinutesSuffix(body: string)
    ensures ParseDuration(body + "m") ==
              match SplitHours(body)
              case Some(hm) => Some(60 * hm.0 + hm.1)
              case None => ParseInt(body)
  {
    var s := body + "m";
    assert s[..|s| - 1] == body;
  }

  lemma SplitHoursLabel(h: nat, m: nat)
    ensures SplitHours(NatToString(h) + "h " + NatToString(m)) == Some((h, m))
  {
    var hs := NatToString(h);
    var body := hs + "h " + NatToString(m);
    assert 'h' !in hs by { NumeralHasNo(hs, 'h'); }
    assert body[..|hs|] == hs;
    assert IndexOf(body, 'h') == Some(|hs|);
    assert body[|hs| + 2..] == NatToString(m);
    ParseNatToString(h);
    ParseNatToString(m);
  }

  lemma NumeralHasNo(s: string, c: char)
    requires AllDigits(s) && !IsDigit(c)
    ensures c !in s
  {
  }

  lemma FormatTimeInjective(a: int, b: int)
    requires FormatTime(a) == FormatTime(b)
    ensures a == b
  {
    FormatTimeRoundTrip(a);
    FormatTimeRoundTrip(b);
  }
}
