/**
 * appointments/templatetags/custom_tags.py: the `duration` and `price`
 * template filters.
 *
 * A duration arrives as its whole number of seconds. Python's `//` and `%`
 * floor, which for the positive divisors used here is what Dafny's `/` and
 * `%` compute.
 */
module CustomTags {
  import opened Decimal

  predicate AllDigits(s: string)
  {
    forall i :: 0 <= i < |s| ==> IsDigit(s[i])
  }

  /** The hours part: nothing for no hours, then "1 hora", then "<h> horas". */
  function HoursPart(h: int): (r: string)
    ensures r == "" <==> h <= 0
  {
    if h == 1 then "1 hora" else if h > 1 then NatToString(h) + " horas" else ""
  }

  /** The minutes part: nothing for no minutes, then "1 minuto", then "<m> minutos". */
  function MinutesPart(m: int): (r: string)
    ensures r == "" <==> m <= 0
  {
    if m == 1 then "1 minuto" else if m > 1 then NatToString(m) + " minutos" else ""
  }

  /** The `duration` filter: whole hours, whole minutes, the seconds left over dropped. */
  function Duration(totalSeconds: int): (r: string)
    ensures |r| >= 1
    ensures r[0] == ' ' <==> totalSeconds / 3600 <= 0
    ensures r[|r| - 1] == ' ' <==> (totalSeconds % 3600) / 60 == 0
  {
    var hours := totalSeconds / 3600;
    var minutes := (totalSeconds % 3600) / 60;
    var hp, mp := HoursPart(hours), MinutesPart(minutes);
    assert hours > 1 ==> hp[0] == NatToString(hours)[0];
    hp + " " + mp
  }

  /**
   * The two parts split the duration: minutes lie in 0..59, fewer than 60
   * seconds are dropped, and the single space between the parts is always
   * there, so an empty part leaves a leading or trailing space.
   */
  lemma DurationSplit(totalSeconds: int)
    ensures var h, m := totalSeconds / 3600, (totalSeconds % 3600) / 60;
            && 0 <= m < 60
            && 0 <= totalSeconds - 3600 * h - 60 * m < 60
            && Duration(totalSeconds) == HoursPart(h) + " " + MinutesPart(m)
            && (Duration(totalSeconds)[0] == ' ' <==> h <= 0)
            && (Duration(totalSeconds)[|Duration(totalSeconds)| - 1] == ' ' <==> m == 0)
  {
  }

  /** Anything under a minute renders as a lone space. */
  lemma UnderAMinuteIsBlank(totalSeconds: int)
    requires 0 <= totalSeconds < 60
    ensures Duration(totalSeconds) == " "
  {
  }

  /** The number of decimal digits at the end of `s`. */
  function TrailingDigits(s: string): (n: nat)
    ensures n <= |s|
    ensures AllDigits(s[|s| - n..])
  {
    if s == [] || !IsDigit(s[|s| - 1]) then 0
    else
      var n := 1 + TrailingDigits(s[..|s| - 1]);
      assert s[|s| - n..] == s[..|s| - 1][|s| - n..] + [s[|s| - 1]];
      n
  }

  lemma {:induction false} TrailingDigitsAfterSpace(p: string, d: string)
    requires AllDigits(d)
    ensures TrailingDigits(p + " " + d) == |d|
    decreases |d|
  {
    var s := p + " " + d;
    if d == [] {
      assert s[|s| - 1] == ' ';
    } else {
      assert s[..|s| - 1] == p + " " + d[..|d| - 1];
      TrailingDigitsAfterSpace(p, d[..|d| - 1]);
    }
  }

  /** Reads an hours part back: the inverse of HoursPart on non-negative hours. */
  function ReadHours(part: string): int
  {
    if part == "1 hora" then 1
    else if |part| >= 6 && part[|part| - 6..] == " horas" && AllDigits(part[..|part| - 6]) then
      DigitsValue(part[..|part| - 6])
    else 0
  }

  /** Reads a minutes part back: the inverse of MinutesPart on non-negative minutes. */
  function ReadMinutes(part: string): int
  {
    if part == "1 minuto" then 1
    else if |part| >= 8 && part[|part| - 8..] == " minutos" && AllDigits(part[..|part| - 8]) then
      DigitsValue(part[..|part| - 8])
    else 0
  }

  lemma HoursRoundTrip(h: nat)
    ensures ReadHours(HoursPart(h)) == h
  {
    if h > 1 {
      var part := HoursPart(h);
      assert part[..|part| - 6] == NatToString(h);
      assert part[|part| - 6..] == " horas";
      DigitsValueOfNatToString(h);
    }
  }

  lemma MinutesRoundTrip(m: nat)
    ensures ReadMinutes(MinutesPart(m)) == m
  {
    if m > 1 {
      var part := MinutesPart(m);
      assert part[..|part| - 8] == NatToString(m);
      assert part[|part| - 8..] == " minutos";
      DigitsValueOfNatToString(m);
    }
  }

  /** The length of the minutes part at the end of a rendered duration. */
  function MinutesLength(text: string): (n: nat)
    ensures n <= |text|
  {
    if |text| >= 8 && text[|text| - 8..] == " minutos" then
      TrailingDigits(text[..|text| - 8]) + 8
    else if |text| >= 8 && text[|text| - 8..] == "1 minuto" then 8
    else 0
  }

  /** Reads a rendered duration back into its hours and minutes. */
  function ReadDuration(text: string): (int, int)
  {
    var n := MinutesLength(text);
    if n + 1 > |text| then (0, 0)
    else
      var k := |text| - n - 1;
      (ReadHours(text[..k]), ReadMinutes(text[k + 1..]))
  }

  lemma MinutesLengthOfRendering(hp: string, m: nat)
    requires m < 60
    ensures MinutesLength(hp + " " + MinutesPart(m)) == |MinutesPart(m)|
  {
    var mp := MinutesPart(m);
    var text := hp + " " + mp;
    if m == 0 {
      assert text[|text| - 1] == ' ';
      if |text| >= 8 {
        assert text[|text| - 8..][7] == ' ';
      }
    } else if m == 1 {
      assert text[|text| - 8..] == mp;
      assert mp[7] == 'o';
    } else {
      var d := NatToString(m);
      assert text[|text| - 8..] == " minutos";
      assert text[..|text| - 8] == hp + " " + d;
      TrailingDigitsAfterSpace(hp, d);
    }
  }

  /**
   * The rendered text determines the whole hours and minutes of any
   * non-negative duration: reading it back gives them.
   */
  lemma DurationRoundTrip(totalSeconds: nat)
    ensures ReadDuration(Duration(totalSeconds)) == (totalSeconds / 3600, (totalSeconds % 3600) / 60)
  {
    var h, m := totalSeconds / 3600, (totalSeconds % 3600) / 60;
    var hp, mp := HoursPart(h), MinutesPart(m);
    var text := hp + " " + mp;
    assert Duration(totalSeconds) == text;
    MinutesLengthOfRendering(hp, m);
    var k := |text| - |mp| - 1;
    assert k == |hp|;
    assert text[..k] == hp;
    assert text[k + 1..] == mp;
    HoursRoundTrip(h);
    MinutesRoundTrip(m);
  }

  /** Two durations render alike exactly when they have the same whole minutes. */
  lemma DurationDeterminesMinutes(s1: nat, s2: nat)
    ensures Duration(s1) == Duration(s2) <==> s1 / 60 == s2 / 60
  {
    if Duration(s1) == Duration(s2) {
      DurationRoundTrip(s1);
      DurationRoundTrip(s2);
    }
    assert s1 / 3600 == (s1 / 60) / 60 && (s1 % 3600) / 60 == (s1 / 60) % 60;
    assert s2 / 3600 == (s2 / 60) / 60 && (s2 % 3600) / 60 == (s2 / 60) % 60;
  }

  /** Digits grouped in threes from the right, joined by commas. */
  function Group(d: string): (r: string)
    ensures |r| == |d| + (if |d| == 0 then 0 else (|d| - 1) / 3)
    ensures |d| > 0 ==> r[0] == d[0]
  {
    if |d| <= 3 then d else Group(d[..|d| - 3]) + "," + d[|d| - 3..]
  }

  /**
   * A comma stands exactly at every fourth place counted from the right end,
   * so the digits come in groups of three with a shorter group only at the
   * front.
   */
  lemma GroupCommas(d: string)
    requires AllDigits(d)
    ensures forall i :: 0 <= i < |Group(d)| ==> (Group(d)[i] == ',' <==> (|Group(d)| - i) % 4 == 0)
  {
    forall i | 0 <= i < |Group(d)|
      ensures Group(d)[i] == ',' <==> (|Group(d)| - i) % 4 == 0
    {
      GroupCommaAt(d, i);
    }
  }

  lemma {:induction false} GroupCommaAt(d: string, i: int)
    requires AllDigits(d) && 0 <= i < |Group(d)|
    ensures Group(d)[i] == ',' <==> (|Group(d)| - i) % 4 == 0
    decreases |d|, 1
  {
    if |d| <= 3 {
      assert Group(d) == d;
      assert IsDigit(d[i]);
    } else {
      var hr := Group(d[..|d| - 3]);
      GroupUnfold(d);
      if i < |hr| {
        GroupCommaInHead(d, i);
      } else if i > |hr| {
        GroupDigitInTail(d, i);
      }
    }
  }

  /** A place inside the grouped front part keeps its distance to the end modulo 4. */
  lemma {:induction false} GroupCommaInHead(d: string, i: int)
    requires AllDigits(d) && |d| > 3 && 0 <= i < |Group(d[..|d| - 3])|
    ensures i < |Group(d)| && (Group(d)[i] == ',' <==> (|Group(d)| - i) % 4 == 0)
    decreases |d|, 0
  {
    var head := d[..|d| - 3];
    var hr := Group(head);
    assert AllDigits(head) by {
      forall k | 0 <= k < |head| ensures IsDigit(head[k]) {
        assert head[k] == d[k];
      }
    }
    GroupCommaAt(head, i);
    GroupUnfold(d);
    var m := |hr| - i;
    assert Group(d)[i] == hr[i];
    assert |Group(d)| - i == m + 4;
    ShiftByFour(m);
  }

  lemma ShiftByFour(m: int)
    ensures (m + 4) % 4 == m % 4
  {
  }

  /** The last three places are digits. */
  lemma GroupDigitInTail(d: string, i: int)
    requires AllDigits(d) && |d| > 3 && |Group(d[..|d| - 3])| < i < |Group(d)|
    ensures Group(d)[i] != ',' && (|Group(d)| - i) % 4 != 0
  {
    var hr := Group(d[..|d| - 3]);
    GroupUnfold(d);
    var j := i - |hr| - 1;
    assert Group(d)[i] == d[|d| - 3 + j];
    assert IsDigit(d[|d| - 3 + j]);
    assert 1 <= |Group(d)| - i <= 3;
  }

  /** One step of the grouping: the last three digits follow a comma. */
  lemma GroupUnfold(d: string)
    requires |d| > 3
    ensures Group(d) == Group(d[..|d| - 3]) + "," + d[|d| - 3..]
  {
  }

  /** The `price` filter: `f'${value:,}'` for an integer value. */
  function Price(value: int): (r: string)
    ensures |r| >= 2 && r[0] == '$'
    ensures value < 0 <==> r[1] == '-'
  {
    "$" + (if value < 0 then "-" else "") + Group(NatToString(if value < 0 then -value else value))
  }

  /** The text without its commas. */
  function StripCommas(s: string): (r: string)
  {
    if s == [] then [] else StripCommas(s[..|s| - 1]) + (if s[|s| - 1] == ',' then [] else [s[|s| - 1]])
  }

  lemma {:induction false} StripCommasAppend(a: string, b: string)
    ensures StripCommas(a + b) == StripCommas(a) + StripCommas(b)
    decreases |b|
  {
    if b == [] {
      assert a + b == a;
    } else {
      assert (a + b)[..|a + b| - 1] == a + b[..|b| - 1];
      StripCommasAppend(a, b[..|b| - 1]);
    }
  }

  lemma {:induction false} StripCommasOfDigits(d: string)
    requires AllDigits(d)
    ensures StripCommas(d) == d
    decreases |d|
  {
    if d != [] {
      StripCommasOfDigits(d[..|d| - 1]);
      assert d == d[..|d| - 1] + [d[|d| - 1]];
    }
  }

  /** Removing the commas gives back the digits that were grouped. */
  lemma {:induction false} StripCommasOfGroup(d: string)
    requires AllDigits(d)
    ensures StripCommas(Group(d)) == d
    decreases |d|
  {
    if |d| <= 3 {
      StripCommasOfDigits(d);
    } else {
      var head, tail := d[..|d| - 3], d[|d| - 3..];
      assert AllDigits(head) && AllDigits(tail);
      GroupUnfold(d);
      StripCommasAroundComma(Group(head), tail);
      StripCommasOfGroup(head);
      StripCommasOfDigits(tail);
      assert d == head + tail;
    }
  }

  lemma StripCommasAroundComma(a: string, b: string)
    ensures StripCommas(a + "," + b) == StripCommas(a) + StripCommas(b)
  {
    var ac := a + ",";
    assert ac[..|ac| - 1] == a && ac[|ac| - 1] == ',';
    assert StripCommas(ac) == StripCommas(a);
    assert a + "," + b == ac + b;
    StripCommasAppend(ac, b);
  }

  /** Reads a rendered price back into the integer. */
  function ReadPrice(text: string): int
  {
    if |text| < 1 then 0
    else
      var negative := |text| >= 2 && text[1] == '-';
      var digits := StripCommas(text[if negative then 2 else 1..]);
      if !AllDigits(digits) then 0
      else
        var magnitude: int := DigitsValue(digits);
        if negative then -magnitude else magnitude
  }

  /** A rendered price reads back as the value it was made from. */
  lemma PriceRoundTrip(value: int)
    ensures ReadPrice(Price(value)) == value
  {
    var n: nat := if value < 0 then -value else value;
    var d := NatToString(n);
    var r := Price(value);
    var start := if value < 0 then 2 else 1;
    assert r[start..] == Group(d);
    StripCommasOfGroup(d);
    DigitsValueOfNatToString(n);
  }
}
