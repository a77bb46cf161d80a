// `parse_gdelt_date`: the compact `YYYYMMDDHHMMSS` stamp of a GDELT article becomes an
// RFC 3339 date-time (`YYYY-MM-DDTHH:MM:SSZ`, section 5.6 of RFC 3339). Any failure
// falls back to the clock, which the model takes as a parameter: `now` is the text
// `datetime.now().isoformat()` would give.

module SeenDate {
  import opened Text

  datatype DateTime = DateTime(year: nat, month: nat, day: nat,
                               hour: nat, minute: nat, second: nat)

  predicate IsLeapYear(y: nat)
  {
    y % 4 == 0 && (y % 100 != 0 || y % 400 == 0)
  }

  function DaysInMonth(y: nat, m: nat): nat
    requires 1 <= m <= 12
  {
    if m == 2 then (if IsLeapYear(y) then 29 else 28)
    else if m == 4 || m == 6 || m == 9 || m == 11 then 30
    else 31
  }

  /** The fields `datetime(year, month, day, hour, minute, second)` accepts. */
  predicate Valid(dt: DateTime)
  {
    && 1 <= dt.year <= 9999
    && 1 <= dt.month <= 12
    && 1 <= dt.day <= DaysInMonth(dt.year, dt.month)
    && dt.hour < 24 && dt.minute < 60 && dt.second < 60
  }

  /** `int(s[i:j])` for a field of ASCII digits; anything else fails. */
  function FieldAt(s: string, i: nat, j: nat): (r: Option<nat>)
    requires i < j <= |s|
    ensures r.Some? <==> AllDigits(s[i..j])
    ensures r.Some? ==> r.value == DecimalValue(s[i..j]) && r.value < Pow10(j - i)
  {
    if AllDigits(s[i..j]) then
      DecimalValueBound(s[i..j]);
      Some(DecimalValue(s[i..j]))
    else None
  }

  /** A clock field at `i`: read when the stamp reaches `i + 2` characters, else 0. */
  function ClockField(s: string, i: nat): (r: Option<nat>)
    ensures |s| < i + 2 ==> r == Some(0)
  {
    if |s| >= i + 2 then FieldAt(s, i, i + 2) else Some(0)
  }

  /** The slices `[0:4]`, `[4:6]` and `[6:8]` are numbers, and so are `[8:10]`,
      `[10:12]` and `[12:14]` where the stamp is long enough to hold them. */
  predicate FieldsAreNumbers(s: string)
    requires |s| >= 8
  {
    && AllDigits(s[0..4]) && AllDigits(s[4..6]) && AllDigits(s[6..8])
    && (|s| >= 10 ==> AllDigits(s[8..10]))
    && (|s| >= 12 ==> AllDigits(s[10..12]))
    && (|s| >= 14 ==> AllDigits(s[12..14]))
  }

  /** Year, month and day from the first eight digits; hour, minute and second from
      the next three pairs, or 0 where the stamp stops short. */
  function StampValue(s: string): DateTime
    requires |s| >= 8 && FieldsAreNumbers(s)
  {
    DateTime(DecimalValue(s[0..4]), DecimalValue(s[4..6]), DecimalValue(s[6..8]),
             if |s| >= 10 then DecimalValue(s[8..10]) else 0,
             if |s| >= 12 then DecimalValue(s[10..12]) else 0,
             if |s| >= 14 then DecimalValue(s[12..14]) else 0)
  }

  /** The date-time a stamp of at least 8 characters denotes, if every field present
      is a number and together they form a real calendar date and clock time. */
  function Fields(s: string): (r: Option<DateTime>)
    requires |s| >= 8
    ensures r.Some? <==> FieldsAreNumbers(s) && Valid(StampValue(s))
    ensures r.Some? ==> r.value == StampValue(s)
    ensures r.Some? ==> Valid(r.value)
    ensures r.Some? ==> AllDigits(s[..8])
  {
    var y, mo, d := FieldAt(s, 0, 4), FieldAt(s, 4, 6), FieldAt(s, 6, 8);
    var h, mi, se := ClockField(s, 8), ClockField(s, 10), ClockField(s, 12);
    if y.Some? && mo.Some? && d.Some? && h.Some? && mi.Some? && se.Some? then
      var dt := DateTime(y.value, mo.value, d.value, h.value, mi.value, se.value);
      if Valid(dt) then
        assert s[..8] == s[0..4] + s[4..6] + s[6..8];
        Some(dt)
      else None
    else None
  }

  /** `dt.isoformat() + "Z"` for a date-time without microseconds. */
  function IsoFormat(dt: DateTime): (r: string)
    requires Valid(dt)
    ensures |r| == 20
    ensures r[4] == '-' && r[7] == '-' && r[10] == 'T' && r[13] == ':' && r[16] == ':'
    ensures r[19] == 'Z'
    ensures AllDigits(r[0..4]) && AllDigits(r[5..7]) && AllDigits(r[8..10])
    ensures AllDigits(r[11..13]) && AllDigits(r[14..16]) && AllDigits(r[17..19])
    ensures DecimalValue(r[0..4]) == dt.year && DecimalValue(r[5..7]) == dt.month
    ensures DecimalValue(r[8..10]) == dt.day && DecimalValue(r[11..13]) == dt.hour
    ensures DecimalValue(r[14..16]) == dt.minute && DecimalValue(r[17..19]) == dt.second
  {
    var y, mo, d := Padded(dt.year, 4), Padded(dt.month, 2), Padded(dt.day, 2);
    var h, mi, se := Padded(dt.hour, 2), Padded(dt.minute, 2), Padded(dt.second, 2);
    IsoSlices(y, mo, d, h, mi, se);
    assert Pow10(2) == 100 && Pow10(4) == 10000;
    DecimalValuePadded(dt.year, 4);
    DecimalValuePadded(dt.month, 2);
    DecimalValuePadded(dt.day, 2);
    DecimalValuePadded(dt.hour, 2);
    DecimalValuePadded(dt.minute, 2);
    DecimalValuePadded(dt.second, 2);
    y + "-" + mo + "-" + d + "T" + h + ":" + mi + ":" + se + "Z"
  }

  /** The six parts of an RFC 3339 date-time, sliced back out, and its separators. */
  lemma IsoSlices(y: string, mo: string, d: string, h: string, mi: string, se: string)
    requires |y| == 4 && |mo| == 2 && |d| == 2 && |h| == 2 && |mi| == 2 && |se| == 2
    ensures var r := y + "-" + mo + "-" + d + "T" + h + ":" + mi + ":" + se + "Z";
            && |r| == 20
            && r[4] == '-' && r[7] == '-' && r[10] == 'T' && r[13] == ':' && r[16] == ':'
            && r[19] == 'Z'
            && r[0..4] == y && r[5..7] == mo && r[8..10] == d
            && r[11..13] == h && r[14..16] == mi && r[17..19] == se
  {
    var r := y + "-" + mo + "-" + d + "T" + h + ":" + mi + ":" + se + "Z";
    assert r[0..4] == y by { assert forall k :: 0 <= k < 4 ==> r[k] == y[k]; }
    assert r[5..7] == mo by { assert r[5] == mo[0] && r[6] == mo[1]; }
    assert r[8..10] == d by { assert r[8] == d[0] && r[9] == d[1]; }
    assert r[11..13] == h by { assert r[11] == h[0] && r[12] == h[1]; }
    assert r[14..16] == mi by { assert r[14] == mi[0] && r[15] == mi[1]; }
    assert r[17..19] == se by { assert r[17] == se[0] && r[18] == se[1]; }
  }

  /** `parse_gdelt_date(seendate)` with the clock reading `now`. */
  function ParseSeenDate(s: string, now: string): (r: string)
    ensures |s| < 8 ==> r == now + "Z"
    ensures |s| >= 8 && Fields(s).None? ==> r == now + "Z"
    ensures |s| >= 8 && Fields(s).Some? ==> r == IsoFormat(Fields(s).value)
    ensures |s| >= 8 && Fields(s).Some? ==> |r| == 20 && r[10] == 'T' && r[19] == 'Z'
  {
    if |s| < 8 then now + "Z"
    else
      match Fields(s)
      case None => now + "Z"
      case Some(dt) => IsoFormat(dt)
  }

  /** The compact `YYYYMMDDHHMMSS` stamp GDELT writes for a date-time. */
  function Compact(dt: DateTime): (s: string)
    requires Valid(dt)
    ensures |s| == 14 && AllDigits(s)
  {
    Padded(dt.year, 4) + Padded(dt.month, 2) + Padded(dt.day, 2)
    + Padded(dt.hour, 2) + Padded(dt.minute, 2) + Padded(dt.second, 2)
  }

  /** A value below `10^|s|` fits in `|s|` digits. */
  lemma {:induction false} DecimalValueBound(s: string)
    requires AllDigits(s)
    ensures DecimalValue(s) < Pow10(|s|)
  {
    if s != [] {
      DecimalValueBound(s[..|s| - 1]);
    }
  }

  /** The six parts of a compact stamp, sliced back out. */
  lemma StampSlices(y: string, mo: string, d: string, h: string, mi: string, se: string)
    requires |y| == 4 && |mo| == 2 && |d| == 2 && |h| == 2 && |mi| == 2 && |se| == 2
    ensures var s := y + mo + d + h + mi + se;
            && s[0..4] == y && s[4..6] == mo && s[6..8] == d
            && s[8..10] == h && s[10..12] == mi && s[12..14] == se
  {
    var s := y + mo + d + h + mi + se;
    assert s[0..4] == y by { assert forall k :: 0 <= k < 4 ==> s[k] == y[k]; }
    assert s[4..6] == mo by { assert s[4] == mo[0] && s[5] == mo[1]; }
    assert s[6..8] == d by { assert s[6] == d[0] && s[7] == d[1]; }
    assert s[8..10] == h by { assert s[8] == h[0] && s[9] == h[1]; }
    assert s[10..12] == mi by { assert s[10] == mi[0] && s[11] == mi[1]; }
    assert s[12..14] == se by { assert s[12] == se[0] && s[13] == se[1]; }
  }

  /** The six fields of the compact form read back the six values written. */
  lemma CompactFields(dt: DateTime)
    requires Valid(dt)
    ensures var s := Compact(dt);
            && FieldAt(s, 0, 4) == Some(dt.year) && FieldAt(s, 4, 6) == Some(dt.month)
            && FieldAt(s, 6, 8) == Some(dt.day) && FieldAt(s, 8, 10) == Some(dt.hour)
            && FieldAt(s, 10, 12) == Some(dt.minute) && FieldAt(s, 12, 14) == Some(dt.second)
  {
    var y, mo, d := Padded(dt.year, 4), Padded(dt.month, 2), Padded(dt.day, 2);
    var h, mi, se := Padded(dt.hour, 2), Padded(dt.minute, 2), Padded(dt.second, 2);
    StampSlices(y, mo, d, h, mi, se);
    DecimalValuePadded(dt.year, 4);
    DecimalValuePadded(dt.month, 2);
    DecimalValuePadded(dt.day, 2);
    DecimalValuePadded(dt.hour, 2);
    DecimalValuePadded(dt.minute, 2);
    DecimalValuePadded(dt.second, 2);
  }

  /** Every valid date-time written in the compact form parses back to its RFC 3339
      rendering. */
  lemma CompactRoundTrip(dt: DateTime, now: string)
    requires Valid(dt)
    ensures Fields(Compact(dt)) == Some(dt)
    ensures ParseSeenDate(Compact(dt), now) == IsoFormat(dt)
  {
    CompactFields(dt);
  }

  /** A full 14-character stamp that parses is the compact form of what it parses to:
      parsing loses nothing. */
  lemma FieldsRoundTrip(s: string)
    requires |s| == 14 && Fields(s).Some?
    ensures Compact(Fields(s).value) == s
  {
    var y, mo, d := s[0..4], s[4..6], s[6..8];
    var h, mi, se := s[8..10], s[10..12], s[12..14];
    FullStampFields(s);
    PaddedDecimalValue(y);
    PaddedDecimalValue(mo);
    PaddedDecimalValue(d);
    PaddedDecimalValue(h);
    PaddedDecimalValue(mi);
    PaddedDecimalValue(se);
    StampSlices(y, mo, d, h, mi, se);
    assert s == y + mo + d + h + mi + se;
  }

  /** The fields a full stamp parses to are the values of its six slices. */
  lemma FullStampFields(s: string)
    requires |s| == 14 && Fields(s).Some?
    ensures AllDigits(s[0..4]) && AllDigits(s[4..6]) && AllDigits(s[6..8])
    ensures AllDigits(s[8..10]) && AllDigits(s[10..12]) && AllDigits(s[12..14])
    ensures Fields(s).value
            == DateTime(DecimalValue(s[0..4]), DecimalValue(s[4..6]), DecimalValue(s[6..8]),
                        DecimalValue(s[8..10]), DecimalValue(s[10..12]), DecimalValue(s[12..14]))
  {
  }

  /** Stamps cut short after the day, the hour or the minute read the missing clock
      fields as 0. */
  lemma ShortStampsAreZeroFilled(s: string)
    requires |s| >= 8 && Fields(s).Some?
    ensures |s| < 10 ==> Fields(s).value.hour == 0
    ensures |s| < 12 ==> Fields(s).value.minute == 0
    ensures |s| < 14 ==> Fields(s).value.second == 0
  {
  }

  /** Digit strings of one length with one value are the same string. */
  lemma SameValueSameDigits(x: string, y: string)
    requires AllDigits(x) && AllDigits(y) && |x| == |y| && DecimalValue(x) == DecimalValue(y)
    ensures x == y
  {
    PaddedDecimalValue(x);
    PaddedDecimalValue(y);
  }

  /** A two-digit field worth 0 reads `00`. */
  lemma ZeroField(x: string)
    requires AllDigits(x) && |x| == 2 && DecimalValue(x) == 0
    ensures x == "00"
  {
    assert AllDigits("00") && DecimalValue("00") == 0 by {
      assert "00"[..1] == "0" && "0"[..0] == [];
    }
    SameValueSameDigits(x, "00");
  }

  /** Each digit of the stamp lands in its place: `YYYYMMDDHHMMSS` is written
      `YYYY-MM-DDTHH:MM:SSZ`, with `00` for the clock fields a short stamp lacks. */
  lemma DigitsInPlace(s: string, now: string)
    requires |s| >= 8 && Fields(s).Some?
    ensures var r := ParseSeenDate(s, now);
            && r[0..4] == s[0..4] && r[5..7] == s[4..6] && r[8..10] == s[6..8]
            && r[4] == '-' && r[7] == '-' && r[10] == 'T' && r[13] == ':' && r[16] == ':'
            && r[19] == 'Z'
            && (if |s| >= 10 then r[11..13] == s[8..10] else r[11..13] == "00")
            && (if |s| >= 12 then r[14..16] == s[10..12] else r[14..16] == "00")
            && (if |s| >= 14 then r[17..19] == s[12..14] else r[17..19] == "00")
  {
    var r := ParseSeenDate(s, now);
    SameValueSameDigits(r[0..4], s[0..4]);
    SameValueSameDigits(r[5..7], s[4..6]);
    SameValueSameDigits(r[8..10], s[6..8]);
    if |s| >= 10 { SameValueSameDigits(r[11..13], s[8..10]); } else { ZeroField(r[11..13]); }
    if |s| >= 12 { SameValueSameDigits(r[14..16], s[10..12]); } else { ZeroField(r[14..16]); }
    if |s| >= 14 { SameValueSameDigits(r[17..19], s[12..14]); } else { ZeroField(r[17..19]); }
  }

  /** Two parses that succeed with the same output came from the same date-time. */
  lemma {:induction false} IsoFormatInjective(a: DateTime, b: DateTime)
    requires Valid(a) && Valid(b) && IsoFormat(a) == IsoFormat(b)
    ensures a == b
  {
    var r := IsoFormat(a);
    assert r[0..4] == Padded(a.year, 4) == Padded(b.year, 4);
    assert r[5..7] == Padded(a.month, 2) == Padded(b.month, 2);
    assert r[8..10] == Padded(a.day, 2) == Padded(b.day, 2);
    assert r[11..13] == Padded(a.hour, 2) == Padded(b.hour, 2);
    assert r[14..16] == Padded(a.minute, 2) == Padded(b.minute, 2);
    assert r[17..19] == Padded(a.second, 2) == Padded(b.second, 2);
    assert Pow10(2) == 100 && Pow10(4) == 10000;
    PaddedInjective(a.year, b.year, 4);
    PaddedInjective(a.month, b.month, 2);
    PaddedInjective(a.day, b.day, 2);
    PaddedInjective(a.hour, b.hour, 2);
    PaddedInjective(a.minute, b.minute, 2);
    PaddedInjective(a.second, b.second, 2);
  }

  /** Values that fit in `w` digits and pad alike are equal. */
  lemma PaddedInjective(x: nat, y: nat, w: nat)
    requires x < Pow10(w) && y < Pow10(w) && Padded(x, w) == Padded(y, w)
    ensures x == y
  {
    DecimalValuePadded(x, w);
    DecimalValuePadded(y, w);
  }

  /** February 30th is not a date: `20230230` falls back to the clock. */
  lemma NoThirtiethOfFebruary(s: string, now: string)
    requires s == "20230230"
    ensures ParseSeenDate(s, now) == now + "Z"
  {
    TwoDigits(s, 4);
    TwoDigits(s, 6);
    assert FieldAt(s, 4, 6) == Some(2) && FieldAt(s, 6, 8) == Some(30);
  }

  /** The digits of 2024-03-15 12:30:45. */
  lemma StampDigits(dt: DateTime)
    requires dt == DateTime(2024, 3, 15, 12, 30, 45)
    ensures Padded(dt.year, 4) == "2024" && Padded(dt.month, 2) == "03"
    ensures Padded(dt.day, 2) == "15" && Padded(dt.hour, 2) == "12"
    ensures Padded(dt.minute, 2) == "30" && Padded(dt.second, 2) == "45"
  {
    PaddedYear();
    PaddedTwo(3, '0', '3');
    PaddedTwo(15, '1', '5');
    PaddedTwo(12, '1', '2');
    PaddedTwo(30, '3', '0');
    PaddedTwo(45, '4', '5');
  }

  lemma PaddedYear()
    ensures Padded(2024, 4) == "2024"
  {
    assert Padded(0, 0) == [];
    PaddedStep(0, '2', 0);
    PaddedStep(2, '0', 1);
    PaddedStep(20, '2', 2);
    PaddedStep(202, '4', 3);
  }

  /** Two digits `a` and `b` pad the value they read. */
  lemma PaddedTwo(v: nat, a: char, b: char)
    requires IsDigit(a) && IsDigit(b) && v == DigitValue(a) * 10 + DigitValue(b)
    ensures Padded(v, 2) == [a, b]
  {
    assert Padded(0, 0) == [];
    PaddedStep(0, a, 0);
    PaddedStep(DigitValue(a), b, 1);
  }

  /** One more digit `c` after the padding of `u`. */
  lemma PaddedStep(u: nat, c: char, w: nat)
    requires IsDigit(c)
    ensures Padded(u * 10 + DigitValue(c), w + 1) == Padded(u, w) + [c]
  {
    var v := u * 10 + DigitValue(c);
    assert v / 10 == u && v % 10 == DigitValue(c);
    assert DigitChar(DigitValue(c)) == c;
  }

  /** Written in the two forms. */
  lemma StampForms(dt: DateTime)
    requires dt == DateTime(2024, 3, 15, 12, 30, 45)
    ensures Valid(dt)
    ensures Compact(dt) == "20240315123045"
    ensures IsoFormat(dt) == "2024-03-15T12:30:45Z"
  {
    CompactStamp(dt);
    IsoStamp(dt);
  }

  lemma CompactStamp(dt: DateTime)
    requires dt == DateTime(2024, 3, 15, 12, 30, 45)
    ensures Valid(dt) && Compact(dt) == "20240315123045"
  {
    StampDigits(dt);
    assert Compact(dt) == "2024" + "03" + "15" + "12" + "30" + "45";
    CompactText();
  }

  lemma CompactText()
    ensures "2024" + "03" + "15" + "12" + "30" + "45" == "20240315123045"
  {
  }

  lemma IsoStamp(dt: DateTime)
    requires dt == DateTime(2024, 3, 15, 12, 30, 45)
    ensures Valid(dt) && IsoFormat(dt) == "2024-03-15T12:30:45Z"
  {
    StampDigits(dt);
    assert IsoFormat(dt) == "2024" + "-" + "03" + "-" + "15" + "T" + "12" + ":" + "30" + ":" + "45" + "Z";
    IsoText();
  }

  lemma IsoText()
    ensures "2024" + "-" + "03" + "-" + "15" + "T" + "12" + ":" + "30" + ":" + "45" + "Z"
            == "2024-03-15T12:30:45Z"
  {
  }

  /** A full GDELT stamp becomes the RFC 3339 date-time it denotes. */
  lemma FullStamp(s: string, now: string)
    requires s == "20240315123045"
    ensures ParseSeenDate(s, now) == "2024-03-15T12:30:45Z"
  {
    var dt := DateTime(2024, 3, 15, 12, 30, 45);
    StampForms(dt);
    CompactRoundTrip(dt, now);
  }
}
