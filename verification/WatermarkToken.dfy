/** The watermark value itself (watermark.ts): a stamp widened to fixed-width UTC micros, and the
    token `<stamp>|<rowid>` that carries it. */
module WatermarkToken {
  import opened Wrappers
  import opened Lexical
  import opened Decimal
  import opened Calendar
  import opened JsNumber
  import opened ShortestDigits

  // ---- the grammar of an instant ----

  datatype Zone = Zulu | Offset(text: string)

  /** The groups of the RFC 3339 pattern. */
  datatype Parts = Parts(date: string, time: string, frac: string, zone: Zone)

  predicate IsDate(s: string) {
    |s| == 10 && AllDigits(s[..4]) && s[4] == '-' && AllDigits(s[5..7]) && s[7] == '-' && AllDigits(s[8..])
  }

  predicate IsTime(s: string) {
    |s| == 8 && AllDigits(s[..2]) && s[2] == ':' && AllDigits(s[3..5]) && s[5] == ':' && AllDigits(s[6..])
  }

  predicate IsOffset(s: string) {
    |s| == 6 && s[0] in "+-" && AllDigits(s[1..3]) && s[3] == ':' && AllDigits(s[4..])
  }

  function MatchZone(s: string): Option<Zone> {
    if s == "Z" || s == "z" then Some(Zulu) else if IsOffset(s) then Some(Offset(s)) else None
  }

  /** How many digits a text starts with. */
  function Run(s: string): (n: nat)
    ensures n <= |s| && AllDigits(s[..n]) && (n < |s| ==> !IsDigit(s[n]))
  {
    if s == "" || !IsDigit(s[0]) then 0
    else
      var n := 1 + Run(s[1..]);
      assert forall i :: 1 <= i < n ==> s[i] == s[1..][..n - 1][i - 1];
      n
  }

  function Match(s: string): (p: Option<Parts>)
    ensures p.Some? ==> IsDate(p.value.date) && IsTime(p.value.time) && AllDigits(p.value.frac)
    ensures p.Some? && p.value.zone.Offset? ==> IsOffset(p.value.zone.text)
  {
    if |s| < 20 || !IsDate(s[..10]) || s[10] !in "Tt " || !IsTime(s[11..19]) then None
    else
      var rest := s[19..];
      var n := if rest[0] == '.' then Run(rest[1..]) else 0;
      if rest[0] == '.' && n == 0 then None
      else
        var zone := MatchZone(if rest[0] == '.' then rest[1 + n..] else rest);
        if zone.None? then None else Some(Parts(s[..10], s[11..19], if rest[0] == '.' then rest[1..][..n] else "",
            zone.value))
  }

  /** A zone as it may be written. */
  predicate ZoneText(z: string, zone: Zone) {
    match zone
    case Zulu => z == "Z" || z == "z"
    case Offset(text) => z == text && IsOffset(text)
  }

  function Fraction(frac: string): string { if frac == "" then "" else "." + frac }

  /** The grammar, exactly: a text has these parts if and only if it is the date, one of T, t and a
      blank, the time, a fraction if there is one, and the zone. */
  lemma {:induction false} MatchExactly(s: string, p: Parts)
    ensures Match(s) == Some(p) <==>
      && IsDate(p.date) && IsTime(p.time) && AllDigits(p.frac)
      && exists sep: char, z ::
           sep in "Tt " && ZoneText(z, p.zone) && s == p.date + [sep] + p.time + Fraction(p.frac) + z
  {
    hide IsDate, IsTime, IsOffset;
    if Match(s) == Some(p) {
      MatchReads(s, p);
    }
    if IsDate(p.date) && IsTime(p.time) && AllDigits(p.frac) {
      forall sep: char, z | sep in "Tt " && ZoneText(z, p.zone) && s == p.date + [sep] + p.time + Fraction(p.frac) + z
        ensures Match(s) == Some(p)
      {
        MatchWrites(s, p, sep, z);
      }
    }
  }

  lemma {:induction false} MatchReads(s: string, p: Parts)
    requires Match(s) == Some(p)
    ensures exists sep: char, z ::
              sep in "Tt " && ZoneText(z, p.zone) && s == p.date + [sep] + p.time + Fraction(p.frac) + z
  {
    hide IsDate, IsTime, IsOffset;
    var rest := s[19..];
    var z := if rest[0] == '.' then rest[1 + |p.frac|..] else rest;
    assert rest == Fraction(p.frac) + z;
    assert ZoneText(z, p.zone);
    Recombined(s, Fraction(p.frac), z);
  }

  lemma {:induction false} Recombined(s: string, frac: string, z: string)
    requires |s| >= 20 && s[19..] == frac + z
    ensures s == s[..10] + [s[10]] + s[11..19] + frac + z
  {
    assert s == s[..10] + [s[10]] + s[11..19] + s[19..];
  }

  lemma {:induction false} MatchWrites(s: string, p: Parts, sep: char, z: string)
    requires IsDate(p.date) && IsTime(p.time) && AllDigits(p.frac) && sep in "Tt " && ZoneText(z, p.zone)
    requires s == p.date + [sep] + p.time + Fraction(p.frac) + z
    ensures Match(s) == Some(p)
  {
    hide IsOffset, IsDate, IsTime, MatchZone, ZoneText, Run;
    Lengths(p.date, p.time);
    ZoneStarts(z, p.zone);
    Taken(p.date, sep, p.time, Fraction(p.frac) + z);
    assert s == p.date + [sep] + p.time + (Fraction(p.frac) + z);
    TailReads(p.frac, z);
  }

  lemma {:induction false} Taken(date: string, sep: char, time: string, rest: string)
    requires |date| == 10 && |time| == 8
    ensures var s := date + [sep] + time + rest;
      s[..10] == date && s[10] == sep && s[11..19] == time && s[19..] == rest
  {
  }

  lemma {:induction false} TailReads(frac: string, z: string)
    requires AllDigits(frac) && z != "" && !IsDigit(z[0]) && z[0] != '.'
    ensures var rest := Fraction(frac) + z;
      if rest[0] != '.' then frac == "" && rest == z
      else Run(rest[1..]) == |frac| > 0 && rest[1..][..|frac|] == frac && rest[1 + |frac|..] == z
  {
    hide Run;
    var rest := Fraction(frac) + z;
    if frac == "" {
      assert rest == z;
    } else {
      assert rest[1..] == frac + z;
      RunIs(frac, z);
    }
  }

  lemma {:induction false} Lengths(date: string, time: string)
    requires IsDate(date) && IsTime(time)
    ensures |date| == 10 && |time| == 8
  {
  }

  lemma {:induction false} ZoneStarts(z: string, zone: Zone)
    requires ZoneText(z, zone)
    ensures z != "" && !IsDigit(z[0]) && z[0] != '.' && MatchZone(z) == Some(zone)
  {
  }

  // ---- what the parts mean ----

  function Num(s: string): nat
    requires AllDigits(s)
  {
    Value(s)
  }

  function DateOf(s: string): Date
    requires IsDate(s)
  {
    Date(Num(s[..4]), Num(s[5..7]), Num(s[8..]))
  }

  function ClockOf(date: string, time: string): Clock
    requires IsDate(date) && IsTime(time)
  {
    Clock(DateOf(date), Num(time[..2]), Num(time[3..5]), Num(time[6..]))
  }

  predicate IsReal(c: Clock) { Ticks(c) || EndsDay(c) }

  function OffsetSeconds(s: string): (o: int)
    requires IsOffset(s)
  {
    var o := Num(s[1..3]) * 3600 + Num(s[4..]) * 60;
    if s[0] == '-' then -o else o
  }

  predicate IsRealOffset(s: string)
    requires IsOffset(s)
  {
    Num(s[1..3]) <= 23 && Num(s[4..]) <= 59
  }

  /** The whole seconds a text names, if it names a real instant. Years before -1 are out of
      reach: an offset moves a stamp of the year 0 back by less than a day. */
  function InstantOf(p: Parts): Option<nat>
    requires IsDate(p.date) && IsTime(p.time) && (p.zone.Offset? ==> IsOffset(p.zone.text))
  {
    var c := ClockOf(p.date, p.time);
    if !IsReal(c) then None
    else if p.zone.Zulu? then Some(Seconds(c))
    else if !IsRealOffset(p.zone.text) then None
    else
      OffsetIsSmall(p.zone.text);
      YearIsLate(c);
      Some(Seconds(c) - OffsetSeconds(p.zone.text))
  }

  lemma {:induction false} OffsetIsSmall(s: string)
    requires IsOffset(s) && IsRealOffset(s)
    ensures -86400 < OffsetSeconds(s) < 86400
  {
  }

  lemma {:induction false} YearIsLate(c: Clock)
    requires Real(c.date) && c.date.year >= 0
    ensures Seconds(c) >= 365 * 86400
  {
  }

  // ---- normalizing ----

  function Two(n: nat): string { Padded(n, 2) }

  function DateText(d: Date): string
    requires d.year >= -1
  {
    (if d.year < 0 then "-" + Padded(-d.year, 6) else if d.year > 9999 then "+" + Padded(d.year, 6)
        else Padded(d.year, 4))
    + "-" + Two(d.month) + "-" + Two(d.day)
  }

  function TimeText(c: Clock): string { Two(c.hour) + ":" + Two(c.minute) + ":" + Two(c.second) }

  function IsoText(c: Clock): string
    requires c.date.year >= -1
  {
    DateText(c.date) + "T" + TimeText(c) + ".000Z"
  }

  function Micros(frac: string): (m: string)
    requires AllDigits(frac)
    ensures |m| == 6 && AllDigits(m)
  {
    (frac + "000000")[..6]
  }

  /** `None` is the error thrown. */
  function NormalizeStamp(iso: string): Option<string> {
    match Match(Trim(iso))
    case None => None
    case Some(p) =>
      if p.zone.Zulu? then Some(p.date + "T" + p.time + "." + Micros(p.frac) + "Z")
      else
        match InstantOf(p)
        case None => None
        case Some(secs) =>
          assert Ticks(ToClock(secs)) by { Calendar.ClockOf(secs); }
          var text := IsoText(ToClock(secs));
          LongEnough(ToClock(secs));
          Some(text[..19] + "." + Micros(p.frac) + "Z")
  }

  lemma {:induction false} LongEnough(c: Clock)
    requires c.date.year >= -1
    ensures |IsoText(c)| >= 19
  {
  }

  // ---- canonical stamps ----

  /** The server's own form: twenty-seven characters, UTC, six digits of microseconds. */
  predicate IsCanonical(s: string) {
    |s| == 27 && IsDate(s[..10]) && s[10] == 'T' && IsTime(s[11..19]) && s[19] == '.' && AllDigits(s[20..26])
        && s[26] == 'Z'
  }

  lemma {:induction false} Assembled(date: string, time: string, micros: string)
    requires IsDate(date) && IsTime(time) && |micros| == 6 && AllDigits(micros)
    ensures var t := date + "T" + time + "." + micros + "Z";
      IsCanonical(t) && t[..10] == date && t[11..19] == time && t[20..26] == micros
  {
    hide IsDate, IsTime, AllDigits;
    var t := date + "T" + time + "." + micros + "Z";
    Widths(date, time);
    assert t[..10] == date && t[11..19] == time && t[20..26] == micros;
  }

  lemma {:induction false} Widths(date: string, time: string)
    ensures IsDate(date) ==> |date| == 10 && IsDigit(date[0])
    ensures IsTime(time) ==> |time| == 8
  {
  }

  lemma {:induction false} Disassembled(s: string)
    requires IsCanonical(s)
    ensures s == s[..10] + "T" + s[11..19] + "." + s[20..26] + "Z"
    ensures Match(Trim(s)) == Some(Parts(s[..10], s[11..19], s[20..26], Zulu))
  {
    hide IsDate, IsTime;
    Widths(s[..10], s[11..19]);
    assert Trim(s) == s;
    var rest, frac := s[19..], s[20..26];
    assert rest == "." + frac + "Z" && rest[1..] == frac + "Z";
    RunIs(frac, "Z");
    assert rest[1..][..6] == frac && rest[7..] == "Z";
  }

  /** Widening is idempotent: a canonical stamp is its own normal form. */
  lemma {:induction false} CanonicalIsFixed(s: string)
    requires IsCanonical(s)
    ensures NormalizeStamp(s) == Some(s)
  {
    hide IsDate, IsTime, Match, Trim;
    Disassembled(s);
    assert Micros(s[20..26]) == s[20..26];
  }

  lemma {:induction false} RunIs(digits: string, rest: string)
    requires AllDigits(digits) && (rest == "" || !IsDigit(rest[0]))
    ensures Run(digits + rest) == |digits|
  {
    if digits != "" {
      assert (digits + rest)[1..] == digits[1..] + rest;
      RunIs(digits[1..], rest);
    }
  }

  // ---- what widening does to the instant ----

  predicate FourDigitYear(d: Date) { 0 <= d.year <= 9999 }

  /** The text of a clock reading, in the years that have four digits. */
  lemma {:induction false} IsoReads(c: Clock)
    requires Ticks(c) && FourDigitYear(c.date)
    ensures var text := IsoText(c);
      && |text| >= 19 && IsDate(text[..10]) && text[10] == 'T' && IsTime(text[11..19])
      && ClockOf(text[..10], text[11..19]) == c
  {
    hide Padded, Value;
    ValueOfPadded(c.date.year, 4);
    ValueOfPadded(c.date.month, 2);
    ValueOfPadded(c.date.day, 2);
    ValueOfPadded(c.hour, 2);
    ValueOfPadded(c.minute, 2);
    ValueOfPadded(c.second, 2);
    var d, t := DateText(c.date), TimeText(c);
    assert d == Padded(c.date.year, 4) + "-" + Two(c.date.month) + "-" + Two(c.date.day);
    assert d[..4] == Padded(c.date.year, 4) && d[5..7] == Two(c.date.month) && d[8..] == Two(c.date.day);
    assert t[..2] == Two(c.hour) && t[3..5] == Two(c.minute) && t[6..] == Two(c.second);
    assert IsoText(c)[..10] == d && IsoText(c)[11..19] == t;
  }

  /** Outside those years the text is signed, and cutting it at 19 characters spoils it. */
  lemma {:induction false} IsoSpoils(c: Clock)
    requires c.date.year >= -1 && !FourDigitYear(c.date)
    ensures |IsoText(c)| >= 19 && !IsDigit(IsoText(c)[0])
  {
  }

  /** What widening yields, exactly: an error only for an offset text that names no real instant,
      and a canonical stamp if and only if the text ends in Z or its UTC year has four digits. */
  lemma {:induction false} NormalFormExactly(iso: string, p: Parts)
    requires Match(Trim(iso)) == Some(p)
    ensures NormalizeStamp(iso).None? <==> p.zone.Offset? && InstantOf(p).None?
    ensures NormalizeStamp(iso).Some? ==>
      (IsCanonical(NormalizeStamp(iso).value) <==> p.zone.Zulu? || FourDigitYear(ToClock(InstantOf(p).value).date))
  {
    hide Match, Trim, InstantOf, IsDate, IsTime, IsoText, ToClock;
    if p.zone.Zulu? {
      Assembled(p.date, p.time, Micros(p.frac));
    } else if InstantOf(p).Some? {
      var c := ToClock(InstantOf(p).value);
      Calendar.ClockOf(InstantOf(p).value);
      var text := IsoText(c);
      LongEnough(c);
      var t := text[..19] + "." + Micros(p.frac) + "Z";
      if FourDigitYear(c.date) {
        IsoReads(c);
        assert text[..19] == text[..10] + "T" + text[11..19];
        Assembled(text[..10], text[11..19], Micros(p.frac));
      } else {
        IsoSpoils(c);
        Widths(t[..10], "");
        assert t[..10][0] == text[0];
      }
    }
  }

  /** Widening keeps the whole second and truncates the fraction to six digits: the result is
      never later than its input, and less than a microsecond earlier. */
  lemma {:induction false} NeverLater(iso: string, p: Parts, t: string)
    requires Match(Trim(iso)) == Some(p) && NormalizeStamp(iso) == Some(t) && IsCanonical(t) && InstantOf(p).Some?
    ensures InstantOf(Parts(t[..10], t[11..19], t[20..26], Zulu)) == InstantOf(p)
    ensures Value(t[20..26]) * Pow10(|p.frac|) <= Value(p.frac) * Pow10(6) < (Value(t[20..26]) + 1) * Pow10(|p.frac|)
  {
    hide Match, Trim, IsDate, IsTime, IsoText, ToClock, Value, Real, IsOffset, IsRealOffset, OffsetSeconds;
    MicrosTruncate(p.frac);
    if p.zone.Zulu? {
      Assembled(p.date, p.time, Micros(p.frac));
    } else {
      NormalFormExactly(iso, p);
      var c := ToClock(InstantOf(p).value);
      Calendar.ClockOf(InstantOf(p).value);
      IsoReads(c);
      var text := IsoText(c);
      assert text[..19] == text[..10] + "T" + text[11..19];
      Assembled(text[..10], text[11..19], Micros(p.frac));
    }
  }

  /** The value of a two-digit text, and the seconds an offset's digits amount to. */
  function TwoDigits(s: string, i: nat): int
    requires i + 1 < |s|
  {
    (s[i] as int - 48) * 10 + (s[i + 1] as int - 48)
  }

  lemma {:induction false} NumIsTwoDigits(s: string, i: nat)
    requires i + 2 <= |s| && AllDigits(s[i..i + 2])
    ensures Value(s[i..i + 2]) == TwoDigits(s, i)
  {
    var t := s[i..i + 2];
    assert t[..1][..0] == "" && t[..1][0] == s[i] && t[1] == s[i + 1];
    assert Value(t[..1]) == s[i] as int - 48;
  }

  /** What an offset means: the written reading is ahead of the widened one by its hours and minutes
      for a plus, and behind it for a minus. Its hours are below 24 and its minutes below 60, or
      the text names no instant. */
  lemma {:induction false} OffsetExactly(iso: string, p: Parts)
    requires Match(Trim(iso)) == Some(p) && p.zone.Offset?
    ensures var z := p.zone.text; |z| == 6 && z[0] in "+-" && z[3] == ':'
    ensures NormalizeStamp(iso).Some? <==>
      IsReal(ClockOf(p.date, p.time)) && TwoDigits(p.zone.text, 1) <= 23 && TwoDigits(p.zone.text, 4) <= 59
    ensures NormalizeStamp(iso).Some? && IsCanonical(NormalizeStamp(iso).value) ==>
      var t, written := NormalizeStamp(iso).value, ClockOf(p.date, p.time);
      var ahead := TwoDigits(p.zone.text, 1) * 3600 + TwoDigits(p.zone.text, 4) * 60;
      && Ticks(Reading(t).0)
      && Seconds(written) == Seconds(Reading(t).0) + (if p.zone.text[0] == '+' then ahead else -ahead)
      && t[20..26] == Micros(p.frac)
  {
    hide Match, Trim, IsDate, IsTime, IsoText, ToClock, Value, Ticks, EndsDay, DayNumber;
    var z := p.zone.text;
    assert z[4..] == z[4..6];
    NumIsTwoDigits(z, 1);
    NumIsTwoDigits(z, 4);
    if InstantOf(p).Some? {
      var c := ToClock(InstantOf(p).value);
      Calendar.ClockOf(InstantOf(p).value);
      NormalFormExactly(iso, p);
      if FourDigitYear(c.date) {
        IsoReads(c);
        var text := IsoText(c);
        assert text[..19] == text[..10] + "T" + text[11..19];
        Assembled(text[..10], text[11..19], Micros(p.frac));
      }
    }
  }

  lemma {:induction false} ValueOfFour(s: string)
    requires |s| == 4 && AllDigits(s)
    ensures Value(s) == TwoDigits(s, 0) * 100 + TwoDigits(s, 2)
  {
    hide Value;
    assert s == s[0..2] + s[2..4];
    NumIsTwoDigits(s, 0);
    NumIsTwoDigits(s, 2);
    ValueConcat(s[0..2], s[2..4]);
    assert Pow10(2) == 100 by { assert Pow10(1) == 10; }
  }

  /** A reading from its characters. */
  lemma {:induction false} ClockIs(date: string, time: string)
    requires IsDate(date) && IsTime(time)
    ensures ClockOf(date, time) ==
            Clock(Date(TwoDigits(date, 0) * 100 + TwoDigits(date, 2), TwoDigits(date, 5), TwoDigits(date, 8)),
                  TwoDigits(time, 0), TwoDigits(time, 3), TwoDigits(time, 6))
  {
    hide Value;
    assert date[..4] == date[0..4] && date[8..] == date[8..10] && time[..2] == time[0..2] && time[6..] == time[6..8];
    ValueOfFour(date[..4]);
    NumIsTwoDigits(date, 5);
    NumIsTwoDigits(date, 8);
    NumIsTwoDigits(time, 0);
    NumIsTwoDigits(time, 3);
    NumIsTwoDigits(time, 6);
  }

  /** An offset text and the UTC reading it comes to. */
  lemma {:induction false} ShiftsTo(iso: string, p: Parts, sep: char, utc: Clock)
    requires IsDate(p.date) && IsTime(p.time) && AllDigits(p.frac) && p.zone.Offset? && IsOffset(p.zone.text)
    requires sep in "Tt " && iso == p.date + [sep] + p.time + Fraction(p.frac) + p.zone.text
    requires Ticks(utc) && Ticks(ClockOf(p.date, p.time)) && IsRealOffset(p.zone.text)
    requires Seconds(ClockOf(p.date, p.time)) - OffsetSeconds(p.zone.text) == Seconds(utc)
    ensures |IsoText(utc)| >= 19 && NormalizeStamp(iso) == Some(IsoText(utc)[..19] + "." + Micros(p.frac) + "Z")
  {
    hide IsOffset, Match, ToClock, Seconds, Trim, IsRealOffset, OffsetSeconds, IsoText, IsDate, IsTime;
    NoOuterSpace(iso, p, sep);
    MatchWrites(iso, p, sep, p.zone.text);
    ClockRoundTrip(utc);
    LongEnough(utc);
  }

  /** In the years of four digits the cut falls behind the seconds. */
  lemma {:induction false} WidensTo(iso: string, p: Parts, sep: char, utc: Clock)
    requires IsDate(p.date) && IsTime(p.time) && AllDigits(p.frac) && p.zone.Offset? && IsOffset(p.zone.text)
    requires sep in "Tt " && iso == p.date + [sep] + p.time + Fraction(p.frac) + p.zone.text
    requires Ticks(utc) && FourDigitYear(utc.date)
    requires Ticks(ClockOf(p.date, p.time)) && IsRealOffset(p.zone.text)
    requires Seconds(ClockOf(p.date, p.time)) - OffsetSeconds(p.zone.text) == Seconds(utc)
    ensures NormalizeStamp(iso) == Some(DateText(utc.date) + "T" + TimeText(utc) + "." + Micros(p.frac) + "Z")
  {
    hide NormalizeStamp, IsOffset, Seconds, IsRealOffset, OffsetSeconds, DateText, TimeText, IsDate, IsTime;
    ShiftsTo(iso, p, sep, utc);
    TextLengths(utc);
    var d, t := DateText(utc.date), TimeText(utc);
    assert (d + "T" + t + ".000Z")[..19] == d + "T" + t;
  }

  /** Elsewhere the year is signed and six digits long, and the cut takes the seconds off. */
  lemma {:induction false} CutsSeconds(c: Clock)
    requires -1 <= c.date.year <= 999999 && !FourDigitYear(c.date)
    ensures var sign := if c.date.year < 0 then "-" else "+";
      var year := if c.date.year < 0 then -c.date.year else c.date.year;
      |IsoText(c)| >= 19 && IsoText(c)[..19] ==
        sign + Padded(year, 6) + "-" + Padded(c.date.month, 2) + "-" + Padded(c.date.day, 2)
        + "T" + Padded(c.hour, 2) + ":" + Padded(c.minute, 2)
  {
    hide Padded;
    var sign, year := if c.date.year < 0 then "-" else "+", if c.date.year < 0 then -c.date.year else c.date.year;
    var d := sign + Padded(year, 6) + "-" + Two(c.date.month) + "-" + Two(c.date.day);
    var t := Two(c.hour) + ":" + Two(c.minute);
    assert DateText(c.date) == d && |d| == 13 && |t| == 5;
    assert TimeText(c) == t + (":" + Two(c.second));
    assert IsoText(c) == (d + "T" + t) + (":" + Two(c.second) + ".000Z");
  }

  /** The last hour of the year 9999, an hour behind UTC. */
  lemma {:induction false} SpoilsLate()
    ensures NormalizeStamp("9999-12-31T23:30:00-01:00") == Some("+010000-01-01T00:30.000000Z")
  {
    hide *;
    SpoilsLateText();
    SpoilsLateClock();
    SpoilsLateIso();
    ShiftsTo("9999-12-31T23:30:00-01:00", Parts("9999-12-31", "23:30:00", "", Offset("-01:00")), 'T',
             Clock(Date(10000, 1, 1), 0, 30, 0));
  }

  lemma {:induction false} SpoilsLateText()
    ensures "9999-12-31T23:30:00-01:00" == "9999-12-31" + ['T'] + "23:30:00" + Fraction("") + "-01:00"
    ensures "+010000-01-01T00:30" + "." + Micros("") + "Z" == "+010000-01-01T00:30.000000Z"
  {
  }

  lemma {:induction false} LateDate()
    ensures IsDate("9999-12-31") && DateOf("9999-12-31") == Date(9999, 12, 31)
  {
    hide DateOf, DateText;
    DateAs("9999-12-31", Date(9999, 12, 31));
  }

  lemma {:induction false} LateTime()
    ensures IsTime("23:30:00")
    ensures forall date :: IsDate(date) ==> ClockOf(date, "23:30:00") == Clock(DateOf(date), 23, 30, 0)
  {
    hide ClockOf, TimeText, IsDate, DateOf;
    TimeAs("23:30:00", Clock(Date(9999, 12, 31), 23, 30, 0));
  }

  lemma {:induction false} HourBehind()
    ensures IsOffset("-01:00") && OffsetSeconds("-01:00") == -3600 && IsRealOffset("-01:00")
  {
    hide OffsetSeconds, IsRealOffset;
    OffsetAs("-01:00");
  }

  lemma {:induction false} SpoilsLateClock()
    ensures var utc, zone := Clock(Date(10000, 1, 1), 0, 30, 0), "-01:00";
      && IsDate("9999-12-31") && IsTime("23:30:00") && AllDigits("") && IsOffset(zone) && IsRealOffset(zone)
      && Ticks(utc) && Ticks(ClockOf("9999-12-31", "23:30:00")) && 'T' in "Tt "
      && Seconds(ClockOf("9999-12-31", "23:30:00")) - OffsetSeconds(zone) == Seconds(utc)
  {
    hide IsDate, IsTime, IsOffset, DateOf, ClockOf, OffsetSeconds, IsRealOffset, Seconds;
    LateDate();
    LateTime();
    HourBehind();
    LastHour(Date(9999, 12, 31), Date(10000, 1, 1));
  }

  lemma {:induction false} LastHour(a: Date, b: Date)
    requires Real(a) && Real(b) && IsNextDay(a, b)
    ensures Seconds(Clock(a, 23, 30, 0)) + 3600 == Seconds(Clock(b, 0, 30, 0))
  {
    hide DayNumber, Real, IsNextDay;
    DaysFollow(a, b);
  }

  lemma {:induction false} SpoilsLateIso()
    ensures var utc := Clock(Date(10000, 1, 1), 0, 30, 0);
      |IsoText(utc)| >= 19 && IsoText(utc)[..19] == "+010000-01-01T00:30"
  {
    hide IsoText, Padded;
    CutsSeconds(Clock(Date(10000, 1, 1), 0, 30, 0));
    SpoilsLateDigits();
    assert "+" + "010000" + "-" + "01" + "-" + "01" + "T" + "00" + ":" + "30" == "+010000-01-01T00:30";
  }

  lemma {:induction false} SpoilsLateDigits()
    ensures Padded(10000, 6) == "010000" && Padded(1, 2) == "01" && Padded(0, 2) == "00" && Padded(30, 2) == "30"
  {
    assert Padded(0, 1) == "0";
  }

  lemma {:induction false} TextLengths(c: Clock)
    requires FourDigitYear(c.date)
    ensures |DateText(c.date)| == 10 && |TimeText(c)| == 8
  {
  }

  lemma {:induction false} NoOuterSpace(iso: string, p: Parts, sep: char)
    requires IsDate(p.date) && p.zone.Offset? && IsOffset(p.zone.text)
    requires iso == p.date + [sep] + p.time + Fraction(p.frac) + p.zone.text
    ensures Trim(iso) == iso
  {
    hide Trim;
    var z := p.zone.text;
    assert p.date[0] == p.date[..4][0] && z[5] == z[4..][1];
    assert iso[0] == p.date[0] && iso[|iso| - 1] == z[5];
    DigitsAreNoSpace(p.date[0]);
    DigitsAreNoSpace(z[5]);
    NothingToTrim(iso);
  }

  lemma {:induction false} DigitsAreNoSpace(c: char)
    requires IsDigit(c)
    ensures !IsSpace(c)
  {
  }

  lemma {:induction false} DateAs(date: string, d: Date)
    requires |date| == 10 && IsDate(date) && 0 <= d.year <= 9999 && d.month <= 99 && d.day <= 99
    requires d.year == TwoDigits(date, 0) * 100 + TwoDigits(date, 2) && d.month == TwoDigits(date, 5)
    requires d.day == TwoDigits(date, 8)
    ensures DateOf(date) == d && DateText(d) == date
  {
    hide Value, Padded;
    var y, m, n := date[..4], date[5..7], date[8..];
    assert y == date[0..4] && n == date[8..10];
    assert TwoDigits(y, 0) == TwoDigits(date, 0) && TwoDigits(y, 2) == TwoDigits(date, 2);
    ValueOfFour(y);
    NumIsTwoDigits(date, 5);
    NumIsTwoDigits(date, 8);
    PaddedOfValue(y);
    PaddedOfValue(m);
    PaddedOfValue(n);
    assert date == y + "-" + m + "-" + n;
  }

  lemma {:induction false} TimeAs(time: string, c: Clock)
    requires |time| == 8 && IsTime(time)
    requires c.hour == TwoDigits(time, 0) && c.minute == TwoDigits(time, 3) && c.second == TwoDigits(time, 6)
    ensures forall date :: IsDate(date) ==> ClockOf(date, time) == Clock(DateOf(date), c.hour, c.minute, c.second)
    ensures TimeText(c) == time
  {
    hide Value, Padded, DateOf, IsDate;
    var h, m, n := time[..2], time[3..5], time[6..];
    assert h == time[0..2] && n == time[6..8];
    NumIsTwoDigits(time, 0);
    NumIsTwoDigits(time, 3);
    NumIsTwoDigits(time, 6);
    PaddedOfValue(h);
    PaddedOfValue(m);
    PaddedOfValue(n);
    assert time == h + ":" + m + ":" + n;
  }

  lemma {:induction false} OffsetAs(zone: string)
    requires |zone| == 6 && IsOffset(zone)
    ensures var ahead := TwoDigits(zone, 1) * 3600 + TwoDigits(zone, 4) * 60;
      OffsetSeconds(zone) == if zone[0] == '+' then ahead else -ahead
    ensures IsRealOffset(zone) <==> TwoDigits(zone, 1) <= 23 && TwoDigits(zone, 4) <= 59
  {
    hide Value;
    assert zone[4..] == zone[4..6];
    NumIsTwoDigits(zone, 1);
    NumIsTwoDigits(zone, 4);
  }

  /** Two hours ahead of UTC, in the morning. */
  lemma {:induction false} WidensMorning()
    ensures NormalizeStamp("2026-05-01T10:00:00+02:00") == Some("2026-05-01T08:00:00.000000Z")
  {
    hide *;
    WidensMorningText();
    WidensMorningClock();
    WidensTo("2026-05-01T10:00:00+02:00", Parts("2026-05-01", "10:00:00", "", Offset("+02:00")), 'T',
             Clock(Date(2026, 5, 1), 8, 0, 0));
  }

  lemma {:induction false} WidensMorningText()
    ensures "2026-05-01T10:00:00+02:00" == "2026-05-01" + ['T'] + "10:00:00" + Fraction("") + "+02:00"
    ensures "2026-05-01" + "T" + "08:00:00" + "." + Micros("") + "Z" == "2026-05-01T08:00:00.000000Z"
  {
  }

  lemma {:induction false} WidensMorningClock()
    ensures var utc, zone := Clock(Date(2026, 5, 1), 8, 0, 0), "+02:00";
      && IsDate("2026-05-01") && IsTime("10:00:00") && AllDigits("") && IsOffset(zone) && IsRealOffset(zone)
      && Ticks(utc) && FourDigitYear(utc.date) && Ticks(ClockOf("2026-05-01", "10:00:00"))
      && Seconds(ClockOf("2026-05-01", "10:00:00")) - OffsetSeconds(zone) == Seconds(utc)
      && DateText(utc.date) == "2026-05-01" && TimeText(utc) == "08:00:00" && 'T' in "Tt "
  {
    hide DateOf, ClockOf, DateText, TimeText, OffsetSeconds, IsRealOffset, DayNumber;
    var utc := Clock(Date(2026, 5, 1), 8, 0, 0);
    DateAs("2026-05-01", Date(2026, 5, 1));
    TimeAs("10:00:00", Clock(Date(2026, 5, 1), 10, 0, 0));
    TimeAs("08:00:00", utc);
    OffsetAs("+02:00");
  }

  /** An hour ahead of UTC, just past midnight there, with digits to cut: the leap day's last hour. */
  lemma {:induction false} WidensLeapDay()
    ensures NormalizeStamp("2024-03-01 00:30:00.1234567+01:00") == Some("2024-02-29T23:30:00.123456Z")
  {
    hide *;
    WidensLeapDayText();
    WidensLeapDayClock();
    WidensTo("2024-03-01 00:30:00.1234567+01:00", Parts("2024-03-01", "00:30:00", "1234567", Offset("+01:00")), ' ',
             Clock(Date(2024, 2, 29), 23, 30, 0));
  }

  lemma {:induction false} WidensLeapDayText()
    ensures "2024-03-01 00:30:00.1234567+01:00" == "2024-03-01" + [' '] + "00:30:00" + Fraction("1234567") + "+01:00"
    ensures "2024-02-29" + "T" + "23:30:00" + "." + Micros("1234567") + "Z" == "2024-02-29T23:30:00.123456Z"
  {
  }

  lemma {:induction false} WidensLeapDayClock()
    ensures var utc, zone := Clock(Date(2024, 2, 29), 23, 30, 0), "+01:00";
      && IsDate("2024-03-01") && IsTime("00:30:00") && AllDigits("1234567") && IsOffset(zone) && IsRealOffset(zone)
      && Ticks(utc) && FourDigitYear(utc.date) && Ticks(ClockOf("2024-03-01", "00:30:00"))
      && Seconds(ClockOf("2024-03-01", "00:30:00")) - OffsetSeconds(zone) == Seconds(utc)
      && DateText(utc.date) == "2024-02-29" && TimeText(utc) == "23:30:00" && ' ' in "Tt "
  {
    hide IsDate, IsTime, IsOffset, DateOf, ClockOf, DateText, TimeText, OffsetSeconds, IsRealOffset, Seconds;
    LeapDates();
    LeapTimes();
    HourAhead();
    LastHour(Date(2024, 2, 29), Date(2024, 3, 1));
  }

  lemma {:induction false} LeapDates()
    ensures IsDate("2024-03-01") && DateOf("2024-03-01") == Date(2024, 3, 1)
    ensures DateText(Date(2024, 2, 29)) == "2024-02-29"
  {
    hide DateOf, DateText;
    DateAs("2024-03-01", Date(2024, 3, 1));
    DateAs("2024-02-29", Date(2024, 2, 29));
  }

  lemma {:induction false} LeapTimes()
    ensures IsTime("00:30:00") && TimeText(Clock(Date(2024, 2, 29), 23, 30, 0)) == "23:30:00"
    ensures forall date :: IsDate(date) ==> ClockOf(date, "00:30:00") == Clock(DateOf(date), 0, 30, 0)
  {
    hide ClockOf, TimeText, IsDate, DateOf;
    TimeAs("00:30:00", Clock(Date(2024, 3, 1), 0, 30, 0));
    TimeAs("23:30:00", Clock(Date(2024, 2, 29), 23, 30, 0));
  }

  lemma {:induction false} HourAhead()
    ensures IsOffset("+01:00") && OffsetSeconds("+01:00") == 3600 && IsRealOffset("+01:00")
  {
    hide OffsetSeconds, IsRealOffset;
    OffsetAs("+01:00");
  }

  /** A text that ends in Z keeps its fields as they are, real or not; one that is no instant at all is
      an error. */
  lemma {:induction false} ZuluKeepsFields(iso: string)
    ensures Match(Trim(iso)).None? ==> NormalizeStamp(iso).None?
    ensures Match(Trim(iso)).Some? && Match(Trim(iso)).value.zone.Zulu? ==>
      var p := Match(Trim(iso)).value; NormalizeStamp(iso) == Some(p.date + "T" + p.time + "." + Micros(p.frac) + "Z")
  {
  }

  lemma {:induction false} MicrosTruncate(frac: string)
    requires AllDigits(frac)
    ensures Value(Micros(frac)) * Pow10(|frac|) <= Value(frac) * Pow10(6) < (Value(Micros(frac)) + 1) * Pow10(|frac|)
  {
    hide Value, Pow10;
    var m, l := Micros(frac), |frac|;
    if l <= 6 {
      var zeros := "000000"[..6 - l];
      assert m == frac + zeros;
      ValueConcat(frac, zeros);
      ZerosAreZero(6 - l);
      Pow10Sum(6 - l, l);
      assert Value(m) * Pow10(l) == Value(frac) * Pow10(6);
      assert (Value(m) + 1) * Pow10(l) == Value(m) * Pow10(l) + Pow10(l);
    } else {
      var rest := frac[6..];
      assert frac == m + rest;
      ValueConcat(m, rest);
      ValueBound(rest);
      Pow10Sum(l - 6, 6);
      TailTruncates(Value(m), Pow10(l - 6), Value(rest), Pow10(6));
    }
  }

  lemma {:induction false} TailTruncates(v: nat, q: nat, rest: nat, unit: nat)
    requires rest < q && unit > 0
    ensures v * (q * unit) <= (v * q + rest) * unit < (v + 1) * (q * unit)
  {
  }

  lemma {:induction false} ZerosAreZero(n: nat)
    requires n <= 6
    ensures AllDigits("000000"[..n]) && Value("000000"[..n]) == 0
  {
    if n > 0 {
      assert "000000"[..n][..n - 1] == "000000"[..n - 1];
      ZerosAreZero(n - 1);
    }
  }

  // ---- string order is chronological order ----

  lemma {:induction false} DateTextOrder(a: string, b: string)
    requires IsDate(a) && IsDate(b)
    ensures Less(a, b) <==> Earlier(DateOf(a), DateOf(b))
    ensures a == b <==> DateOf(a) == DateOf(b)
  {
    hide Less, Value;
    assert a == a[..4] + ("-" + (a[5..7] + ("-" + a[8..]))) && b == b[..4] + ("-" + (b[5..7] + ("-" + b[8..])));
    LessConcat(a[..4], "-" + (a[5..7] + ("-" + a[8..])), b[..4], "-" + (b[5..7] + ("-" + b[8..])));
    LessConcat("-", a[5..7] + ("-" + a[8..]), "-", b[5..7] + ("-" + b[8..]));
    LessConcat(a[5..7], "-" + a[8..], b[5..7], "-" + b[8..]);
    LessConcat("-", a[8..], "-", b[8..]);
    LessIrreflexive("-");
    DigitsCompare(a[..4], b[..4]);
    DigitsCompare(a[5..7], b[5..7]);
    DigitsCompare(a[8..], b[8..]);
  }

  ghost predicate LaterInDay(s: Clock, t: Clock) {
    s.hour < t.hour || (s.hour == t.hour && (s.minute < t.minute || (s.minute == t.minute && s.second < t.second)))
  }

  lemma {:induction false} TimeTextOrder(date: string, a: string, b: string)
    requires IsDate(date) && IsTime(a) && IsTime(b)
    ensures Less(a, b) <==> LaterInDay(ClockOf(date, a), ClockOf(date, b))
    ensures a == b <==> ClockOf(date, a) == ClockOf(date, b)
  {
    hide Less, Value, IsDate;
    assert a == a[..2] + (":" + (a[3..5] + (":" + a[6..]))) && b == b[..2] + (":" + (b[3..5] + (":" + b[6..])));
    LessConcat(a[..2], ":" + (a[3..5] + (":" + a[6..])), b[..2], ":" + (b[3..5] + (":" + b[6..])));
    LessConcat(":", a[3..5] + (":" + a[6..]), ":", b[3..5] + (":" + b[6..]));
    LessConcat(a[3..5], ":" + a[6..], b[3..5], ":" + b[6..]);
    LessConcat(":", a[6..], ":", b[6..]);
    LessIrreflexive(":");
    DigitsCompare(a[..2], b[..2]);
    DigitsCompare(a[3..5], b[3..5]);
    DigitsCompare(a[6..], b[6..]);
  }

  /** The clock reading and the microseconds of a canonical stamp. */
  function Reading(s: string): (Clock, nat)
    requires IsCanonical(s)
  {
    (ClockOf(s[..10], s[11..19]), Value(s[20..26]))
  }

  lemma {:induction false} CanonicalOrder(s: string, t: string)
    requires IsCanonical(s) && IsCanonical(t)
    ensures var a, b := Reading(s), Reading(t);
      Less(s, t) <==> Sooner(a.0, b.0) || (a.0 == b.0 && a.1 < b.1)
  {
    hide Less, Value, IsDate, IsTime, Match, Trim, DateOf, Earlier;
    Disassembled(s);
    Disassembled(t);
    var sd, st, sm, td, tt, tm := s[..10], s[11..19], s[20..26], t[..10], t[11..19], t[20..26];
    Widths(sd, st);
    Widths(td, tt);
    assert s == sd + ("T" + (st + ("." + (sm + "Z")))) && t == td + ("T" + (tt + ("." + (tm + "Z"))));
    LessConcat(sd, "T" + (st + ("." + (sm + "Z"))), td, "T" + (tt + ("." + (tm + "Z"))));
    LessConcat("T", st + ("." + (sm + "Z")), "T", tt + ("." + (tm + "Z")));
    LessConcat(st, "." + (sm + "Z"), tt, "." + (tm + "Z"));
    LessConcat(".", sm + "Z", ".", tm + "Z");
    LessConcat(sm, "Z", tm, "Z");
    LessIrreflexive("T");
    LessIrreflexive(".");
    LessIrreflexive("Z");
    DateTextOrder(sd, td);
    TimeTextOrder(sd, st, tt);
    DigitsCompare(sm, tm);
  }

  /** On canonical stamps that read a real clock, string order is chronological order, to the
      microsecond. */
  lemma {:induction false} OrderIsChronological(s: string, t: string)
    requires IsCanonical(s) && IsCanonical(t) && Ticks(Reading(s).0) && Ticks(Reading(t).0)
    ensures var a, b := Reading(s), Reading(t);
      Less(s, t) <==> Seconds(a.0) < Seconds(b.0) || (Seconds(a.0) == Seconds(b.0) && a.1 < b.1)
  {
    hide IsCanonical, Less, DayNumber, Real, Sooner, Reading;
    CanonicalOrder(s, t);
    ClockOrder(Reading(s).0, Reading(t).0);
  }

  /** And on canonical stamps of all real times, 24:00:00 included, exactly: string order is
      chronological order except between the end of a day and the midnight after it. Those two
      readings are the same second, and the end of the day sorts first whatever the microseconds. */
  lemma {:induction false} OrderExactly(s: string, t: string)
    requires IsCanonical(s) && IsCanonical(t) && IsReal(Reading(s).0) && IsReal(Reading(t).0)
    ensures var a, b := Reading(s), Reading(t);
      && (Seconds(a.0) != Seconds(b.0) || a.0 == b.0 ==>
            (Less(s, t) <==> Seconds(a.0) < Seconds(b.0) || (Seconds(a.0) == Seconds(b.0) && a.1 < b.1)))
      && (Seconds(a.0) == Seconds(b.0) && a.0 != b.0 ==>
            EndsDay(a.0) != EndsDay(b.0) && (Less(s, t) <==> EndsDay(a.0)))
  {
    hide IsCanonical, Less, DayNumber, Real, Sooner, Reading, Seconds;
    var a, b := Reading(s).0, Reading(t).0;
    CanonicalOrder(s, t);
    NotBoth(a);
    NotBoth(b);
    if Ticks(a) && Ticks(b) { ClockOrder(a, b); }
    if EndsDay(a) && Ticks(b) { EndOfDayOrder(a, b); }
    if Ticks(a) && EndsDay(b) { EndOfDayOrder(b, a); }
    if EndsDay(a) && EndsDay(b) { TwoDayEnds(a, b); }
  }

  lemma {:induction false} NotBoth(c: Clock)
    ensures !(Ticks(c) && EndsDay(c))
  {
  }

  /** Why widening is required: unwidened, a whole-second stamp sorts after every fraction of its
      own second. */
  lemma {:induction false} UnwidenedSortsLate(date: string, time: string, micros: string)
    requires IsDate(date) && IsTime(time) && |micros| == 6 && AllDigits(micros)
    ensures Less(date + "T" + time + "." + micros + "Z", date + "T" + time + "Z")
  {
    hide IsDate, IsTime;
    var start := date + "T" + time;
    assert start + "." + micros + "Z" == start + ("." + micros + "Z");
    LessConcat(start, "." + micros + "Z", start, "Z");
    LessIrreflexive(start);
  }

  // ---- the token ----

  /** A position as the client holds it: its row id is a JavaScript number. */
  datatype FeedPosition = FeedPosition(createdAt: string, rowid: nat)

  // ---- reading and writing tokens ----

  function LastBar(s: string): (i: nat)
    ensures i <= |s| && '|' !in s[i..]
    ensures i > 0 ==> s[i - 1] == '|'
  {
    if s == "" || s[|s| - 1] == '|' then |s|
    else
      var i := LastBar(s[..|s| - 1]);
      assert s[i..] == s[..|s| - 1][i..] + [s[|s| - 1]];
      i
  }

  predicate OneLine(s: string) {
    '\n' !in s && '\r' !in s && '\U{2028}' !in s && '\U{2029}' !in s
  }

  /** The token pattern: something on one line, a bar, digits to the end. */
  function SplitToken(s: string): (split: Option<(string, string)>)
    ensures split.Some? ==> AllDigits(split.value.1)
  {
    var i := LastBar(s);
    if i < 2 || i == |s| || !AllDigits(s[i..]) || !OneLine(s[..i - 1]) then None else Some((s[..i - 1], s[i..]))
  }

  /** What is a token, exactly: something on one line, a bar and digits, cut at the last bar. */
  lemma {:induction false} SplitExactly(s: string, a: string, b: string)
    ensures SplitToken(s) == Some((a, b)) <==> a != "" && OneLine(a) && b != "" && AllDigits(b) && s == a + "|" + b
  {
    hide OneLine;
    var i := LastBar(s);
    if SplitToken(s) == Some((a, b)) {
      assert s == s[..i - 1] + [s[i - 1]] + s[i..];
    }
    if a != "" && b != "" && AllDigits(b) && s == a + "|" + b {
      NoBarInDigits(b);
      BarIs(a, b);
      assert s[..|a|] == a && s[|a| + 1..] == b;
    }
  }

  /** What a stored value parses to: a token to its widened stamp and its number, anything else to its
      widened stamp and row id 0, and neither to nothing. */
  lemma {:induction false} ParsesTo(stored: string, a: string, b: string)
    ensures a != "" && OneLine(a) && b != "" && AllDigits(b) && Trim(stored) == a + "|" + b ==>
      ParseWatermark(stored) == match NormalizeStamp(a)
                                case None => None case Some(at) => Some(FeedPosition(at, Number(Value(b))))
    ensures SplitToken(Trim(stored)).None? ==>
      ParseWatermark(stored) == match NormalizeStamp(stored)
                                case None => None case Some(at) => Some(FeedPosition(at, 0))
  {
    hide OneLine, NormalizeStamp, Trim, SplitToken;
    SplitExactly(Trim(stored), a, b);
  }

  /** What ends a line. */
  lemma {:induction false} LineEnds(s: string)
    ensures OneLine(s) <==> forall i :: 0 <= i < |s| ==> s[i] as int !in {10, 13, 0x2028, 0x2029}
  {
    assert forall i :: 0 <= i < |s| ==> s[i] in s;
  }

  /** `None` is the error thrown on a value of neither form. */
  function ParseWatermark(stored: string): Option<FeedPosition> {
    var token := SplitToken(Trim(stored));
    var createdAt := NormalizeStamp(if token.Some? then token.value.0 else stored);
    if createdAt.None? then None
    else Some(FeedPosition(createdAt.value, if token.Some? then Number(Value(token.value.1)) else 0))
  }

  function FormatWatermark(p: FeedPosition): string { p.createdAt + "|" + NumberText(p.rowid) }

  /** A cursor as the server mints it. */
  function Token(createdAt: string, rowid: nat): string { createdAt + "|" + Digits(rowid) }

  lemma {:induction false} BarIs(a: string, tail: string)
    requires '|' !in tail
    ensures LastBar(a + "|" + tail) == |a| + 1
  {
    var s := a + "|" + tail;
    if tail != "" {
      assert s[|s| - 1] == tail[|tail| - 1] && tail[|tail| - 1] in tail;
      assert s[..|s| - 1] == a + "|" + tail[..|tail| - 1];
      BarIs(a, tail[..|tail| - 1]);
    }
  }

  lemma {:induction false} NoBar(s: string)
    requires '|' !in s
    ensures LastBar(s) == 0
  {
  }

  lemma {:induction false} CanonicalChars(s: string)
    requires IsCanonical(s)
    ensures forall i :: 0 <= i < |s| ==> IsDigit(s[i]) || s[i] in "-T:.Z"
    ensures '|' !in s && OneLine(s) && !IsSpace(s[0])
  {
    var d, t := s[..10], s[11..19];
    assert d[..4] == s[..4] && d[5..7] == s[5..7] && d[8..] == s[8..10];
    assert t[..2] == s[11..13] && t[3..5] == s[14..16] && t[6..] == s[17..19];
    forall i | 0 <= i < |s| ensures IsDigit(s[i]) || s[i] in "-T:.Z" {
      if i < 4 { DigitAt(s, 0, 4, i); }
      else if 5 <= i < 7 { DigitAt(s, 5, 7, i); }
      else if 8 <= i < 10 { DigitAt(s, 8, 10, i); }
      else if 11 <= i < 13 { DigitAt(s, 11, 13, i); }
      else if 14 <= i < 16 { DigitAt(s, 14, 16, i); }
      else if 17 <= i < 19 { DigitAt(s, 17, 19, i); }
      else if 20 <= i < 26 { DigitAt(s, 20, 26, i); }
    }
    DigitAt(s, 0, 4, 0);
  }

  lemma {:induction false} DigitAt(s: string, lo: nat, hi: nat, i: nat)
    requires lo <= i < hi <= |s| && AllDigits(s[lo..hi])
    ensures IsDigit(s[i])
  {
    assert s[i] == s[lo..hi][i - lo];
  }

  lemma {:induction false} CanonicalLength(s: string)
    requires IsCanonical(s)
    ensures |s| == 27 && s[26] == 'Z'
  {
  }

  lemma {:induction false} NoBarInDigits(s: string)
    requires AllDigits(s)
    ensures '|' !in s
  {
    assert forall i :: 0 <= i < |s| ==> IsDigit(s[i]);
  }

  /** Whatever the row id of a server-minted token, it parses to the nearest number. */
  lemma {:induction false} TokenParses(stamp: string, rowid: nat)
    requires IsCanonical(stamp)
    ensures ParseWatermark(Token(stamp, rowid)) == Some(FeedPosition(stamp, Number(rowid)))
  {
    hide IsDate, IsTime, NormalizeStamp, Value, Digits, Number, Trim, IsCanonical, LastBar, OneLine;
    var s, digits := Token(stamp, rowid), Digits(rowid);
    CanonicalChars(stamp);
    CanonicalLength(stamp);
    assert s[0] == stamp[0] && s[|s| - 1] == digits[|digits| - 1];
    NothingToTrim(s);
    NoBarInDigits(digits);
    BarIs(stamp, digits);
    assert s[..27] == stamp && s[28..] == digits;
    CanonicalIsFixed(stamp);
    ValueOfDigits(rowid);
  }

  /** A server-minted token parses to its own row id exactly if a floating-point number can hold
      it, so for every row id below 2^53. */
  lemma {:induction false} TokenReadsExactly(stamp: string, rowid: nat)
    requires IsCanonical(stamp)
    ensures ParseWatermark(Token(stamp, rowid)) == Some(FeedPosition(stamp, rowid)) <==> rowid % Spacing(rowid) == 0
    ensures rowid < EXACT ==> ParseWatermark(Token(stamp, rowid)) == Some(FeedPosition(stamp, rowid))
  {
    hide ParseWatermark, Token, IsCanonical, Number, Spacing;
    TokenParses(stamp, rowid);
    NumberExactly(rowid);
  }

  /** Formatting a position below 2^53 mints the server's own token. */
  lemma {:induction false} FormatsInFull(p: FeedPosition)
    requires p.rowid < EXACT
    ensures FormatWatermark(p) == Token(p.createdAt, p.rowid)
  {
    hide Digits, Shortest;
    SmallShowsItself(p.rowid, |Digits(p.rowid)|);
  }

  /** Parsing inverts formatting, on canonical stamps and every row id a JavaScript number can be,
      exactly while the number prints without an exponent; from there on parsing throws. */
  lemma {:induction false} RoundTripExactly(p: FeedPosition)
    requires IsCanonical(p.createdAt) && Number(p.rowid) == p.rowid
    ensures ParseWatermark(FormatWatermark(p)) == if Shown(p.rowid) < EXPONENT_FROM then Some(p) else None
    ensures p.rowid < EXACT ==> Shown(p.rowid) == p.rowid < EXPONENT_FROM
  {
    hide ParseWatermark, Token, IsCanonical, Number, Shortest, Digits, StripZeros;
    var shown := Shown(p.rowid);
    if p.rowid < EXACT { SmallShowsItself(p.rowid, |Digits(p.rowid)|); }
    if shown < EXPONENT_FROM {
      assert FormatWatermark(p) == Token(p.createdAt, shown) by { TokenIs(p.createdAt, shown); }
      TokenParses(p.createdAt, shown);
      ShortestReads(p.rowid, |Digits(p.rowid)|);
    } else {
      var text := NumberText(p.rowid);
      ExponentText(p.rowid);
      ExponentThrows(p.createdAt, text);
    }
  }

  lemma {:induction false} TokenIs(createdAt: string, rowid: nat)
    ensures Token(createdAt, rowid) == createdAt + "|" + Digits(rowid)
  {
  }

  /** What follows the bar is not digits, and the whole is no instant. */
  lemma {:induction false} ExponentThrows(stamp: string, text: string)
    requires IsCanonical(stamp) && text != "" && IsDigit(text[|text| - 1]) && '|' !in text && !AllDigits(text)
    ensures ParseWatermark(stamp + "|" + text) == None
  {
    hide IsDate, IsTime, Trim, OneLine, LastBar, AllDigits;
    var s := stamp + "|" + text;
    CanonicalChars(stamp);
    CanonicalLength(stamp);
    assert s[0] == stamp[0] && s[|s| - 1] == text[|text| - 1];
    NothingToTrim(s);
    BarIs(stamp, text);
    assert s[28..] == text;
    LongerIsNoInstant(stamp, "|" + text);
    assert s == stamp + ("|" + text);
  }

  lemma {:induction false} LongerIsNoInstant(stamp: string, more: string)
    requires IsCanonical(stamp) && more != ""
    ensures Match(stamp + more) == None
  {
    hide IsDate, IsTime;
    var s, frac := stamp + more, stamp[20..26];
    var rest := s[19..];
    assert s[..10] == stamp[..10] && s[11..19] == stamp[11..19] && s[10] == 'T';
    assert rest == "." + frac + ("Z" + more) && rest[1..] == frac + ("Z" + more);
    RunIs(frac, "Z" + more);
    assert rest[1 + 6..] == "Z" + more;
    assert MatchZone("Z" + more) == None;
  }

  /** A server-minted token comes back as it went in exactly if its row id stays below 10^21 and is
      the shortest number that reads as it does: nothing that reads alike ends in more zeros, and of
      what ends in as many it is the nearest. So for every row id below 2^53. */
  lemma {:induction false} TokenSurvivesExactly(stamp: string, rowid: nat)
    requires IsCanonical(stamp)
    ensures var p := ParseWatermark(Token(stamp, rowid));
      p.Some? && (FormatWatermark(p.value) == Token(stamp, rowid) <==>
                    rowid < EXPONENT_FROM && (rowid == 0 || ReadsShortest(rowid)))
    ensures 0 < rowid < EXACT ==> ReadsShortest(rowid)
  {
    hide ParseWatermark, IsCanonical, Number, Shortest, Digits, ReadsShortest, FormatWatermark, Token;
    TokenParses(stamp, rowid);
    var v := Number(rowid);
    NumberIsHalf(rowid);
    NumberIsNumber(rowid);
    NumberExactly(rowid);
    FormattedExactly(stamp, v, rowid);
    if rowid < EXACT { SmallShowsItself(v, |Digits(v)|); }
    if rowid > 0 { ShownExactly(v, rowid); }
  }

  /** Formatting a number mints the token of a row id exactly if it shows that row id without an
      exponent. */
  lemma {:induction false} FormattedExactly(stamp: string, v: nat, rowid: nat)
    ensures FormatWatermark(FeedPosition(stamp, v)) == Token(stamp, rowid) <==>
            rowid < EXPONENT_FROM && Shown(v) == rowid
  {
    hide Number, Shortest, Shown, Digits, StripZeros;
    var text, digits := NumberText(v), Digits(rowid);
    assert FormatWatermark(FeedPosition(stamp, v)) == stamp + ("|" + text);
    assert Token(stamp, rowid) == stamp + ("|" + digits);
    LessConcat(stamp, "|" + text, stamp, "|" + digits);
    LessConcat("|", text, "|", digits);
    if Shown(v) < EXPONENT_FROM {
      if text == digits { DigitsInjective(Shown(v), rowid); }
    } else {
      ExponentText(v);
    }
  }

  /** The first row id that does not survive: it is read as its neighbour. */
  lemma {:induction false} RowIdLost(stamp: string)
    requires IsCanonical(stamp)
    ensures ParseWatermark(Token(stamp, EXACT + 1)) == Some(FeedPosition(stamp, EXACT))
  {
    hide IsCanonical, ParseWatermark;
    TokenParses(stamp, EXACT + 1);
    assert Spacing(EXACT + 1) == 2 * Spacing((EXACT + 1) / 2) == 2;
  }

  /** A row id that is read in full and written differently: 2^60 comes back as the shortest
      digits that read as it, another cursor. */
  lemma {:induction false} CursorRewritten(stamp: string)
    requires IsCanonical(stamp)
    ensures ParseWatermark(Token(stamp, TWO60)) == Some(FeedPosition(stamp, TWO60))
    ensures FormatWatermark(FeedPosition(stamp, TWO60)) == Token(stamp, 1152921504606847000)
  {
    hide IsCanonical, ParseWatermark, Digits;
    Spacing60();
    TokenParses(stamp, TWO60);
    Shown60();
  }

  /** A bare instant becomes the position below every revision of its stamp. */
  lemma {:induction false} LegacyIsRowZero(stamp: string)
    requires IsCanonical(stamp)
    ensures ParseWatermark(stamp) == Some(FeedPosition(stamp, 0))
  {
    hide IsDate, IsTime, NormalizeStamp, Trim;
    CanonicalChars(stamp);
    CanonicalLength(stamp);
    NothingToTrim(stamp);
    NoBar(stamp);
    CanonicalIsFixed(stamp);
  }

  // ---- the in-process store ----

  function KeyOf(ds: DatasetRef): string { ds.app + "/" + ds.name }

  lemma {:induction false} KeyOfGrants()
    ensures KeyOf(DatasetRef("grants", "unified")) == "grants/unified"
  {
  }

  /** Datasets share an entry exactly when their joined names do: never, while app names hold no
      slash. */
  lemma {:induction false} EntriesAreApart(a: DatasetRef, b: DatasetRef)
    requires '/' !in a.app && '/' !in b.app
    ensures KeyOf(a) == KeyOf(b) <==> a == b
  {
    if KeyOf(a) == KeyOf(b) {
      FirstCut(a.app, a.name, b.app, b.name, '/');
    }
  }

  class MemoryWatermark {
    var store: map<string, string>

    /** The stored value of a dataset; a dataset never stored has none. */
    ghost function Stored(ds: DatasetRef): Option<string>
      reads this
    {
      if KeyOf(ds) in store then Some(store[KeyOf(ds)]) else None
    }

    method Get(ds: DatasetRef) returns (watermark: Option<string>)
      ensures watermark == Stored(ds)
    {
      var key := KeyOf(ds);
      watermark := if key in store then Some(store[key]) else None;
    }

    /** Storing one dataset's watermark leaves every other dataset's alone. */
    method Set(ds: DatasetRef, watermark: string)
      requires '/' !in ds.app
      modifies this
      ensures Stored(ds) == Some(watermark)
      ensures forall other: DatasetRef :: '/' !in other.app && other != ds ==> Stored(other) == old(Stored(other))
    {
      forall other: DatasetRef | '/' !in other.app && other != ds ensures KeyOf(other) != KeyOf(ds) {
        EntriesAreApart(other, ds);
      }
      store := store[KeyOf(ds) := watermark];
    }
  }
}
