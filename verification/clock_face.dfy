/**
  What the once-a-second clock callback puts on the display: the hour in
  12-hour form with an AM/PM marker, the hour and minute as "HH:MM" in an
  8-byte buffer and the second as "SS" in a 4-byte buffer. The calendar
  fields come from `localtime_r` and are inputs here.
*/
module ClockFace {
  import opened Wrappers
  import opened Printf

  const HmBufferSize: nat := 8
  const SecBufferSize: nat := 4

  datatype Meridiem = AM | PM

  /** `a % 12` in C: the remainder takes the sign of the dividend. */
  function CRem12(a: int): (r: int)
    ensures a >= 0 ==> 0 <= r < 12
    ensures a < 0 ==> -12 < r <= 0
    ensures (a - r) % 12 == 0
  {
    if a >= 0 then a % 12 else -((-a) % 12)
  }

  /** `h12 = tm_hour % 12`, with 0 shown as 12. */
  function TwelveHour(hour: int): (h12: int)
    ensures 0 <= hour < 24 ==> 1 <= h12 <= 12
    ensures 0 <= hour < 24 ==> h12 % 12 == hour % 12
  {
    var h := CRem12(hour);
    if h == 0 then 12 else h
  }

  /** `tm_hour < 12 ? "AM" : "PM"` */
  function MeridiemOf(hour: int): (m: Meridiem)
    // together with the 12-hour number, the marker recovers the hour of the day
    ensures 0 <= hour < 24 ==> TwentyFourHour(TwelveHour(hour), m) == hour
  {
    if hour < 12 then AM else PM
  }

  function MeridiemText(m: Meridiem): string {
    match m
    case AM => "AM"
    case PM => "PM"
  }

  /** How a reader turns the 12-hour face back into a 24-hour hour: 12 AM is 0 and 12 PM is 12. */
  function TwentyFourHour(h12: int, m: Meridiem): int {
    h12 % 12 + (if m == PM then 12 else 0)
  }

  /** Every hour of the day is shown as 1..12 with the right marker, and reads back as itself. */
  lemma TwelveHourRoundTrip(hour: int)
    requires 0 <= hour < 24
    ensures 1 <= TwelveHour(hour) <= 12
    ensures MeridiemOf(hour) == AM <==> hour < 12
    ensures TwentyFourHour(TwelveHour(hour), MeridiemOf(hour)) == hour
  {
  }

  /** Every 12-hour face is shown for exactly one hour of the day, so the mapping is a bijection. */
  lemma TwentyFourHourRoundTrip(h12: int, m: Meridiem)
    requires 1 <= h12 <= 12
    ensures 0 <= TwentyFourHour(h12, m) < 24
    ensures TwelveHour(TwentyFourHour(h12, m)) == h12
    ensures MeridiemOf(TwentyFourHour(h12, m)) == m
  {
  }

  /** `t` is an "HH:MM" text showing hour `h` and minute `m`: two digits, a colon, two digits. */
  predicate ShowsHm(t: string, h: int, m: int) {
    && |t| == 5 && t[2] == ':'
    && AllDigits(t[..2]) && ParseDigits(t[..2]) == h
    && AllDigits(t[3..]) && ParseDigits(t[3..]) == m
  }

  /** `t` is an "SS" text showing second `s`. */
  predicate ShowsSec(t: string, s: int) {
    |t| == 2 && AllDigits(t) && ParseDigits(t) == s
  }

  /** "%02d:%02d" of a 12-hour hour and a minute shows exactly them in five characters. */
  lemma HmLayout(h12: int, minute: int)
    requires 1 <= h12 <= 12 && 0 <= minute < 60
    ensures ShowsHm(Format02d(h12) + ":" + Format02d(minute), h12, minute)
  {
  }

  /** Text shorter than the buffer is stored whole. */
  lemma FitsUntruncated(size: nat, text: string)
    requires |text| < size
    ensures !Truncated(Snprintf(size, text), size)
    ensures Snprintf(size, text).Text() == text
  {
  }

  /** The three label texts and the `snprintf` writes behind the two numeric ones. */
  datatype Face = Face(hm: Written, meridiem: string, sec: Written)

  predicate InDayRange(hour: int, minute: int, second: int) {
    0 <= hour < 24 && 0 <= minute < 60 && 0 <= second <= 60
  }

  /**
    The body of `update_clock_cb` from the calendar fields to the label
    texts. For every time of day (seconds up to 60, for a leap second) the
    "HH:MM" text is exactly 5 characters and the "SS" text exactly 2, so
    neither write is truncated, and the digits shown are the 12-hour hour,
    the minute and the second.
  */
  function RenderClock(hour: int, minute: int, second: int): (f: Face)
    ensures InDayRange(hour, minute, second) ==>
      && !Truncated(f.hm, HmBufferSize) && !Truncated(f.sec, SecBufferSize)
      && ShowsHm(f.hm.Text(), TwelveHour(hour), minute)
      && ShowsSec(f.sec.Text(), second)
    ensures f.meridiem == "AM" <==> hour < 12
  {
    var hmText := Format02d(TwelveHour(hour)) + ":" + Format02d(minute);
    var hm := Snprintf(HmBufferSize, hmText);
    var sec := Snprintf(SecBufferSize, Format02d(second));
    assert InDayRange(hour, minute, second) ==>
      && !Truncated(hm, HmBufferSize) && !Truncated(sec, SecBufferSize)
      && ShowsHm(hm.Text(), TwelveHour(hour), minute)
      && ShowsSec(sec.Text(), second)
    by {
      if InDayRange(hour, minute, second) {
        HmLayout(TwelveHour(hour), minute);
        FitsUntruncated(HmBufferSize, hmText);
        FitsUntruncated(SecBufferSize, Format02d(second));
      }
    }
    Face(hm, MeridiemText(MeridiemOf(hour)), sec)
  }

  /** Reads a displayed face back as a 24-hour time of day. */
  function ReadFace(f: Face): Option<(int, int, int)>
  {
    var hm := f.hm.Text();
    var ss := f.sec.Text();
    if |hm| == 5 && hm[2] == ':' && AllDigits(hm[..2]) && AllDigits(hm[3..])
       && |ss| == 2 && AllDigits(ss)
       && (f.meridiem == "AM" || f.meridiem == "PM")
    then
      var m := if f.meridiem == "AM" then AM else PM;
      Some((TwentyFourHour(ParseDigits(hm[..2]), m), ParseDigits(hm[3..]), ParseDigits(ss)))
    else None
  }

  /** The display loses nothing: the face shown for a time of day reads back as that time. */
  lemma ReadFaceRoundTrip(hour: int, minute: int, second: int)
    requires InDayRange(hour, minute, second)
    ensures ReadFace(RenderClock(hour, minute, second)) == Some((hour, minute, second))
  {
    var f := RenderClock(hour, minute, second);
    assert ShowsHm(f.hm.Text(), TwelveHour(hour), minute);
    assert ShowsSec(f.sec.Text(), second);
    TwelveHourRoundTrip(hour);
  }
}
