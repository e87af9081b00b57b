// Durations and end times: parsing and calendar arithmetic. Instants are microseconds in UTC.
module TimeGuard {
  import opened Wrappers
  import opened Sequences
  import opened Text

  const SECOND := 1_000_000
  const DAY := 86_400 * SECOND

  /** `int(s)` for a text of digits. */
  function Value(s: string): nat {
    if s == [] then 0
    else Value(s[..|s| - 1]) * 10 + if IsDigit(s[|s| - 1]) then s[|s| - 1] as int - '0' as int else 0
  }

  /** The text is the decimal notation of `n`, possibly with zeros in front. */
  ghost predicate Numeral(text: string, n: nat) {
    exists zeros: string :: IsNumeral(text, n, zeros)
  }

  ghost predicate IsNumeral(text: string, n: nat, zeros: string) {
    text == zeros + Decimal(n) && forall i :: 0 <= i < |zeros| ==> zeros[i] == '0'
  }

  lemma ValueSnoc(s: string, c: char)
    requires IsDigit(c)
    ensures Value(s + [c]) == Value(s) * 10 + (c as int - '0' as int)
  {
    assert (s + [c])[..|s|] == s;
  }

  lemma {:induction false} ZerosHaveNoValue(zeros: string)
    requires forall i :: 0 <= i < |zeros| ==> zeros[i] == '0'
    ensures Value(zeros) == 0
  {
    if zeros != [] {
      ZerosHaveNoValue(zeros[..|zeros| - 1]);
    }
  }

  lemma {:induction false} NumeralHasValue(zeros: string, n: nat)
    requires forall i :: 0 <= i < |zeros| ==> zeros[i] == '0'
    ensures Value(zeros + Decimal(n)) == n
  {
    if n < 10 {
      ZerosHaveNoValue(zeros);
      ValueSnoc(zeros, Digit(n));
    } else {
      NumeralHasValue(zeros, n / 10);
      ValueSnoc(zeros + Decimal(n / 10), Digit(n % 10));
      assert zeros + Decimal(n) == zeros + Decimal(n / 10) + [Digit(n % 10)];
    }
  }

  lemma DecimalSnoc(n: nat, d: nat)
    requires n > 0 && d < 10
    ensures Decimal(n * 10 + d) == Decimal(n) + [Digit(d)]
  {
    assert (n * 10 + d) / 10 == n && (n * 10 + d) % 10 == d;
  }

  lemma {:induction false} DigitsAreNumeral(text: string) returns (zeros: string)
    requires AllDigits(text)
    ensures IsNumeral(text, Value(text), zeros)
  {
    var n := |text| - 1;
    var d := text[n] as int - '0' as int;
    assert text == text[..n] + [text[n]] && text[n] == Digit(d);
    if n == 0 {
      zeros := [];
      assert Value(text) == d && Decimal(d) == [Digit(d)];
      assert zeros + [text[0]] == text;
    } else {
      var init := text[..n];
      zeros := DigitsAreNumeral(init);
      var v := Value(init);
      if v == 0 {
        assert Decimal(0) == ['0'];
        assert text == (zeros + ['0']) + [Digit(d)];
        zeros := zeros + ['0'];
      } else {
        DecimalSnoc(v, d);
        assert zeros + (Decimal(v) + [Digit(d)]) == (zeros + Decimal(v)) + [Digit(d)];
      }
    }
  }

  /** `int(text)` is the number whose decimal notation the digits are. */
  lemma ValueExact(text: string, n: nat)
    requires AllDigits(text)
    ensures Value(text) == n <==> Numeral(text, n)
  {
    if Value(text) == n {
      var zeros := DigitsAreNumeral(text);
    }
    if Numeral(text, n) {
      var zeros :| IsNumeral(text, n, zeros);
      NumeralHasValue(zeros, n);
    }
  }

  lemma NumeralIsDigits(text: string, n: nat)
    requires Numeral(text, n)
    ensures AllDigits(text) && ':' !in text
  {
    var zeros :| IsNumeral(text, n, zeros);
    assert forall i :: 0 <= i < |text| ==> IsDigit(text[i]);
  }

  /** Length of the longest prefix of digits. */
  function DigitRun(s: string): (n: nat)
    ensures n <= |s|
    ensures forall i :: 0 <= i < n ==> IsDigit(s[i])
    ensures n < |s| ==> !IsDigit(s[n])
  {
    if s == [] || !IsDigit(s[0]) then 0 else 1 + DigitRun(s[1..])
  }

  /** `(?:(\d+)u)?`: digits followed by the unit, or nothing. */
  function TakeField(s: string, unit: char): (Option<string>, string) {
    var n := DigitRun(s);
    if 0 < n < |s| && s[n] == unit then (Some(s[..n]), s[n + 1..]) else (None, s)
  }

  function Amount(field: Option<string>): nat {
    if field.Some? then Value(field.value) else 0
  }

  /** Seconds of a duration such as "1h30m", "45m" or plain minutes; None where ValueError is raised. */
  function ParseDuration(text: string): Option<int> {
    SecondsOf(Lower(Strip(text, WHITE_SPACE)))
  }

  function SecondsOf(clean: string): Option<int> {
    if clean == [] then None
    else if AllDigits(clean) then if Value(clean) <= 0 then None else Some(Value(clean) * 60)
    else
      var (hours, r1) := TakeField(clean, 'h');
      var (minutes, r2) := TakeField(r1, 'm');
      var (seconds, r3) := TakeField(r2, 's');
      var total := Amount(hours) * 3600 + Amount(minutes) * 60 + Amount(seconds);
      if r3 != [] || total <= 0 then None else Some(total)
  }

  // ---------------------------------------------------------------- durations, declaratively

  predicate Field(f: Option<string>) {
    f.Some? ==> AllDigits(f.value)
  }

  function Render(f: Option<string>, unit: char): string {
    if f.Some? then f.value + [unit] else []
  }

  function Written(h: Option<string>, m: Option<string>, s: Option<string>): string {
    Render(h, 'h') + (Render(m, 'm') + Render(s, 's'))
  }

  /** `clean` denotes `n` seconds: plain minutes, or hours, minutes and seconds in this order, each optional. */
  ghost predicate Denotes(clean: string, n: int) {
    || (AllDigits(clean) && n == Value(clean) * 60)
    || exists h, m, s :: IsWritten(clean, n, h, m, s)
  }

  lemma TakeFieldTaken(f: Option<string>, unit: char, rest: string)
    requires Field(f) && !IsDigit(unit)
    requires f.None? ==> TakeField(rest, unit) == (None, rest)
    ensures TakeField(Render(f, unit) + rest, unit) == (f, rest)
  {
    if f.Some? {
      DigitRunOf(f.value, [unit] + rest);
      assert Render(f, unit) + rest == f.value + ([unit] + rest);
    } else {
      assert [] + rest == rest;
    }
  }

  lemma {:induction false} DigitRunOf(digits: string, rest: string)
    requires forall i :: 0 <= i < |digits| ==> IsDigit(digits[i])
    requires rest == [] || !IsDigit(rest[0])
    ensures DigitRun(digits + rest) == |digits|
  {
    if digits == [] {
      assert digits + rest == rest;
    } else {
      assert (digits + rest)[1..] == digits[1..] + rest;
      DigitRunOf(digits[1..], rest);
    }
  }

  lemma TakeFieldRenders(s: string, unit: char)
    ensures var (f, rest) := TakeField(s, unit); Field(f) && s == Render(f, unit) + rest
  {
    var (f, rest) := TakeField(s, unit);
    if f.None? {
      assert s == [] + s;
    }
  }

  /** No field of `unit` can be taken from a text whose digits end in another unit. */
  lemma OtherUnit(f: Option<string>, other: char, unit: char, rest: string)
    requires Field(f) && !IsDigit(other) && other != unit
    requires f.None? ==> TakeField(rest, unit).0.None?
    ensures TakeField(Render(f, other) + rest, unit) == (None, Render(f, other) + rest)
  {
    if f.Some? {
      DigitRunOf(f.value, [other] + rest);
      assert Render(f, other) + rest == f.value + ([other] + rest);
    } else {
      assert [] + rest == rest;
    }
  }

  ghost predicate IsWritten(clean: string, n: int, h: Option<string>, m: Option<string>, s: Option<string>) {
    && Field(h) && Field(m) && Field(s) && clean == Written(h, m, s)
    && n == Amount(h) * 3600 + Amount(m) * 60 + Amount(s)
  }

  lemma TakenIsWritten(clean: string, h: Option<string>, r1: string, m: Option<string>, r2: string, s: Option<string>)
    requires TakeField(clean, 'h') == (h, r1) && TakeField(r1, 'm') == (m, r2) && TakeField(r2, 's') == (s, [])
    ensures Field(h) && Field(m) && Field(s) && clean == Written(h, m, s)
  {
    TakeFieldRenders(clean, 'h');
    TakeFieldRenders(r1, 'm');
    TakeFieldRenders(r2, 's');
    assert Render(s, 's') + [] == Render(s, 's');
  }

  lemma WrittenDenotes(clean: string, n: int, h: Option<string>, m: Option<string>, s: Option<string>)
    requires IsWritten(clean, n, h, m, s)
    ensures Denotes(clean, n)
  {
  }

  lemma SecondsSound(clean: string)
    requires SecondsOf(clean).Some?
    ensures SecondsOf(clean).value > 0 && Denotes(clean, SecondsOf(clean).value)
  {
    if !AllDigits(clean) {
      FieldsSound(clean);
    }
  }

  lemma FieldsSound(clean: string)
    requires SecondsOf(clean).Some? && !AllDigits(clean)
    ensures Denotes(clean, SecondsOf(clean).value)
  {
    var h, r1 := TakeField(clean, 'h').0, TakeField(clean, 'h').1;
    var m, r2 := TakeField(r1, 'm').0, TakeField(r1, 'm').1;
    var s := TakeField(r2, 's').0;
    TakenIsWritten(clean, h, r1, m, r2, s);
    WrittenDenotes(clean, SecondsOf(clean).value, h, m, s);
  }

  lemma WrittenSeconds(clean: string, n: int, h: Option<string>, m: Option<string>, s: Option<string>)
    requires n > 0 && IsWritten(clean, n, h, m, s) && !AllDigits(clean)
    ensures SecondsOf(clean) == Some(n)
  {
    WrittenParses(h, m, s);
    PositiveIsWritten(h, m, s);
  }

  lemma PositiveIsWritten(h: Option<string>, m: Option<string>, s: Option<string>)
    requires Amount(h) * 3600 + Amount(m) * 60 + Amount(s) > 0
    ensures Written(h, m, s) != []
  {
    assert h.Some? || m.Some? || s.Some?;
  }

  lemma SecondsComplete(clean: string, n: int)
    requires n > 0 && Denotes(clean, n)
    ensures SecondsOf(clean) == Some(n)
  {
    if AllDigits(clean) {
      DigitsAreNotWritten(clean);
    } else {
      var h, m, s :| IsWritten(clean, n, h, m, s);
      WrittenSeconds(clean, n, h, m, s);
    }
  }

  /** A part of a duration: a numeral, or nothing for none. */
  ghost predicate Part(f: Option<string>, n: nat) {
    if f.Some? then Numeral(f.value, n) else n == 0
  }

  ghost predicate Parts(clean: string, h: Option<string>, m: Option<string>, s: Option<string>, hours: nat, minutes: nat, seconds: nat) {
    Part(h, hours) && Part(m, minutes) && Part(s, seconds) && clean == Written(h, m, s)
  }

  /** `clean` is the text of `n` seconds: a numeral of minutes, or numerals of hours, minutes and seconds
      in this order, each with its unit and each optional. */
  ghost predicate WritesDuration(clean: string, n: int) {
    || (exists minutes: nat :: Numeral(clean, minutes) && n == minutes * 60)
    || (exists h: Option<string>, m: Option<string>, s: Option<string>, hours: nat, minutes: nat, seconds: nat ::
          Parts(clean, h, m, s, hours, minutes, seconds) && n == hours * 3600 + minutes * 60 + seconds)
  }

  lemma PartHasAmount(f: Option<string>, n: nat)
    ensures Part(f, n) <==> Field(f) && n == Amount(f)
  {
    if f.Some? {
      if AllDigits(f.value) {
        ValueExact(f.value, n);
      } else if Numeral(f.value, n) {
        NumeralIsDigits(f.value, n);
      }
    }
  }

  lemma WritesDenotes(clean: string, n: int)
    requires WritesDuration(clean, n)
    ensures Denotes(clean, n)
  {
    if minutes: nat :| Numeral(clean, minutes) && n == minutes * 60 {
      NumeralIsDigits(clean, minutes);
      ValueExact(clean, minutes);
    } else {
      var h: Option<string>, m: Option<string>, s: Option<string>, hours: nat, minutes: nat, seconds: nat :|
        Parts(clean, h, m, s, hours, minutes, seconds) && n == hours * 3600 + minutes * 60 + seconds;
      PartHasAmount(h, hours);
      PartHasAmount(m, minutes);
      PartHasAmount(s, seconds);
      WrittenDenotes(clean, n, h, m, s);
    }
  }

  lemma DenotesWrites(clean: string, n: int)
    requires Denotes(clean, n)
    ensures WritesDuration(clean, n)
  {
    if AllDigits(clean) && n == Value(clean) * 60 {
      ValueExact(clean, Value(clean));
    } else {
      var h, m, s :| IsWritten(clean, n, h, m, s);
      PartHasAmount(h, Amount(h));
      PartHasAmount(m, Amount(m));
      PartHasAmount(s, Amount(s));
      assert Parts(clean, h, m, s, Amount(h), Amount(m), Amount(s));
    }
  }

  /** The text, in any case and with white space around it, is that of a positive number of seconds. */
  ghost predicate LastsFor(text: string, n: int) {
    n > 0 && WritesDuration(Lower(Strip(text, WHITE_SPACE)), n)
  }

  /** A duration is accepted exactly when its text lasts for some seconds, and they are the result. */
  lemma DurationExact(text: string, n: int)
    ensures ParseDuration(text) == Some(n) <==> LastsFor(text, n)
  {
    SecondsExact(Lower(Strip(text, WHITE_SPACE)), n);
  }

  lemma SecondsExact(clean: string, n: int)
    ensures SecondsOf(clean) == Some(n) <==> n > 0 && WritesDuration(clean, n)
  {
    if SecondsOf(clean) == Some(n) {
      SecondsSound(clean);
      DenotesWrites(clean, n);
    }
    if n > 0 && WritesDuration(clean, n) {
      WritesDenotes(clean, n);
      SecondsComplete(clean, n);
    }
  }

  lemma DigitsAreNotWritten(clean: string)
    requires AllDigits(clean)
    ensures forall h, m, s :: Field(h) && Field(m) && Field(s) ==> clean != Written(h, m, s)
  {
    forall h, m, s | Field(h) && Field(m) && Field(s)
      ensures clean != Written(h, m, s)
    {
      var w := Written(h, m, s);
      if w != [] {
        assert w[|w| - 1] in {'h', 'm', 's'};
      }
    }
  }

  lemma WrittenParses(h: Option<string>, m: Option<string>, s: Option<string>)
    requires Field(h) && Field(m) && Field(s)
    ensures var (h', r1) := TakeField(Written(h, m, s), 'h');
            var (m', r2) := TakeField(r1, 'm');
            var (s', r3) := TakeField(r2, 's');
            h' == h && m' == m && s' == s && r3 == []
  {
    var ts := Render(s, 's');
    assert ts + [] == ts;
    OtherUnit(s, 's', 'm', []);
    OtherUnit(s, 's', 'h', []);
    OtherUnit(m, 'm', 'h', ts);
    TakeFieldTaken(h, 'h', Render(m, 'm') + ts);
    TakeFieldTaken(m, 'm', ts);
    TakeFieldTaken(s, 's', []);
  }

  // ---------------------------------------------------------------- end times

  /** What parsing an end time reads from its surroundings: the instant the text names if it is a
      full ISO date, a second clock reading, and the local offsets used on the way there and back. */
  datatype UntilReadings = UntilReadings(iso: Option<int>, reading: int, localOffset: int, zoneOffset: int)

  /** "HH:MM" or "HH:MM:SS" as microseconds since midnight. */
  function TimeOfDay(clean: string): Option<int> {
    var parts := Split(clean, ':');
    if !((|parts| == 2 || |parts| == 3) && forall i :: 0 <= i < |parts| ==> AllDigits(parts[i])) then None
    else
      var hour, minute := Value(parts[0]), Value(parts[1]);
      var second := if |parts| == 3 then Value(parts[2]) else 0;
      if hour <= 23 && minute <= 59 && second <= 59 then Some(((hour * 60 + minute) * 60 + second) * SECOND) else None
  }

  /** The parts are numerals of an hour, a minute and, if there is a third one, a second. */
  ghost predicate ClockParts(parts: seq<string>, hour: nat, minute: nat, second: nat) {
    && hour <= 23 && minute <= 59 && second <= 59 && (|parts| == 2 || |parts| == 3)
    && Numeral(parts[0], hour) && Numeral(parts[1], minute)
    && if |parts| == 3 then Numeral(parts[2], second) else second == 0
  }

  /** "HH:MM" or "HH:MM:SS", of a valid time of day; `time` are the microseconds since midnight. */
  ghost predicate ClockText(clean: string, time: int) {
    exists parts: seq<string>, hour: nat, minute: nat, second: nat ::
      && ClockParts(parts, hour, minute, second) && clean == Join(parts, ':')
      && time == ((hour * 60 + minute) * 60 + second) * 1_000_000
  }

  /** The time of a text that is one. */
  lemma ClockTextHasTime(parts: seq<string>, hour: nat, minute: nat, second: nat)
    requires ClockParts(parts, hour, minute, second)
    ensures TimeOfDay(Join(parts, ':')) == Some(((hour * 60 + minute) * 60 + second) * SECOND)
  {
    NumeralIsDigits(parts[0], hour);
    NumeralIsDigits(parts[1], minute);
    ValueExact(parts[0], hour);
    ValueExact(parts[1], minute);
    if |parts| == 3 {
      NumeralIsDigits(parts[2], second);
      ValueExact(parts[2], second);
    }
    SplitJoin(parts, ':');
  }

  lemma TimeIsOfClockText(clean: string)
    requires TimeOfDay(clean).Some?
    ensures ClockText(clean, TimeOfDay(clean).value)
  {
    var parts := Split(clean, ':');
    JoinSplit(clean, ':');
    ValueExact(parts[0], Value(parts[0]));
    ValueExact(parts[1], Value(parts[1]));
    var second := if |parts| == 3 then Value(parts[2]) else 0;
    if |parts| == 3 {
      ValueExact(parts[2], second);
    }
    assert ClockParts(parts, Value(parts[0]), Value(parts[1]), second);
  }

  /** A time of day is read exactly from the texts that write it. */
  lemma TimeOfDayExact(clean: string, time: int)
    ensures TimeOfDay(clean) == Some(time) <==> ClockText(clean, time)
  {
    if TimeOfDay(clean) == Some(time) {
      TimeIsOfClockText(clean);
    }
    if ClockText(clean, time) {
      var parts: seq<string>, hour: nat, minute: nat, second: nat :|
        && ClockParts(parts, hour, minute, second) && clean == Join(parts, ':')
        && time == ((hour * 60 + minute) * 60 + second) * 1_000_000;
      ClockTextHasTime(parts, hour, minute, second);
    }
  }

  /** The given time of the local day, or of the next one if it has passed. */
  function NextLocal(local: int, timeOfDay: int): int {
    var target := local - local % DAY + timeOfDay;
    if target <= local then target + DAY else target
  }

  /** An ISO date that is not in the future is not an error by itself: the text is tried as a time
      of day, which it is not. */
  function ParseUntil(text: string, now: int, u: UntilReadings): Option<int> {
    if u.iso.Some? && u.iso.value > now then u.iso
    else
      match TimeOfDay(Strip(text, WHITE_SPACE))
      case None => None
      case Some(time) => Some(NextLocal(u.reading + u.localOffset, time) - u.zoneOffset)
  }

  lemma TimeOfDayInDay(clean: string)
    ensures TimeOfDay(clean).Some? ==> 0 <= TimeOfDay(clean).value < DAY
  {
  }

  /** Under a fixed offset, "HH:MM" is the one instant within the next 24 hours at which the local
      clock shows that time. */
  lemma NextOccurrence(local: int, time: int, t: int)
    requires 0 <= time < DAY
    ensures t == NextLocal(local, time) <==> local < t <= local + DAY && t % DAY == time
  {
    var midnight := local - local % DAY;
    var days := local / DAY;
    assert midnight == days * DAY;
    ModOf(days, time);
    ModOf(days + 1, time);
    if local < t <= local + DAY && t % DAY == time {
      var q := t / DAY;
      assert t == q * DAY + time;
      assert q == days || q == days + 1;
    }
  }

  lemma ModOf(days: int, time: int)
    requires 0 <= time < DAY
    ensures (days * DAY + time) % DAY == time
  {
  }

  /** Within 24 hours of the reading, the local clock shows `time` at `t`. */
  ghost predicate ShowsAt(u: UntilReadings, time: int, t: int) {
    u.reading < t <= u.reading + DAY && (t + u.localOffset) % DAY == time
  }

  lemma UntilIsNextOccurrence(text: string, now: int, u: UntilReadings)
    requires u.localOffset == u.zoneOffset && u.iso.None?
    requires TimeOfDay(Strip(text, WHITE_SPACE)).Some?
    ensures forall t :: ParseUntil(text, now, u) == Some(t) <==> ShowsAt(u, TimeOfDay(Strip(text, WHITE_SPACE)).value, t)
  {
    TimeOfDayInDay(Strip(text, WHITE_SPACE));
    var time := TimeOfDay(Strip(text, WHITE_SPACE)).value;
    var local := u.reading + u.localOffset;
    forall t
      ensures ParseUntil(text, now, u) == Some(t) <==> ShowsAt(u, time, t)
    {
      NextOccurrence(local, time, t + u.localOffset);
    }
  }

  /** `t` is the end time that the text names: the instant of an ISO date in the future, or else the
      first instant after the reading at which the local clock shows the time of day. */
  ghost predicate EndTime(text: string, now: int, u: UntilReadings, t: int) {
    if u.iso.Some? && u.iso.value > now then t == u.iso.value
    else exists time :: ClockText(Strip(text, WHITE_SPACE), time) && FirstShown(u, time, t)
  }

  ghost predicate FirstShown(u: UntilReadings, time: int, t: int) {
    u.reading + u.localOffset < t + u.zoneOffset <= u.reading + u.localOffset + DAY && (t + u.zoneOffset) % DAY == time
  }

  /** An end time is accepted exactly if the text names one. */
  lemma UntilExact(text: string, now: int, u: UntilReadings, t: int)
    ensures ParseUntil(text, now, u) == Some(t) <==> EndTime(text, now, u, t)
  {
    var clean := Strip(text, WHITE_SPACE);
    if !(u.iso.Some? && u.iso.value > now) {
      if TimeOfDay(clean).Some? {
        TimeOfDayInDay(clean);
        NextOccurrence(u.reading + u.localOffset, TimeOfDay(clean).value, t + u.zoneOffset);
        TimeOfDayExact(clean, TimeOfDay(clean).value);
      }
      forall time | ClockText(clean, time)
        ensures TimeOfDay(clean) == Some(time)
      {
        TimeOfDayExact(clean, time);
      }
    }
  }

  /** Clocks that do not run backwards inside the call, and no change of offset in between. */
  ghost predicate Steady(now: int, u: UntilReadings) {
    now <= u.reading && u.localOffset == u.zoneOffset
  }

  /** Every end time that is accepted lies in the future. */
  lemma UntilIsLater(text: string, now: int, u: UntilReadings)
    requires Steady(now, u) && ParseUntil(text, now, u).Some?
    ensures now < ParseUntil(text, now, u).value
  {
    TimeOfDayInDay(Strip(text, WHITE_SPACE));
    if !(u.iso.Some? && u.iso.value > now) {
      var time := TimeOfDay(Strip(text, WHITE_SPACE)).value;
      NextOccurrence(u.reading + u.localOffset, time, NextLocal(u.reading + u.localOffset, time));
    }
  }
}
