/** Reading and printing offsets from UTC, counted in seconds to the east. */
module Offsets {
  import opened Outcomes
  import opened Splitting

  /** Eighteen hours either way is the most that is accepted. */
  const LIMIT_SECONDS: int := 18 * 3_600

  const INT_MAX: int := 0x7FFF_FFFF

  /** A signed 32-bit number: an optional sign and at least one digit. */
  function ParseInt(text: string): Option<int> {
    var signed := text != [] && (text[0] == '+' || text[0] == '-');
    var digits := if signed then text[1..] else text;
    if !IsNumber(digits) then None
    else
      var n: int := if signed && text[0] == '-' then 0 - Value(digits) else Value(digits);
      if -INT_MAX - 1 <= n <= INT_MAX then Some(n) else None
  }

  /** Digits with at most one sign are read, as far as 32 bits reach, and nothing else is. */
  lemma NumbersAreReadExactly(digits: string, text: string)
    requires IsNumber(digits)
    ensures ParseInt(digits) == ParseInt("+" + digits) == if Value(digits) <= 2_147_483_647 then Some(Value(digits)) else None
    ensures ParseInt("-" + digits).Some? <==> Value(digits) <= 2_147_483_648
    ensures ParseInt("-" + digits).Some? ==> ParseInt("-" + digits).value == 0 - Value(digits)
    ensures !IsNumber(text) && !(text != "" && (text[0] == '+' || text[0] == '-') && IsNumber(text[1..])) ==> ParseInt(text).None?
  {
    assert ("+" + digits)[1..] == digits && ("-" + digits)[1..] == digits;
    assert digits[0] != '+' && digits[0] != '-';
  }

  predicate NamesUtc(value: string) {
    value == "Z" || value == "z" || value == "UTC" || value == "utc"
  }

  /** Hours and minutes as numbers, unless either is none or out of range. */
  function Clock(hours: string, minutes: Option<string>): (r: Option<(nat, nat)>)
    ensures r.Some? ==> r.value.1 <= 59 && ParseInt(hours) == Some(r.value.0)
    ensures r.Some? ==> if minutes.None? then r.value.1 == 0 else ParseInt(minutes.value) == Some(r.value.1)
    ensures r.Some? <==> (ParseInt(hours).Some? && ParseInt(hours).value >= 0
                          && (minutes.Some? ==> ParseInt(minutes.value).Some? && 0 <= ParseInt(minutes.value).value <= 59))
  {
    var h, m := ParseInt(hours), if minutes.Some? then ParseInt(minutes.value) else Some(0);
    if h.None? || m.None? || h.value < 0 || m.value < 0 || m.value > 59 then None else Some((h.value, m.value))
  }

  /** What follows the sign: hours up to the first colon, and the minutes after it. */
  function ReadClock(rest: string): Option<(nat, nat)> {
    var split := SplitOnce(rest, ':');
    if split.Some? then Clock(split.value.0, Some(split.value.1)) else Clock(rest, None)
  }

  /** The seconds of an offset within the limit. */
  function Seconds(sign: int, hours: nat, minutes: nat): (r: Option<int>)
    requires sign == 1 || sign == -1
    ensures r.Some? ==> -LIMIT_SECONDS <= r.value <= LIMIT_SECONDS && r.value % 60 == 0
  {
    var total := hours * 3_600 + minutes * 60;
    assert total == 60 * (60 * hours + minutes);
    if total > LIMIT_SECONDS then None else if sign == 1 then Some(total) else Some(0 - total)
  }

  /** The offset a text names: a word for UTC, or a sign with hours and perhaps minutes. */
  function FromStr(value: string): (r: Result<int, string>)
    ensures r.Ok? ==> -LIMIT_SECONDS <= r.value <= LIMIT_SECONDS && r.value % 60 == 0
  {
    if NamesUtc(value) then Ok(0)
    else if value == [] || (value[0] != '+' && value[0] != '-') then Err(value)
    else
      var clock := ReadClock(value[1..]);
      if clock.None? then Err(value)
      else
        var seconds := Seconds(if value[0] == '+' then 1 else -1, clock.value.0, clock.value.1);
        if seconds.None? then Err(value) else Ok(seconds.value)
  }

  /** The text is a sign, hours, and perhaps minutes after the first colon. */
  predicate IsWritten(value: string, sign: char, hours: string, minutes: Option<string>) {
    && (sign == '+' || sign == '-') && ':' !in hours
    && value == [sign] + hours + if minutes.Some? then [':'] + minutes.value else []
  }

  /** Hours and minutes come to so many seconds under the sign, within the limit. */
  predicate IsOffset(sign: char, clock: (nat, nat), seconds: int) {
    var total := clock.0 * 3_600 + clock.1 * 60;
    total <= 64_800 && seconds == if sign == '+' then total else 0 - total
  }

  /** The hours, and the minutes when there are any, are numbers, the minutes below 60. */
  predicate IsClock(hours: string, minutes: Option<string>, clock: (nat, nat)) {
    && ParseInt(hours) == Some(clock.0) && clock.1 <= 59
    && if minutes.None? then clock.1 == 0 else ParseInt(minutes.value) == Some(clock.1)
  }

  lemma ClockIsExact(hours: string, minutes: Option<string>, clock: (nat, nat))
    ensures Clock(hours, minutes) == Some(clock) <==> IsClock(hours, minutes, clock)
  {
  }

  /** The text writes hours and minutes in range that come to so many seconds. */
  ghost predicate Writes(value: string, seconds: int) {
    exists sign, hours, minutes, clock ::
      IsWritten(value, sign, hours, minutes) && IsClock(hours, minutes, clock) && IsOffset(sign, clock, seconds)
  }

  /** A text is written in one way only. */
  lemma WrittenOnce(value: string, sign: char, hours: string, minutes: Option<string>)
    requires IsWritten(value, sign, hours, minutes)
    ensures value != [] && value[0] == sign && ReadClock(value[1..]) == Clock(hours, minutes)
  {
    if minutes.Some? {
      assert value[1..] == hours + [':'] + minutes.value;
      SplitOnceFinds(hours, ':', minutes.value);
    } else {
      assert value[1..] == hours;
    }
  }

  lemma SecondsAre(sign: char, clock: (nat, nat), seconds: int)
    ensures Seconds(if sign == '+' then 1 else -1, clock.0, clock.1) == Some(seconds) <==> IsOffset(sign, clock, seconds)
  {
  }

  lemma SignIsRead(value: string, seconds: int)
    requires !NamesUtc(value) && value != [] && (value[0] == '+' || value[0] == '-')
    ensures FromStr(value) == Ok(seconds) <==> ReadClock(value[1..]).Some? && IsOffset(value[0], ReadClock(value[1..]).value, seconds)
  {
    var clock := ReadClock(value[1..]);
    if clock.Some? {
      SecondsAre(value[0], clock.value, seconds);
    }
  }

  lemma ReadIsWritten(value: string, seconds: int)
    requires !NamesUtc(value) && FromStr(value) == Ok(seconds)
    ensures Writes(value, seconds)
  {
    SignIsRead(value, seconds);
    var split := SplitOnce(value[1..], ':');
    var hours, minutes := if split.Some? then split.value.0 else value[1..], if split.Some? then Some(split.value.1) else None;
    SplitIsWritten(value, hours, minutes);
    assert ReadClock(value[1..]) == Clock(hours, minutes);
    ClockIsExact(hours, minutes, ReadClock(value[1..]).value);
  }

  lemma SplitIsWritten(value: string, hours: string, minutes: Option<string>)
    requires value != [] && (value[0] == '+' || value[0] == '-') && ':' !in hours
    requires value[1..] == if minutes.Some? then hours + [':'] + minutes.value else hours
    ensures IsWritten(value, value[0], hours, minutes)
  {
    assert value == [value[0]] + value[1..];
    if minutes.Some? {
      assert [value[0]] + (hours + [':'] + minutes.value) == [value[0]] + hours + ([':'] + minutes.value);
    } else {
      assert [value[0]] + hours + [] == [value[0]] + hours;
    }
  }

  /** A text is read as an offset exactly when it is a word for UTC, or writes hours and minutes in range. */
  lemma ReadsExactly(value: string, seconds: int)
    ensures FromStr(value) == Ok(seconds) <==>
            if value == "Z" || value == "z" || value == "UTC" || value == "utc" then seconds == 0 else Writes(value, seconds)
  {
    if !NamesUtc(value) {
      if Writes(value, seconds) {
        var sign, hours, minutes, clock :|
          IsWritten(value, sign, hours, minutes) && IsClock(hours, minutes, clock) && IsOffset(sign, clock, seconds);
        ClockIsExact(hours, minutes, clock);
        WrittenOnce(value, sign, hours, minutes);
        SignIsRead(value, seconds);
      }
      if FromStr(value) == Ok(seconds) {
        ReadIsWritten(value, seconds);
      }
    }
  }

  function TwoDigits(n: nat): (r: string)
    requires n < 100
  {
    [Digit(n / 10), Digit(n % 10)]
  }

  function Print(seconds: int): string
    requires -LIMIT_SECONDS <= seconds <= LIMIT_SECONDS
  {
    if seconds == 0 then "Z"
    else
      var total := if seconds < 0 then -seconds else seconds;
      [if seconds < 0 then '-' else '+'] + TwoDigits(total / 3_600) + [':'] + TwoDigits(total % 3_600 / 60)
  }

  lemma TwoDigitsRead(n: nat)
    requires n < 100
    ensures IsNumber(TwoDigits(n)) && ParseInt(TwoDigits(n)) == Some(n) && ':' !in TwoDigits(n)
  {
    var text := TwoDigits(n);
    assert text[..1] == [Digit(n / 10)];
    assert [Digit(n / 10)][..0] == [];
    assert Value([]) == 0;
    assert Value(text[..1]) == n / 10;
  }

  lemma ClockReads(hours: nat, minutes: nat)
    requires hours < 100 && minutes < 60
    ensures ReadClock(TwoDigits(hours) + [':'] + TwoDigits(minutes)) == Some((hours, minutes))
  {
    TwoDigitsRead(hours);
    TwoDigitsRead(minutes);
    SplitOnceFinds(TwoDigits(hours), ':', TwoDigits(minutes));
  }

  lemma ClockOf(total: nat)
    requires 0 < total <= LIMIT_SECONDS && total % 60 == 0
    ensures total / 3_600 < 100 && total % 3_600 / 60 < 60 && (total / 3_600) * 3_600 + (total % 3_600 / 60) * 60 == total
  {
  }

  lemma SignedReads(sign: char, clock: string)
    requires sign == '+' || sign == '-'
    ensures var text := [sign] + clock; !NamesUtc(text) && text[0] == sign && text[1..] == clock
  {
    assert ([sign] + clock)[0] == sign;
  }

  lemma PrintIsClock(seconds: int, total: nat)
    requires -LIMIT_SECONDS <= seconds <= LIMIT_SECONDS && seconds != 0 && total == if seconds < 0 then 0 - seconds else seconds
    ensures total / 3_600 < 100 && total % 3_600 / 60 < 100
    ensures Print(seconds) == [if seconds < 0 then '-' else '+'] + (TwoDigits(total / 3_600) + [':'] + TwoDigits(total % 3_600 / 60))
  {
  }

  lemma SecondsOf(sign: int, hours: nat, minutes: nat, total: nat)
    requires (sign == 1 || sign == -1) && total == hours * 3_600 + minutes * 60 && total <= LIMIT_SECONDS
    ensures Seconds(sign, hours, minutes) == Some(if sign == 1 then total else 0 - total)
  {
  }

  lemma ClockIsRead(sign: char, clock: string, hours: nat, minutes: nat, total: nat)
    requires (sign == '+' || sign == '-') && ReadClock(clock) == Some((hours, minutes))
    requires total == hours * 3_600 + minutes * 60 && total <= LIMIT_SECONDS
    ensures FromStr([sign] + clock) == Ok(if sign == '+' then total else 0 - total)
  {
    SignedReads(sign, clock);
    SecondsOf(if sign == '+' then 1 else -1, hours, minutes, total);
  }

  /** A printed offset of whole minutes reads back as itself, sign and all. */
  lemma PrintedReadsBack(seconds: int)
    requires -LIMIT_SECONDS <= seconds <= LIMIT_SECONDS && seconds % 60 == 0
    ensures FromStr(Print(seconds)) == Ok(seconds)
  {
    if seconds != 0 {
      var total: nat := if seconds < 0 then 0 - seconds else seconds;
      ClockOf(total);
      ClockReads(total / 3_600, total % 3_600 / 60);
      PrintIsClock(seconds, total);
      var clock := TwoDigits(total / 3_600) + [':'] + TwoDigits(total % 3_600 / 60);
      ClockIsRead(if seconds < 0 then '-' else '+', clock, total / 3_600, total % 3_600 / 60, total);
    }
  }

  /** A printed offset is a letter, or a sign with two digits of hours and two of minutes. */
  lemma PrintIsPadded(seconds: int)
    requires -LIMIT_SECONDS <= seconds <= LIMIT_SECONDS
    ensures if seconds == 0 then Print(seconds) == "Z"
            else && |Print(seconds)| == 6 && Print(seconds)[0] == (if seconds < 0 then '-' else '+') && Print(seconds)[3] == ':'
                 && IsNumber(Print(seconds)[1..3]) && IsNumber(Print(seconds)[4..])
  {
    if seconds != 0 {
      var total: nat := if seconds < 0 then 0 - seconds else seconds;
      var hours, minutes := TwoDigits(total / 3_600), TwoDigits(total % 3_600 / 60);
      TwoDigitsRead(total / 3_600);
      TwoDigitsRead(total % 3_600 / 60);
      assert Print(seconds)[1..3] == hours && Print(seconds)[4..] == minutes;
    }
  }
}
