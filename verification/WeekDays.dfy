/** Moving the days of week of a crontab to the numbers the Quartz form counts in. */
module WeekDays {
  import opened Outcomes
  import opened Splitting

  /** A day of week outside 0 to 7. */
  datatype DayError = DayOfWeek(day: string)

  // ----- the rewriting -----

  /** One up, with 7 wrapping round to Sunday; words pass, and numbers above 7 are refused whatever their length. */
  function ShiftDay(day: string): Result<string, DayError> {
    if !IsNumber(day) then Ok(day)
    else if Value(day) > 7 then Err(DayOfWeek(day))
    else Ok([Digit(Value(day) % 7 + 1)])
  }

  /** Shifts every day, or answers the first error. */
  function ShiftDays(days: seq<string>): (r: Result<seq<string>, DayError>)
    ensures r.Ok? ==> |r.value| == |days|
    ensures r.Ok? ==> forall i :: 0 <= i < |days| ==> ShiftDay(days[i]) == Ok(r.value[i])
    ensures r.Err? ==> exists i :: 0 <= i < |days| && ShiftDay(days[i]).Err?
  {
    if days == [] then Ok([])
    else match ShiftDay(days[0])
      case Err(error) => Err(error)
      case Ok(first) =>
        match ShiftDays(days[1..])
        case Err(error) => Err(error)
        case Ok(rest) => Ok([first] + rest)
  }

  /** Cuts a term at its first slash into days and step. */
  function Parts(term: string): (string, Option<string>) {
    var split := SplitOnce(term, '/');
    if split.None? then (term, None) else (split.value.0, Some(split.value.1))
  }

  function WithStep(days: string, step: Option<string>): string {
    if step.Some? then days + ['/'] + step.value else days
  }

  function ShiftTerm(term: string): Result<string, DayError> {
    var (days, step) := Parts(term);
    match ShiftDays(Split(days, '-'))
    case Err(error) => Err(error)
    case Ok(shifted) => Ok(WithStep(Join(shifted, '-'), step))
  }

  function ShiftTerms(terms: seq<string>): (r: Result<seq<string>, DayError>)
    ensures r.Ok? ==> |r.value| == |terms| && forall i :: 0 <= i < |terms| ==> ShiftTerm(terms[i]) == Ok(r.value[i])
    ensures r.Err? ==> exists i :: 0 <= i < |terms| && ShiftTerm(terms[i]).Err?
  {
    if terms == [] then Ok([])
    else match ShiftTerm(terms[0])
      case Err(error) => Err(error)
      case Ok(first) =>
        match ShiftTerms(terms[1..])
        case Err(error) => Err(error)
        case Ok(rest) => Ok([first] + rest)
  }

  function ShiftDaysOfWeek(field: string): Result<string, DayError> {
    match ShiftTerms(Split(field, ','))
    case Err(error) => Err(error)
    case Ok(terms) => Ok(Join(terms, ','))
  }

  // ----- what a field means -----

  /** Day names, each with its day counted from Sunday as 0. */
  type Names = string -> Option<nat>

  ghost predicate NamesDays(names: Names) {
    forall name :: names(name).Some? ==> names(name).value <= 6 && name != "*"
  }

  function CrontabValue(names: Names, day: string): Option<nat> {
    if IsNumber(day) then if Value(day) <= 7 then Some(Value(day)) else None
    else names(day)
  }

  /** The Quartz form counts from Sunday as 1; the answer counts from Sunday as 0. */
  function QuartzValue(names: Names, day: string): Option<nat> {
    if IsNumber(day) then if 1 <= Value(day) <= 7 then Some(Value(day) - 1) else None
    else names(day)
  }

  function StepValue(step: Option<string>): Option<nat> {
    if step.None? then Some(1)
    else if IsNumber(step.value) && Value(step.value) > 0 then Some(Value(step.value))
    else None
  }

  /** Every `step`-th day from `low` to `high`, where 7 is Sunday again. */
  function Every(low: nat, high: nat, step: nat): set<nat>
    requires step > 0
  {
    set d | low <= d <= high && (d - low) % step == 0 :: d % 7
  }

  /** The weekdays of one term, or nothing when the form does not know it; `value` reads one day. */
  function Denotes(value: string -> Option<nat>, days: seq<string>, step: Option<string>): Option<set<nat>> {
    if StepValue(step).None? then None
    else if days == ["*"] then Some(Every(0, 6, StepValue(step).value))
    else if |days| == 1 && step.None? then
      if value(days[0]).None? then None else Some(Every(value(days[0]).value, value(days[0]).value, 1))
    else if |days| == 2 then
      if value(days[0]).None? || value(days[1]).None? || value(days[0]).value > value(days[1]).value then None
      else Some(Every(value(days[0]).value, value(days[1]).value, StepValue(step).value))
    else None
  }

  function TermDenotes(value: string -> Option<nat>, term: string): Option<set<nat>> {
    var (days, step) := Parts(term);
    Denotes(value, Split(days, '-'), step)
  }

  function TermsDenote(value: string -> Option<nat>, terms: seq<string>): Option<set<nat>> {
    if terms == [] then Some({})
    else
      var first, rest := TermDenotes(value, terms[0]), TermsDenote(value, terms[1..]);
      if first.None? || rest.None? then None else Some(first.value + rest.value)
  }

  function Crontab(names: Names): string -> Option<nat> {
    day => CrontabValue(names, day)
  }

  function Quartz(names: Names): string -> Option<nat> {
    day => QuartzValue(names, day)
  }

  /** The weekdays of a whole field as a crontab counts them, and as the Quartz form does. */
  function CrontabDays(names: Names, field: string): Option<set<nat>> {
    TermsDenote(Crontab(names), Split(field, ','))
  }

  function QuartzDays(names: Names, field: string): Option<set<nat>> {
    TermsDenote(Quartz(names), Split(field, ','))
  }

  // ----- one term -----

  lemma OneDigit(n: nat)
    requires n < 10
    ensures IsNumber([Digit(n)]) && Value([Digit(n)]) == n
  {
    assert [Digit(n)][..0] == [];
    assert Value([]) == 0;
  }

  /** A shifted day names the weekday the crontab named. */
  lemma ShiftedDayIsSame(names: Names, day: string)
    requires CrontabValue(names, day).Some? && NamesDays(names)
    ensures ShiftDay(day).Ok? && QuartzValue(names, ShiftDay(day).value) == Some(CrontabValue(names, day).value % 7)
  {
    if IsNumber(day) {
      OneDigit(Value(day) % 7 + 1);
    }
  }

  lemma ShiftedDayIsPlain(day: string, c: char)
    requires ShiftDay(day).Ok? && c !in day && !IsDigit(c)
    ensures c !in ShiftDay(day).value
  {
  }

  /** The shifted term has the shifted days and the same step. */
  lemma ShiftedParts(term: string)
    requires ShiftTerm(term).Ok?
    ensures var (days, step) := Parts(term);
            var shifted := ShiftDays(Split(days, '-')).value;
            Split(Parts(ShiftTerm(term).value).0, '-') == shifted && Parts(ShiftTerm(term).value).1 == step
  {
    var (days, step) := Parts(term);
    var pieces := Split(days, '-');
    var shifted := ShiftDays(pieces).value;
    PiecesAreOfText(days, '-', '/');
    forall i | 0 <= i < |shifted| ensures '-' !in shifted[i] && '/' !in shifted[i] {
      ShiftedDayIsPlain(pieces[i], '-');
      ShiftedDayIsPlain(pieces[i], '/');
    }
    JoinedSplits(shifted, '-');
    JoinAvoids(shifted, '-', '/');
    if step.Some? {
      SplitOnceFinds(Join(shifted, '-'), '/', step.value);
    }
  }

  lemma ShiftedTermIsPlain(term: string)
    requires ShiftTerm(term).Ok? && ',' !in term
    ensures ',' !in ShiftTerm(term).value
  {
    var (days, step) := Parts(term);
    var pieces := Split(days, '-');
    PiecesAreOfText(days, '-', ',');
    var shifted := ShiftDays(pieces).value;
    forall i | 0 <= i < |shifted| ensures ',' !in shifted[i] {
      ShiftedDayIsPlain(pieces[i], ',');
    }
    JoinAvoids(shifted, '-', ',');
  }

  /** A range survives when its end is before the second Sunday, or when only that Sunday remains of it. */
  predicate SurvivesShift(names: Names, term: string) {
    var (days, step) := Parts(term);
    var pieces := Split(days, '-');
    |pieces| != 2 || (
      var low, high, k := CrontabValue(names, pieces[0]), CrontabValue(names, pieces[1]), StepValue(step);
      low.Some? && high.Some? && k.Some? && (high.value <= 6 || low.value == 7 || (low.value == 0 && k.value >= 7)))
  }

  lemma InEvery(low: nat, high: nat, step: nat, d: nat)
    requires step > 0 && low <= d <= high && (d - low) % step == 0
    ensures d % 7 in Every(low, high, step)
  {
  }

  lemma Sundays(step: nat)
    requires step > 0
    ensures Every(0, 7, step) == {0} <==> step >= 7
    ensures Every(0, 0, step) == {0} && Every(7, 7, step) == {0}
  {
    InEvery(0, 7, step, 0);
    InEvery(0, 0, step, 0);
    InEvery(7, 7, step, 7);
    if step < 7 {
      InEvery(0, 7, step, step);
    } else {
      forall d | 0 < d <= 6 ensures d % step != 0 {}
    }
  }

  lemma ShiftedRangeIsSame(low: nat, high: nat, step: nat)
    requires low <= high <= 7 && step > 0
    ensures (low % 7 <= high % 7 && Every(low % 7, high % 7, step) == Every(low, high, step))
            <==> (high <= 6 || low == 7 || (low == 0 && step >= 7))
  {
    if high == 7 && (low == 0 || low == 7) {
      Sundays(step);
    }
  }

  lemma SingleIsSame(day: nat)
    ensures Every(day % 7, day % 7, 1) == Every(day, day, 1)
  {
    assert Every(day, day, 1) == {day % 7};
    assert Every(day % 7, day % 7, 1) == {day % 7 % 7};
  }

  /**
   * A term a crontab knows keeps its weekdays exactly when it survives: every star, every single day, and every
   * range that ends before the second Sunday.
   */
  lemma TermKeepsMeaning(names: Names, term: string)
    requires NamesDays(names) && TermDenotes(Crontab(names), term).Some?
    ensures ShiftTerm(term).Ok?
    ensures TermDenotes(Quartz(names), ShiftTerm(term).value) == TermDenotes(Crontab(names), term) <==> SurvivesShift(names, term)
  {
    var (days, step) := Parts(term);
    var pieces := Split(days, '-');
    forall i | 0 <= i < |pieces| ensures ShiftDay(pieces[i]).Ok? {
      if pieces[i] != "*" {
        ShiftedDayIsSame(names, pieces[i]);
      }
    }
    ShiftedParts(term);
    var shifted := ShiftDays(pieces).value;
    if pieces == ["*"] {
      assert shifted == ["*"];
    } else if |pieces| == 1 {
      ShiftedDayIsSame(names, pieces[0]);
      SingleIsSame(CrontabValue(names, pieces[0]).value);
      ShiftedIsNoStar(names, pieces[0]);
    } else {
      ShiftedDayIsSame(names, pieces[0]);
      ShiftedDayIsSame(names, pieces[1]);
      ShiftedRangeIsSame(CrontabValue(names, pieces[0]).value, CrontabValue(names, pieces[1]).value, StepValue(step).value);
    }
  }

  lemma ShiftedIsNoStar(names: Names, day: string)
    requires NamesDays(names) && CrontabValue(names, day).Some? && ShiftDay(day).Ok?
    ensures ShiftDay(day).value != "*" && day != "*"
  {
  }

  // ----- what is refused -----

  /** The days of all terms, in order: what stands before the steps, cut at the dashes. */
  function DaysOf(terms: seq<string>): seq<string> {
    if terms == [] then []
    else
      var split := SplitOnce(terms[0], '/');
      Split(if split.None? then terms[0] else split.value.0, '-') + DaysOf(terms[1..])
  }

  /** The first day that is a number above 7. */
  predicate IsFirstTooBig(days: seq<string>, day: string) {
    exists i :: 0 <= i < |days| && days[i] == day && IsTooBig(day) && forall j :: 0 <= j < i ==> !IsTooBig(days[j])
  }

  predicate IsTooBig(day: string) {
    IsNumber(day) && Value(day) > 7
  }

  lemma FirstOrLater(first: string, rest: seq<string>, day: string)
    ensures IsFirstTooBig([first] + rest, day) <==> if IsTooBig(first) then day == first else IsFirstTooBig(rest, day)
  {
    var days := [first] + rest;
    assert days[0] == first;
    if !IsTooBig(first) && IsFirstTooBig(rest, day) {
      var i :| 0 <= i < |rest| && rest[i] == day && IsTooBig(day) && forall j :: 0 <= j < i ==> !IsTooBig(rest[j]);
      assert days[i + 1] == day && forall j :: 0 < j < i + 1 ==> days[j] == rest[j - 1];
    }
    if !IsTooBig(first) && IsFirstTooBig(days, day) {
      var i :| 0 <= i < |days| && days[i] == day && IsTooBig(day) && forall j :: 0 <= j < i ==> !IsTooBig(days[j]);
      assert rest[i - 1] == day && forall j :: 0 <= j < i - 1 ==> rest[j] == days[j + 1];
    }
  }

  lemma {:induction false} FirstInEither(one: seq<string>, other: seq<string>, day: string)
    ensures IsFirstTooBig(one + other, day) <==>
            if exists i :: 0 <= i < |one| && IsTooBig(one[i]) then IsFirstTooBig(one, day) else IsFirstTooBig(other, day)
  {
    if one == [] {
      assert one + other == other;
    } else {
      assert one + other == [one[0]] + (one[1..] + other) && one == [one[0]] + one[1..];
      FirstOrLater(one[0], one[1..] + other, day);
      FirstOrLater(one[0], one[1..], day);
      FirstInEither(one[1..], other, day);
      if exists i :: 0 <= i < |one[1..]| && IsTooBig(one[1..][i]) {
        var i :| 0 <= i < |one[1..]| && IsTooBig(one[1..][i]);
        assert one[i + 1] == one[1..][i];
      }
    }
  }

  lemma {:induction false} DaysRefused(days: seq<string>, day: string)
    ensures ShiftDays(days) == Err(DayOfWeek(day)) <==> IsFirstTooBig(days, day)
    ensures ShiftDays(days).Ok? <==> !exists i :: 0 <= i < |days| && IsTooBig(days[i])
  {
    if days != [] {
      DaysRefused(days[1..], day);
      FirstOrLater(days[0], days[1..], day);
      assert days == [days[0]] + days[1..];
    }
  }

  lemma {:induction false} TermsRefused(terms: seq<string>, day: string)
    ensures ShiftTerms(terms) == Err(DayOfWeek(day)) <==> IsFirstTooBig(DaysOf(terms), day)
  {
    if terms != [] {
      var days := Split(Parts(terms[0]).0, '-');
      TermsRefused(terms[1..], day);
      DaysRefused(days, day);
      FirstInEither(days, DaysOf(terms[1..]), day);
    }
  }

  /** A field is refused exactly when some day of some term is a number above 7, and the error names the first one. */
  lemma RefusedExactly(field: string, day: string)
    ensures ShiftDaysOfWeek(field) == Err(DayOfWeek(day)) <==> IsFirstTooBig(DaysOf(Split(field, ',')), day)
  {
    TermsRefused(Split(field, ','), day);
  }

  // ----- whole fields -----

  lemma {:induction false} TermsKeepMeaning(names: Names, terms: seq<string>)
    requires NamesDays(names) && TermsDenote(Crontab(names), terms).Some?
    requires forall i :: 0 <= i < |terms| ==> SurvivesShift(names, terms[i])
    ensures ShiftTerms(terms).Ok? && TermsDenote(Quartz(names), ShiftTerms(terms).value) == TermsDenote(Crontab(names), terms)
  {
    if terms != [] {
      TermsKeepMeaning(names, terms[1..]);
      TermKeepsMeaning(names, terms[0]);
      var shifted := ShiftTerms(terms).value;
      assert shifted[1..] == ShiftTerms(terms[1..]).value;
    }
  }

  /** The Quartz field names the same weekdays as the crontab field, when every range of it survives. */
  lemma FieldKeepsMeaning(names: Names, field: string)
    requires NamesDays(names) && CrontabDays(names, field).Some?
    requires forall i :: 0 <= i < |Split(field, ',')| ==> SurvivesShift(names, Split(field, ',')[i])
    ensures ShiftDaysOfWeek(field).Ok?
    ensures QuartzDays(names, ShiftDaysOfWeek(field).value) == CrontabDays(names, field)
  {
    var terms := Split(field, ',');
    TermsKeepMeaning(names, terms);
    var shifted := ShiftTerms(terms).value;
    forall i | 0 <= i < |shifted| ensures ',' !in shifted[i] {
      ShiftedTermIsPlain(terms[i]);
    }
    JoinedSplits(shifted, ',');
  }

  lemma RangeTerm(range: string, low: string, high: string)
    requires range == low + "-" + high && IsNumber(low) && IsNumber(high)
    ensures Split(range, ',') == [range] && Parts(range) == (range, None) && Split(range, '-') == [low, high]
  {
    SplitPrefixed(range, [], ',');
    assert range + [] == range;
    JoinedSplits([low, high], '-');
    assert Join([low, high], '-') == low + ['-'] + high;
  }

  lemma OneTerm(value: string -> Option<nat>, term: string)
    ensures TermsDenote(value, [term]) == TermDenotes(value, term)
  {
    assert [term][1..] == [];
    if TermDenotes(value, term).Some? {
      assert TermDenotes(value, term).value + {} == TermDenotes(value, term).value;
    }
  }

  lemma WholeWeek()
    ensures Every(0, 7, 1) == {0, 1, 2, 3, 4, 5, 6}
  {
    forall d | d in {0, 1, 2, 3, 4, 5, 6} ensures d in Every(0, 7, 1) {
      InEvery(0, 7, 1, d);
    }
  }

  lemma ShiftsRange(range: string, low: string, high: string, from: string, to: string)
    requires range == low + "-" + high && IsNumber(low) && IsNumber(high)
    requires ShiftDay(low) == Ok(from) && ShiftDay(high) == Ok(to)
    ensures ShiftTerm(range) == Ok(from + ['-'] + to)
  {
    RangeTerm(range, low, high);
    assert [low, high][1..] == [high] && [high][1..] == [];
    assert ShiftDays([]) == Ok([]);
    assert ShiftDays([high]) == Ok([to] + []);
    assert [to] + [] == [to] && [from] + [to] == [from, to];
    assert ShiftDays([low, high]) == Ok([from, to]);
    assert [from, to][1..] == [to] && Join([to], '-') == to;
    assert Join([from, to], '-') == from + ['-'] + to;
  }

  lemma ShiftsField(term: string, shifted: string)
    requires Split(term, ',') == [term] && ShiftTerm(term) == Ok(shifted)
    ensures ShiftDaysOfWeek(term) == Ok(shifted)
  {
    assert [term][1..] == [];
    assert ShiftTerms([term]) == Ok([shifted] + []);
  }

  /** The week written from Sunday to Sunday comes out as Sunday alone. */
  lemma WholeWeekBecomesSunday(names: Names)
    ensures ShiftDaysOfWeek("0-7") == Ok("1-1")
    ensures CrontabDays(names, "0-7") == Some({0, 1, 2, 3, 4, 5, 6})
    ensures QuartzDays(names, "1-1") == Some({0})
  {
    assert "0" == [Digit(0)] && "7" == [Digit(7)] && "1" == [Digit(1)];
    OneDigit(0);
    OneDigit(1);
    OneDigit(7);
    RangeTerm("0-7", "0", "7");
    RangeTerm("1-1", "1", "1");
    ShiftsRange("0-7", "0", "7", "1", "1");
    ShiftsField("0-7", "1-1");
    OneTerm(Crontab(names), "0-7");
    OneTerm(Quartz(names), "1-1");
    WholeWeek();
    Sundays(1);
  }
}
