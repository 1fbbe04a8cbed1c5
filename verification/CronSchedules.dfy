/** Cron expressions that keep their crontab meaning: either day matches, and no fire within a minute. */
module CronSchedules {
  import opened Outcomes
  import opened Splitting
  import opened Templates
  import opened WeekDays

  const SECONDS: nat := 0
  const DAY_OF_MONTH: nat := 3
  const DAY_OF_WEEK: nat := 5

  datatype ScheduleError = Empty | FieldCount(count: nat) | Expression | SubMinute | Day(error: DayError)

  // ----- the library underneath -----

  /** A time in seconds since the start of 1970. */
  type Time = int

  /**
   * What the library knows: the values a field's text stands for at a position, the calendar fields of a local
   * time, and the next time after a given one at which every field matches.
   */
  datatype Library = Library(
    values: (nat, string) -> Option<iset<int>>,
    macros: string -> Option<seq<string>>,
    calendar: (nat, Time) -> int,
    next: (seq<string>, int, Time) -> Option<Time>)

  /** Every field of the expression matches the local time. */
  ghost predicate Matches(library: Library, fields: seq<string>, offset: int, t: Time) {
    forall p :: 0 <= p < |fields| ==> MatchesField(library, fields, offset, t, p)
  }

  ghost predicate MatchesField(library: Library, fields: seq<string>, offset: int, t: Time, p: nat)
    requires p < |fields|
  {
    library.values(p, fields[p]).Some? && library.calendar(p, t + offset) in library.values(p, fields[p]).value
  }

  /** The parser accepts six or seven fields when it knows each of them. */
  predicate IsParsed(library: Library, fields: seq<string>) {
    6 <= |fields| <= 7 && forall p :: 0 <= p < |fields| ==> library.values(p, fields[p]).Some?
  }

  /** The first time after `t` at which every field matches, or nothing when there is none. */
  ghost predicate IsNextMatch(library: Library, fields: seq<string>, offset: int, t: Time, found: Option<Time>) {
    if found.Some? then
      found.value > t && Matches(library, fields, offset, found.value) && forall u :: t < u < found.value ==> !Matches(library, fields, offset, u)
    else
      forall u :: u > t ==> !Matches(library, fields, offset, u)
  }

  predicate IsDay(p: nat) {
    p == DAY_OF_MONTH || p == DAY_OF_WEEK
  }

  predicate Restricts(field: string) {
    field != "*" && field != "?"
  }

  /** A macro stands for fields with one plain second and at most one day field that restricts. */
  predicate IsMacro(library: Library, fields: seq<string>) {
    IsParsed(library, fields) && IsNumber(fields[SECONDS]) && !(Restricts(fields[DAY_OF_MONTH]) && Restricts(fields[DAY_OF_WEEK]))
  }

  /** The parser's contract: a star matches every day, digits match their number, and `next` is the first match. */
  ghost predicate IsFaithful(library: Library) {
    && (forall p :: IsDay(p) ==> library.values(p, "*").Some?)
    && (forall p, t :: IsDay(p) && library.values(p, "*").Some? ==> library.calendar(p, t) in library.values(p, "*").value)
    && (forall text, v :: IsNumber(text) && library.values(SECONDS, text).Some? && v in library.values(SECONDS, text).value ==> v == Value(text))
    && (forall t :: library.calendar(SECONDS, t) == t % 60)
    && (forall text :: library.macros(text).Some? ==> IsMacro(library, library.macros(text).value))
    && (forall fields, offset, t :: IsParsed(library, fields) ==> IsNextMatch(library, fields, offset, t, library.next(fields, offset, t)))
  }

  // ----- reading an expression -----

  /** What is kept of an expression: one list of fields, or two when both day fields restrict and either may match. */
  datatype CronSchedule = CronSchedule(offset: int, primary: seq<string>, alternate: Option<seq<string>>)

  predicate IsWord(word: string) {
    word != [] && forall i :: 0 <= i < |word| ==> !IsWhitespace(word[i])
  }

  /** The words between runs of white space. */
  function SplitWhitespace(text: string): (r: seq<string>)
    ensures forall i :: 0 <= i < |r| ==> IsWord(r[i])
  {
    if text == [] then []
    else
      var rest := SplitWhitespace(text[1..]);
      if IsWhitespace(text[0]) then rest
      else if |text| == 1 || IsWhitespace(text[1]) then [[text[0]]] + rest
      else if rest == [] then [[text[0]]]
      else [[text[0]] + rest[0]] + rest[1..]
  }

  lemma {:induction false} WordThenRest(word: string, rest: string)
    requires IsWord(word) && (rest == [] || IsWhitespace(rest[0]))
    ensures SplitWhitespace(word + rest) == [word] + SplitWhitespace(rest)
  {
    var all := word + rest;
    assert all[1..] == word[1..] + rest;
    if |word| == 1 {
      assert word == [word[0]] && all[1..] == rest;
    } else {
      WordThenRest(word[1..], rest);
      assert [word[0]] + word[1..] == word;
    }
  }

  lemma {:induction false} BlanksAreSkipped(blank: string, text: string)
    requires Blank(blank)
    ensures SplitWhitespace(blank + text) == SplitWhitespace(text)
  {
    if blank == [] {
      assert blank + text == text;
    } else {
      assert (blank + text)[1..] == blank[1..] + text;
      BlanksAreSkipped(blank[1..], text);
    }
  }

  /** Whatever blanks stand before and between, a text is cut into its words, and blanks alone are none. */
  lemma WordsAreCut(blank: string, word: string, rest: string)
    requires Blank(blank) && IsWord(word) && (rest == [] || IsWhitespace(rest[0]))
    ensures SplitWhitespace(blank + word + rest) == [word] + SplitWhitespace(rest) && SplitWhitespace(blank) == []
  {
    WordThenRest(word, rest);
    BlanksAreSkipped(blank, word + rest);
    assert blank + (word + rest) == blank + word + rest;
    BlanksAreSkipped(blank, []);
    assert blank + [] == blank;
  }

  /** Words joined by blanks, as the parser is handed them, split into the same words again. */
  lemma {:induction false} JoinedWordsSplit(words: seq<string>)
    requires forall i :: 0 <= i < |words| ==> IsWord(words[i])
    ensures SplitWhitespace(Join(words, ' ')) == words
  {
    if |words| == 1 {
      WordThenRest(words[0], []);
      assert words[0] + [] == words[0] && [words[0]] + [] == words;
    } else if |words| > 1 {
      var tail := Join(words[1..], ' ');
      JoinedWordsSplit(words[1..]);
      WordThenRest(words[0], [' '] + tail);
      assert ([' '] + tail)[1..] == tail;
      assert words[0] + [' '] + tail == words[0] + ([' '] + tail);
      assert words == [words[0]] + words[1..];
    }
  }

  /** Five words gain a leading zero for the second; six or seven stay as they are. */
  function WithSeconds(fields: seq<string>): (r: Result<seq<string>, ScheduleError>)
    ensures r.Ok? <==> 5 <= |fields| <= 7
    ensures r.Ok? ==> 6 <= |r.value| <= 7
    ensures r.Ok? ==> r.value == (if |fields| == 5 then ["0"] else []) + fields
    ensures r.Err? ==> r.error == FieldCount(|fields|)
  {
    assert [] + fields == fields;
    if |fields| == 5 then Ok(["0"] + fields)
    else if |fields| == 6 || |fields| == 7 then Ok(fields)
    else Err(FieldCount(|fields|))
  }

  /** The six or seven fields in Quartz form, or why the text is refused. */
  function Normalize(text: string): (r: Result<seq<string>, ScheduleError>)
    ensures r.Ok? ==> 6 <= |r.value| <= 7 && IsNumber(r.value[SECONDS])
    ensures r.Ok? <==> var written := WithSeconds(SplitWhitespace(text));
                       written.Ok? && IsNumber(written.value[SECONDS]) && ShiftDaysOfWeek(written.value[DAY_OF_WEEK]).Ok?
    ensures r.Ok? ==> var written := WithSeconds(SplitWhitespace(text)).value;
                      && |r.value| == |written| && ShiftDaysOfWeek(written[DAY_OF_WEEK]) == Ok(r.value[DAY_OF_WEEK])
                      && forall p :: 0 <= p < |written| && p != DAY_OF_WEEK ==> r.value[p] == written[p]
  {
    match WithSeconds(SplitWhitespace(text))
    case Err(error) => Err(error)
    case Ok(fields) =>
      if !IsNumber(fields[SECONDS]) then Err(SubMinute)
      else
        match ShiftDaysOfWeek(fields[DAY_OF_WEEK])
        case Err(error) => Err(Day(error))
        case Ok(days) => Ok(fields[DAY_OF_WEEK := days])
  }

  function New(library: Library, expression: string, offset: int): Result<CronSchedule, ScheduleError> {
    var text := Trim(expression);
    if text == [] then Err(Empty)
    else if text[0] == '@' then
      var fields := library.macros(text);
      if fields.None? then Err(Expression) else Ok(CronSchedule(offset, fields.value, None))
    else
      match Normalize(text)
      case Err(error) => Err(error)
      case Ok(fields) =>
        if Restricts(fields[DAY_OF_MONTH]) && Restricts(fields[DAY_OF_WEEK]) then
          var primary, alternate := fields[DAY_OF_WEEK := "*"], fields[DAY_OF_MONTH := "*"];
          if IsParsed(library, primary) && IsParsed(library, alternate) then Ok(CronSchedule(offset, primary, Some(alternate)))
          else Err(Expression)
        else if IsParsed(library, fields) then Ok(CronSchedule(offset, fields, None))
        else Err(Expression)
  }

  lemma {:induction false} NothingLeftOfBlanks(text: string)
    ensures Trim(text) == [] <==> Blank(text)
  {
    var left, right := TrimSplits(text);
    if Blank(text) {
      BlankTrims(text);
    }
  }

  lemma {:induction false} BlankTrims(text: string)
    requires Blank(text)
    ensures TrimStart(text) == []
  {
    if text != [] {
      BlankTrims(text[1..]);
    }
  }

  /** The parser knows the fields, or, when both day fields restrict, the fields with either of them starred. */
  predicate IsKnown(library: Library, fields: seq<string>)
    requires |fields| > DAY_OF_WEEK
  {
    if fields[3] != "*" && fields[3] != "?" && fields[5] != "*" && fields[5] != "?"
    then IsParsed(library, fields[5 := "*"]) && IsParsed(library, fields[3 := "*"])
    else IsParsed(library, fields)
  }

  /** Which expressions are accepted, and what is said against the others. */
  lemma AcceptedExactly(library: Library, expression: string, offset: int)
    ensures var text, r := Trim(expression), New(library, expression, offset);
            if Blank(expression) then r == Err(Empty)
            else if "@" <= text then r.Ok? <==> library.macros(text).Some?
            else if Normalize(text).Err? then r == Err(Normalize(text).error)
            else r.Ok? <==> IsKnown(library, Normalize(text).value)
    ensures New(library, expression, offset).Err? ==>
              var error := New(library, expression, offset).error;
              error == Empty || error == Expression || Normalize(Trim(expression)) == Err(error)
  {
    NothingLeftOfBlanks(expression);
  }

  /** The fields an accepted expression stands for: those of the macro, or those it writes in Quartz form. */
  function FieldsOf(library: Library, expression: string, offset: int): seq<string>
    requires New(library, expression, offset).Ok?
  {
    var text := Trim(expression);
    if text[0] == '@' then library.macros(text).value else Normalize(text).value
  }

  /** The earlier of the two schedules' next times. */
  function NextAfter(library: Library, schedule: CronSchedule, t: Time): Option<Time> {
    var primary := library.next(schedule.primary, schedule.offset, t);
    var alternate := if schedule.alternate.Some? then library.next(schedule.alternate.value, schedule.offset, t) else None;
    if primary.Some? && alternate.Some? then Some(if primary.value <= alternate.value then primary.value else alternate.value)
    else if primary.Some? then primary
    else alternate
  }

  // ----- what it means -----

  /** All fields but the day fields match; both day fields when at most one restricts, and either one when both do. */
  ghost predicate MatchesCrontab(library: Library, fields: seq<string>, offset: int, t: Time)
    requires |fields| > DAY_OF_WEEK
  {
    && (forall p :: 0 <= p < |fields| && p != 3 && p != 5 ==> MatchesField(library, fields, offset, t, p))
    && if fields[3] != "*" && fields[3] != "?" && fields[5] != "*" && fields[5] != "?"
       then MatchesField(library, fields, offset, t, 3) || MatchesField(library, fields, offset, t, 5)
       else MatchesField(library, fields, offset, t, 3) && MatchesField(library, fields, offset, t, 5)
  }

  /** With a day field replaced by a star the rest still has to match. */
  lemma StarFreesOneDay(library: Library, fields: seq<string>, offset: int, t: Time, day: nat, other: nat)
    requires IsFaithful(library) && |fields| > DAY_OF_WEEK
    requires (day == DAY_OF_MONTH && other == DAY_OF_WEEK) || (day == DAY_OF_WEEK && other == DAY_OF_MONTH)
    ensures Matches(library, fields[day := "*"], offset, t) <==>
            (forall p :: 0 <= p < |fields| && p != DAY_OF_MONTH && p != DAY_OF_WEEK ==> MatchesField(library, fields, offset, t, p))
            && MatchesField(library, fields, offset, t, other)
  {
    var starred := fields[day := "*"];
    assert IsDay(day) && starred[day] == "*";
    assert library.calendar(day, t + offset) in library.values(day, "*").value;
    assert MatchesField(library, starred, offset, t, day);
    forall p | 0 <= p < |fields| && p != day ensures MatchesField(library, starred, offset, t, p) <==> MatchesField(library, fields, offset, t, p) {
      assert starred[p] == fields[p];
    }
  }

  lemma MatchesEitherSchedule(library: Library, fields: seq<string>, offset: int, t: Time)
    requires IsFaithful(library) && |fields| > DAY_OF_WEEK
    requires Restricts(fields[DAY_OF_MONTH]) && Restricts(fields[DAY_OF_WEEK])
    ensures MatchesCrontab(library, fields, offset, t) <==>
            Matches(library, fields[DAY_OF_WEEK := "*"], offset, t) || Matches(library, fields[DAY_OF_MONTH := "*"], offset, t)
  {
    StarFreesOneDay(library, fields, offset, t, DAY_OF_WEEK, DAY_OF_MONTH);
    StarFreesOneDay(library, fields, offset, t, DAY_OF_MONTH, DAY_OF_WEEK);
  }

  lemma MatchesWhole(library: Library, fields: seq<string>, offset: int, t: Time)
    requires |fields| > DAY_OF_WEEK && !(Restricts(fields[DAY_OF_MONTH]) && Restricts(fields[DAY_OF_WEEK]))
    ensures MatchesCrontab(library, fields, offset, t) <==> Matches(library, fields, offset, t)
  {
  }

  /** The first time after `t` the crontab names, or nothing when there is none. */
  ghost predicate IsNextFire(library: Library, fields: seq<string>, offset: int, t: Time, found: Option<Time>)
    requires |fields| > DAY_OF_WEEK
  {
    if found.Some? then
      found.value > t && MatchesCrontab(library, fields, offset, found.value)
      && forall u :: t < u < found.value ==> !MatchesCrontab(library, fields, offset, u)
    else
      forall u :: u > t ==> !MatchesCrontab(library, fields, offset, u)
  }

  lemma EitherIsNext(library: Library, fields: seq<string>, primary: seq<string>, alternate: seq<string>, offset: int, t: Time)
    requires IsFaithful(library) && IsParsed(library, primary) && IsParsed(library, alternate) && |fields| > DAY_OF_WEEK
    requires forall u :: MatchesCrontab(library, fields, offset, u) <==>
               Matches(library, primary, offset, u) || Matches(library, alternate, offset, u)
    ensures IsNextFire(library, fields, offset, t, NextAfter(library, CronSchedule(offset, primary, Some(alternate)), t))
  {
    assert IsNextMatch(library, primary, offset, t, library.next(primary, offset, t));
    assert IsNextMatch(library, alternate, offset, t, library.next(alternate, offset, t));
  }

  lemma AcceptedFields(library: Library, expression: string, offset: int)
    requires IsFaithful(library) && New(library, expression, offset).Ok?
    ensures var fields, schedule := FieldsOf(library, expression, offset), New(library, expression, offset).value;
            && 6 <= |fields| <= 7 && IsNumber(fields[SECONDS]) && schedule.offset == offset
            && if schedule.alternate.None?
               then schedule.primary == fields && IsParsed(library, fields) && !(Restricts(fields[DAY_OF_MONTH]) && Restricts(fields[DAY_OF_WEEK]))
               else && schedule.primary == fields[DAY_OF_WEEK := "*"] && schedule.alternate.value == fields[DAY_OF_MONTH := "*"]
                    && IsParsed(library, schedule.primary) && IsParsed(library, schedule.alternate.value)
                    && Restricts(fields[DAY_OF_MONTH]) && Restricts(fields[DAY_OF_WEEK])
  {
    var text := Trim(expression);
    if text[0] == '@' {
      assert IsMacro(library, library.macros(text).value);
    }
  }

  /**
   * For every accepted expression, macros included, the next time is the first one after the given one that
   * matches all other fields and, when both day fields restrict, either day field.
   */
  lemma NextIsFirstMatch(library: Library, expression: string, offset: int, t: Time)
    requires IsFaithful(library) && New(library, expression, offset).Ok?
    ensures |FieldsOf(library, expression, offset)| > DAY_OF_WEEK
    ensures IsNextFire(library, FieldsOf(library, expression, offset), offset, t, NextAfter(library, New(library, expression, offset).value, t))
  {
    var fields, schedule := FieldsOf(library, expression, offset), New(library, expression, offset).value;
    AcceptedFields(library, expression, offset);
    if schedule.alternate.Some? {
      forall u ensures MatchesCrontab(library, fields, offset, u) <==>
                       Matches(library, schedule.primary, offset, u) || Matches(library, schedule.alternate.value, offset, u) {
        MatchesEitherSchedule(library, fields, offset, u);
      }
      EitherIsNext(library, fields, schedule.primary, schedule.alternate.value, offset, t);
    } else {
      assert IsNextMatch(library, fields, offset, t, library.next(fields, offset, t));
      forall u ensures MatchesCrontab(library, fields, offset, u) <==> Matches(library, fields, offset, u) {
        MatchesWhole(library, fields, offset, u);
      }
    }
  }

  lemma SecondIsFixed(library: Library, fields: seq<string>, offset: int, t: Time)
    requires IsFaithful(library) && |fields| > DAY_OF_WEEK && IsNumber(fields[SECONDS]) && MatchesCrontab(library, fields, offset, t)
    ensures (t + offset) % 60 == Value(fields[SECONDS])
  {
    assert MatchesField(library, fields, offset, t, SECONDS);
    assert library.calendar(SECONDS, t + offset) == (t + offset) % 60;
  }

  lemma SameSecondIsMinutesApart(one: Time, other: Time, offset: int)
    requires (one + offset) % 60 == (other + offset) % 60 && one < other
    ensures other - one >= 60
  {
  }

  /** The accepted expression matches at the time, as a crontab reads it. */
  ghost predicate MatchesExpression(library: Library, expression: string, offset: int, t: Time)
    requires New(library, expression, offset).Ok?
  {
    var fields := FieldsOf(library, expression, offset);
    |fields| > DAY_OF_WEEK && MatchesCrontab(library, fields, offset, t)
  }

  /** Two different times that one accepted expression matches are at least a minute apart. */
  lemma FiresAreMinutesApart(library: Library, expression: string, offset: int, one: Time, other: Time)
    requires IsFaithful(library) && New(library, expression, offset).Ok? && one < other
    requires MatchesExpression(library, expression, offset, one) && MatchesExpression(library, expression, offset, other)
    ensures other - one >= 60
  {
    var fields := FieldsOf(library, expression, offset);
    AcceptedFields(library, expression, offset);
    SecondIsFixed(library, fields, offset, one);
    SecondIsFixed(library, fields, offset, other);
    SameSecondIsMinutesApart(one, other, offset);
  }

  /** Consecutive fires of an accepted schedule are at least a minute apart. */
  lemma NextIsAMinuteLater(library: Library, expression: string, offset: int, t: Time)
    requires IsFaithful(library) && New(library, expression, offset).Ok?
    ensures var schedule := New(library, expression, offset).value;
            var first := NextAfter(library, schedule, t);
            first.Some? && NextAfter(library, schedule, first.value).Some? ==> NextAfter(library, schedule, first.value).value - first.value >= 60
  {
    var schedule := New(library, expression, offset).value;
    var first := NextAfter(library, schedule, t);
    NextIsFirstMatch(library, expression, offset, t);
    if first.Some? && NextAfter(library, schedule, first.value).Some? {
      NextIsFirstMatch(library, expression, offset, first.value);
      FiresAreMinutesApart(library, expression, offset, first.value, NextAfter(library, schedule, first.value).value);
    }
  }

  /** The parser reads the day-of-week field as the Quartz form does. */
  ghost predicate ReadsQuartz(library: Library, names: Names) {
    forall field :: QuartzDays(names, field).Some? ==>
      library.values(DAY_OF_WEEK, field).Some?
      && forall d :: d in library.values(DAY_OF_WEEK, field).value <==> d >= 0 && d in QuartzDays(names, field).value
  }

  /** The parser's Quartz reading of the rewritten field matches exactly the weekdays the crontab field names. */
  lemma WeekdaysAreCrontab(library: Library, names: Names, text: string, offset: int, t: Time)
    requires ReadsQuartz(library, names) && NamesDays(names) && Normalize(text).Ok?
    requires var written := WithSeconds(SplitWhitespace(text)).value[DAY_OF_WEEK];
             && CrontabDays(names, written).Some?
             && forall i :: 0 <= i < |Split(written, ',')| ==> SurvivesShift(names, Split(written, ',')[i])
    ensures var written := WithSeconds(SplitWhitespace(text)).value[DAY_OF_WEEK];
            var day := library.calendar(DAY_OF_WEEK, t + offset);
            MatchesField(library, Normalize(text).value, offset, t, DAY_OF_WEEK) <==> day >= 0 && day in CrontabDays(names, written).value
  {
    var written := WithSeconds(SplitWhitespace(text)).value[DAY_OF_WEEK];
    FieldKeepsMeaning(names, written);
    assert Normalize(text).value[DAY_OF_WEEK] == ShiftDaysOfWeek(written).value;
  }
}
