/** The scheduler (`scheduler.py`): matching a five-field cron expression
    against the current time, describing it in words, and the polling loop
    that starts the application at most once per matching minute.

    The clock is an `Instant` given by the caller (the fields of
    `datetime.now()` and a count of seconds for time differences); the
    application subprocess is an `Execution` outcome; signals and sleeps are
    not modelled, so the loop is a finite sequence of ticks. */
module Scheduler {
  import opened Basics
  import opened Text

  /** The fields of `datetime.now()` the scheduler reads; `weekday` is
      `datetime.weekday()`, Monday being 0 and Sunday 6. */
  datatype Instant = Instant(seconds: int, minute: int, hour: int, day: int, month: int, weekday: int)

  // ---------------------------------------------------------------------------
  // int(field)
  // ---------------------------------------------------------------------------

  predicate IsDigit(c: char) {
    '0' as int <= c as int <= '9' as int
  }

  /** A token of one or more ASCII digits. */
  predicate IsNumeral(s: string) {
    s != [] && forall i :: 0 <= i < |s| ==> IsDigit(s[i])
  }

  /** The value of a run of decimal digits. */
  function DigitsValue(s: string): (n: nat)
    requires forall i :: 0 <= i < |s| ==> IsDigit(s[i])
    decreases |s|
  {
    if s == [] then 0
    else
      var d := s[|s| - 1] as int - '0' as int;
      assert IsDigit(s[|s| - 1]) && 0 <= d;
      10 * DigitsValue(s[..|s| - 1]) + d
  }

  /** `int(s)` for a token without whitespace: an optional sign and one or
      more ASCII digits; anything else raises `ValueError` (`None`). */
  function ParseInt(s: string): (r: Option<int>)
    ensures r.Some? ==> s != [] && s != "+" && s != "-"
    ensures IsNumeral(s) ==> r == Some(DigitsValue(s))
    ensures s == "*" ==> r.None?
  {
    if s == [] then None
    else
      var sign := if s[0] == '-' then -1 else 1;
      var digits := if s[0] == '-' || s[0] == '+' then s[1..] else s;
      if digits != [] && forall i :: 0 <= i < |digits| ==> IsDigit(digits[i]) then
        Some(sign * DigitsValue(digits))
      else None
  }

  /** A number without leading zeros, as `str(n)` writes it. */
  function ShowNat(n: nat): (s: string)
    ensures IsNumeral(s)
    ensures DigitsValue(s) == n
  {
    if n < 10 then [('0' as int + n) as char]
    else
      var init := ShowNat(n / 10);
      var s := init + [('0' as int + n % 10) as char];
      assert s[..|s| - 1] == init;
      s
  }

  /** `int()` reads back what `str()` wrote. */
  lemma ParseShowNat(n: nat)
    ensures ParseInt(ShowNat(n)) == Some(n)
  {
  }

  // ---------------------------------------------------------------------------
  // _should_execute_now
  // ---------------------------------------------------------------------------

  /** `field == '*' or int(field) == value`, with `None` for a `ValueError`. */
  function FieldMatches(field: string, value: int): (r: Option<bool>)
    ensures field == "*" ==> r == Some(true)
    ensures field != "*" ==> r == (match ParseInt(field) case Some(n) => Some(n == value) case None => None)
  {
    if field == "*" then Some(true)
    else match ParseInt(field)
      case Some(n) => Some(n == value)
      case None => None
  }

  /** The weekday check: cron 1..7 is Monday..Sunday (`weekday() + 1`), and
      the literal field `'0'` also means Sunday. */
  function WeekdayMatches(field: string, weekday: int): (r: Option<bool>)
  {
    if field == "*" then Some(true)
    else match ParseInt(field)
      case Some(n) => Some(n == weekday + 1 || (field == "0" && weekday == 6))
      case None => None
  }

  /** `a and b` over two checks that may each have raised: the list of
      checks is built in full before `all` looks at it, so one `ValueError`
      anywhere raises. */
  function Both(a: Option<bool>, b: Option<bool>): (r: Option<bool>)
    ensures r.None? <==> a.None? || b.None?
    ensures r.Some? ==> (r.value <==> a.value && b.value)
  {
    if a.None? || b.None? then None else Some(a.value && b.value)
  }

  /** The five checks of `_should_execute_now` on the five fields. */
  function CheckFields(minute: string, hour: string, day: string, month: string, weekday: string, now: Instant): Option<bool> {
    Both(FieldMatches(minute, now.minute),
      Both(FieldMatches(hour, now.hour),
        Both(FieldMatches(day, now.day),
          Both(FieldMatches(month, now.month),
            WeekdayMatches(weekday, now.weekday)))))
  }

  /** A cron expression whose five whitespace-separated fields are given. */
  function CronOf(minute: string, hour: string, day: string, month: string, weekday: string): string {
    Join([minute, hour, day, month, weekday], " ")
  }

  /** `ApplicationScheduler._should_execute_now`: `None` when the expression
      does not have five fields or a field other than `*` is not an integer
      (the exception the loop catches). */
  function ShouldExecuteNow(cron: string, now: Instant): (r: Option<bool>)
    ensures |Words(cron)| != 5 ==> r.None?
  {
    var parts := Words(cron);
    if |parts| != 5 then None
    else CheckFields(parts[0], parts[1], parts[2], parts[3], parts[4], now)
  }

  /** Splitting a cron expression built from five tokens gives them back. */
  lemma CronFields(minute: string, hour: string, day: string, month: string, weekday: string, now: Instant)
    requires AreWords([minute, hour, day, month, weekday])
    ensures Words(CronOf(minute, hour, day, month, weekday)) == [minute, hour, day, month, weekday]
    ensures ShouldExecuteNow(CronOf(minute, hour, day, month, weekday), now) ==
            CheckFields(minute, hour, day, month, weekday, now)
  {
    WordsOfJoin([minute, hour, day, month, weekday]);
  }

  /** A numeral is a token `split()` keeps whole. */
  lemma NumeralIsWord(s: string)
    requires IsNumeral(s)
    ensures s != [] && NoSpace(s)
  {
  }

  /** A field written as a numeral matches exactly the number it denotes. */
  lemma FieldOfNumeral(s: string, value: int)
    requires IsNumeral(s)
    ensures FieldMatches(s, value) == Some(DigitsValue(s) == value)
  {
    assert s != "*" by {
      assert IsDigit(s[0]);
    }
  }

  /** A weekday written as a numeral matches the day counted from Monday as
      1; the single digit `0`, but no other spelling of zero, also matches
      Sunday. */
  lemma WeekdayOfNumeral(s: string, weekday: int)
    requires IsNumeral(s)
    ensures WeekdayMatches(s, weekday) == Some(DigitsValue(s) == weekday + 1 || (s == "0" && weekday == 6))
  {
    assert s != "*" by {
      assert IsDigit(s[0]);
    }
  }

  /** For five numeric fields the schedule matches exactly when every field
      denotes the corresponding component of the time, the weekday counted
      from Monday as 1, or `0` on a Sunday. */
  lemma ShouldExecuteNowIff(minute: string, hour: string, day: string, month: string, weekday: string, now: Instant)
    requires IsNumeral(minute) && IsNumeral(hour) && IsNumeral(day) && IsNumeral(month) && IsNumeral(weekday)
    ensures ShouldExecuteNow(CronOf(minute, hour, day, month, weekday), now) ==
            Some(DigitsValue(minute) == now.minute && DigitsValue(hour) == now.hour &&
                 DigitsValue(day) == now.day && DigitsValue(month) == now.month &&
                 (DigitsValue(weekday) == now.weekday + 1 || (weekday == "0" && now.weekday == 6)))
  {
    NumeralIsWord(minute);
    NumeralIsWord(hour);
    NumeralIsWord(day);
    NumeralIsWord(month);
    NumeralIsWord(weekday);
    CronFields(minute, hour, day, month, weekday, now);
    FieldOfNumeral(minute, now.minute);
    FieldOfNumeral(hour, now.hour);
    FieldOfNumeral(day, now.day);
    FieldOfNumeral(month, now.month);
    WeekdayOfNumeral(weekday, now.weekday);
  }

  /** A field that is neither `*` nor an integer `int()` accepts. */
  predicate Raises(field: string) {
    field != "*" && ParseInt(field).None?
  }

  /** The check raises exactly when some field is neither `*` nor an
      integer, whatever the other fields say: the checks are all evaluated
      before `all` combines them. */
  lemma ShouldExecuteNowRaises(minute: string, hour: string, day: string, month: string, weekday: string, now: Instant)
    requires AreWords([minute, hour, day, month, weekday])
    ensures ShouldExecuteNow(CronOf(minute, hour, day, month, weekday), now).None? <==>
            Raises(minute) || Raises(hour) || Raises(day) || Raises(month) || Raises(weekday)
  {
    CronFields(minute, hour, day, month, weekday, now);
  }

  /** `* * * * *` matches at any time. */
  lemma EveryMinuteMatches(star: string, now: Instant)
    requires star == "*"
    ensures ShouldExecuteNow(CronOf(star, star, star, star, star), now) == Some(true)
  {
    CronFields(star, star, star, star, star, now);
  }

  // ---------------------------------------------------------------------------
  // _describe_schedule
  // ---------------------------------------------------------------------------

  /** `s.zfill(width)`: zeros inserted after a leading sign, or at the front,
      up to `width` characters. */
  function ZFill(s: string, width: nat): (r: string)
    ensures |r| == if |s| >= width then |s| else width
    ensures |s| >= width ==> r == s
  {
    if |s| >= width then s
    else if s != [] && (s[0] == '+' || s[0] == '-') then [s[0]] + Repeat('0', width - |s|) + s[1..]
    else Repeat('0', width - |s|) + s
  }

  /** Leading zeros do not change the value of a run of digits. */
  lemma {:induction false} LeadingZeros(k: nat, s: string)
    requires forall i :: 0 <= i < |s| ==> IsDigit(s[i])
    ensures forall i :: 0 <= i < |Repeat('0', k) + s| ==> IsDigit((Repeat('0', k) + s)[i])
    ensures DigitsValue(Repeat('0', k) + s) == DigitsValue(s)
    decreases k + |s|
  {
    var z := Repeat('0', k);
    var t := z + s;
    assert forall i :: 0 <= i < |t| ==> IsDigit(t[i]) by {
      forall i | 0 <= i < |t| ensures IsDigit(t[i]) {
        if i >= k {
          assert t[i] == s[i - k];
        }
      }
    }
    if s == [] {
      if k > 0 {
        assert t[..|t| - 1] == Repeat('0', k - 1) + [];
        LeadingZeros(k - 1, []);
      } else {
        assert t == [];
      }
    } else {
      var init := s[..|s| - 1];
      assert t[..|t| - 1] == z + init;
      assert t[|t| - 1] == s[|s| - 1];
      LeadingZeros(k, init);
    }
  }

  /** Zero-padding a numeral keeps it a numeral of the same value. */
  lemma ZFillKeepsValue(s: string, width: nat)
    requires IsNumeral(s)
    ensures IsNumeral(ZFill(s, width))
    ensures DigitsValue(ZFill(s, width)) == DigitsValue(s)
    ensures ParseInt(ZFill(s, width)) == ParseInt(s)
  {
    if |s| < width {
      assert s[0] != '+' && s[0] != '-' by {
        assert IsDigit(s[0]);
      }
      LeadingZeros(width - |s|, s);
    }
  }

  /** The `weekdays_map` lookup with its `dia N` fallback. */
  function WeekdayName(w: string): (r: string)
    ensures r == "Domingo" <==> w == "0" || w == "7"
    ensures r != []
  {
    if w == "0" || w == "7" then "Domingo"
    else if w == "1" then "Segunda-feira"
    else if w == "2" then "Terca-feira"
    else if w == "3" then "Quarta-feira"
    else if w == "4" then "Quinta-feira"
    else if w == "5" then "Sexta-feira"
    else if w == "6" then "Sabado"
    else
      var r := "dia " + w;
      assert r[0] == 'd';
      r
  }

  /** The text `_describe_schedule` builds from the minute, hour and weekday
      fields; the day-of-month and month fields never appear in it. */
  function DescribeFields(minute: string, hour: string, weekday: string): (r: string)
    ensures r == "Execucao continua" <==> weekday == "*" && hour == "*"
    ensures r != [] && r[0] != 'F'
    ensures weekday != "*" ==> StartsWith(r, "toda " + WeekdayName(weekday))
  {
    var dayPart := if weekday != "*" then ["toda " + WeekdayName(weekday)] else [];
    var timePart :=
      if hour != "*" && minute != "*" then ["as " + ZFill(hour, 2) + ":" + ZFill(minute, 2)]
      else if hour != "*" then ["toda hora " + hour]
      else [];
    var parts := dayPart + timePart;
    if parts == [] then "Execucao continua"
    else
      var r := Join(parts, " ");
      assert r[0] == parts[0][0] && (parts[0][0] == 't' || parts[0][0] == 'a');
      assert StartsWith(r, parts[0]);
      r
  }

  /** What the description says before its time part: the weekday and one
      space, or nothing when the weekday is `*`. */
  function DayPrefix(weekday: string): (r: string)
    ensures weekday == "*" <==> r == []
  {
    if weekday != "*" then "toda " + WeekdayName(weekday) + " " else ""
  }

  /** `' '.join` of the description's one or two parts. */
  lemma JoinParts(day: string, time: string)
    ensures Join([day, time], " ") == day + " " + time
    ensures Join([time], " ") == time
  {
    JoinStep([day, time]);
    assert [day, time][1..] == [time];
  }

  /** With hour and minute set, the description ends `as HH:MM`, both
      fields zero-padded to two places. */
  lemma DescribeHourAndMinute(minute: string, hour: string, weekday: string)
    requires hour != "*" && minute != "*"
    ensures DescribeFields(minute, hour, weekday) == DayPrefix(weekday) + "as " + ZFill(hour, 2) + ":" + ZFill(minute, 2)
  {
    var time := "as " + ZFill(hour, 2) + ":" + ZFill(minute, 2);
    if weekday != "*" {
      var day := "toda " + WeekdayName(weekday);
      JoinParts(day, time);
      assert [day] + [time] == [day, time];
      assert day + " " + time == DayPrefix(weekday) + time;
    } else {
      JoinParts([], time);
      assert [] + [time] == [time];
    }
  }

  /** With only the hour set, the description ends `toda hora H`, the hour
      as written. */
  lemma DescribeHourOnly(minute: string, hour: string, weekday: string)
    requires hour != "*" && minute == "*"
    ensures DescribeFields(minute, hour, weekday) == DayPrefix(weekday) + "toda hora " + hour
  {
    var time := "toda hora " + hour;
    if weekday != "*" {
      var day := "toda " + WeekdayName(weekday);
      JoinParts(day, time);
      assert [day] + [time] == [day, time];
      assert day + " " + time == DayPrefix(weekday) + time;
    } else {
      JoinParts([], time);
      assert [] + [time] == [time];
    }
  }

  /** Without an hour, a set weekday is the whole description. */
  lemma DescribeWeekdayOnly(minute: string, hour: string, weekday: string)
    requires hour == "*" && weekday != "*"
    ensures DescribeFields(minute, hour, weekday) == "toda " + WeekdayName(weekday)
  {
    var day := "toda " + WeekdayName(weekday);
    JoinParts(day, []);
    assert [day] + [] == [day];
  }

  /** `ApplicationScheduler._describe_schedule`. */
  function DescribeSchedule(cron: string): (r: string)
    ensures r == "Formato de cron invalido" <==> |Words(cron)| != 5
  {
    var parts := Words(cron);
    if |parts| != 5 then "Formato de cron invalido"
    else DescribeFields(parts[0], parts[1], parts[4])
  }

  /** The description of a cron expression built from five tokens. */
  lemma DescribeOfCron(minute: string, hour: string, day: string, month: string, weekday: string)
    requires AreWords([minute, hour, day, month, weekday])
    ensures DescribeSchedule(CronOf(minute, hour, day, month, weekday)) == DescribeFields(minute, hour, weekday)
  {
    WordsOfJoin([minute, hour, day, month, weekday]);
  }

  // ---------------------------------------------------------------------------
  // Configuration from the environment
  // ---------------------------------------------------------------------------

  /** The `SCHEDULE_CRON` default: Mondays at 08:00. */
  const DefaultCron: string := "0 8 * * 1"

  /** `os.getenv('SCHEDULE_ENABLED', 'true').lower() == 'true'`. */
  function ScheduleEnabled(env: Option<string>): (r: bool)
    ensures env.None? ==> r
    ensures env.Some? ==> (r <==> |env.value| == 4 && Lower(env.value) == "true")
  {
    Lower(env.GetOr("true")) == "true"
  }

  /** Upper-case spellings enable scheduling as the lower-case one does. */
  lemma ScheduleEnabledIgnoresCase(s: string)
    ensures ScheduleEnabled(Some(s)) == ScheduleEnabled(Some(Lower(s)))
  {
    assert Lower(Lower(s)) == Lower(s);
  }

  /** `os.getenv('SCHEDULE_CRON', '0 8 * * 1')`. */
  function ScheduleCron(env: Option<string>): (r: string)
    ensures env.None? ==> r == DefaultCron
  {
    env.GetOr(DefaultCron)
  }

  /** The fields of the default schedule read "toda Segunda-feira as
      08:00". */
  lemma DescribeDefaultFields(minute: string, hour: string, weekday: string)
    requires minute == "0" && hour == "8" && weekday == "1"
    ensures DescribeFields(minute, hour, weekday) == "toda Segunda-feira as 08:00"
  {
    DescribeHourAndMinute(minute, hour, weekday);
    assert ZFill(hour, 2) == "08" && ZFill(minute, 2) == "00";
    assert WeekdayName(weekday) == "Segunda-feira";
  }

  /** The default schedule is the five fields `0`, `8`, `*`, `*`, `1`. */
  lemma DefaultCronFields(cron: string, minute: string, hour: string, star: string, weekday: string)
    requires cron == DefaultCron
    requires minute == "0" && hour == "8" && star == "*" && weekday == "1"
    ensures cron == CronOf(minute, hour, star, star, weekday)
  {
    var ws := [minute, hour, star, star, weekday];
    JoinStep(ws);
    JoinStep(ws[1..]);
    JoinStep(ws[2..]);
    JoinStep(ws[3..]);
    assert ws[4..] == [weekday];
  }

  /** The default schedule is described as "toda Segunda-feira as 08:00". */
  lemma DescribeDefaultCron(cron: string, minute: string, hour: string, star: string, weekday: string)
    requires cron == DefaultCron
    requires minute == "0" && hour == "8" && star == "*" && weekday == "1"
    ensures DescribeSchedule(cron) == "toda Segunda-feira as 08:00"
  {
    DefaultCronFields(cron, minute, hour, star, weekday);
    assert AreWords([minute, hour, star, star, weekday]);
    DescribeOfCron(minute, hour, star, star, weekday);
    DescribeDefaultFields(minute, hour, weekday);
  }

  /** Without an hour the minute field is not described at all: `30 * * * *`
      reads like `* * * * *`. */
  lemma DescribeIgnoresLoneMinute(minute: string, other: string, hour: string, weekday: string)
    requires hour == "*"
    ensures DescribeFields(minute, hour, weekday) == DescribeFields(other, hour, weekday)
  {
  }

  // ---------------------------------------------------------------------------
  // _execute_application and the polling loop of run
  // ---------------------------------------------------------------------------

  /** How the application subprocess ended: it exited with a status after
      `duration` seconds, it exceeded the one-hour timeout, or starting it
      raised. */
  datatype Execution = Completed(code: int, duration: nat) | TimedOut | Failed

  /** The result of `_execute_application` and the new `last_execution`
      (seconds), which only a completed subprocess sets, to the time it
      finished. */
  datatype Executed = Executed(success: bool, lastExecution: Option<int>)

  /** `ApplicationScheduler._execute_application`, started at `now`. */
  function Execute(now: Instant, exec: Execution, last: Option<int>): (r: Executed)
    ensures r.success ==> exec.Completed? && exec.code == 0
    ensures r.lastExecution != last ==> exec.Completed?
    ensures exec.Completed? ==> r.lastExecution.Some? && r.lastExecution.value >= now.seconds
    ensures exec.Completed? ==> (r.success <==> exec.code == 0) &&
                                r.lastExecution == Some(now.seconds + exec.duration)
    ensures !exec.Completed? ==> !r.success && r.lastExecution == last
  {
    match exec
    case Completed(code, duration) => Executed(code == 0, Some(now.seconds + duration))
    case TimedOut => Executed(false, last)
    case Failed => Executed(false, last)
  }

  /** The loop's local `last_check_minute` and the scheduler's
      `last_execution`. */
  datatype LoopState = LoopState(lastCheckMinute: int, lastExecution: Option<int>)

  /** The state when `run` enters its loop. */
  const Initial: LoopState := LoopState(-1, None)

  /** One poll: the time read and what the subprocess would do if started. */
  datatype Moment = Moment(now: Instant, exec: Execution)

  /** The state after one poll and whether it started the application. */
  datatype Ticked = Ticked(state: LoopState, started: bool, success: bool)

  /** Whether `last_execution` allows a new start: none yet, or more than 60
      seconds ago. */
  predicate Rested(last: Option<int>, now: Instant) {
    last.None? || now.seconds - last.value > 60
  }

  /** One iteration of the loop of `ApplicationScheduler.run`. An exception
      from the schedule check is caught after `last_check_minute` has been
      updated. */
  function Tick(cron: string, st: LoopState, m: Moment): (r: Ticked)
    ensures r.state.lastCheckMinute == m.now.minute
    ensures m.now.minute == st.lastCheckMinute ==> r == Ticked(st, false, false)
    ensures r.started ==> m.now.minute != st.lastCheckMinute && ShouldExecuteNow(cron, m.now) == Some(true) &&
                          Rested(st.lastExecution, m.now)
    ensures !r.started ==> r.state.lastExecution == st.lastExecution && !r.success
    ensures r.started ==> r.state.lastExecution == Execute(m.now, m.exec, st.lastExecution).lastExecution &&
                          r.success == Execute(m.now, m.exec, st.lastExecution).success
  {
    if m.now.minute == st.lastCheckMinute then Ticked(st, false, false)
    else
      var checked := st.(lastCheckMinute := m.now.minute);
      if ShouldExecuteNow(cron, m.now) == Some(true) && Rested(st.lastExecution, m.now) then
        var e := Execute(m.now, m.exec, st.lastExecution);
        Ticked(checked.(lastExecution := e.lastExecution), true, e.success)
      else Ticked(checked, false, false)
  }

  /** A poll in a new minute whose schedule matches and whose last run is more
      than a minute old starts the application. */
  lemma TickStarts(cron: string, st: LoopState, m: Moment)
    requires m.now.minute != st.lastCheckMinute && ShouldExecuteNow(cron, m.now) == Some(true)
    requires Rested(st.lastExecution, m.now)
    ensures Tick(cron, st, m).started
  {
  }

  /** After a completed run, the application is not started again until more
      than 60 seconds after that run finished. */
  lemma NoRestartWithinAMinute(cron: string, st: LoopState, first: Moment, second: Moment)
    requires Tick(cron, st, first).started && first.exec.Completed?
    ensures Tick(cron, Tick(cron, st, first).state, second).started ==>
              second.now.seconds > first.now.seconds + first.exec.duration + 60
  {
  }

  /** The outcome of a sequence of polls: the final state and the times
      (seconds) at which the application was started. */
  datatype Looped = Looped(state: LoopState, starts: seq<int>)

  /** The polling loop over the given polls. */
  function RunLoop(cron: string, st: LoopState, ms: seq<Moment>): (r: Looped)
    ensures |r.starts| <= |ms|
    decreases |ms|
  {
    if ms == [] then Looped(st, [])
    else
      var t := Tick(cron, st, ms[0]);
      var rest := RunLoop(cron, t.state, ms[1..]);
      Looped(rest.state, (if t.started then [ms[0].now.seconds] else []) + rest.starts)
  }

  /** How many polls read a minute different from the poll before, the first
      being compared with `prev`. */
  function MinuteChanges(prev: int, ms: seq<Moment>): nat
    decreases |ms|
  {
    if ms == [] then 0
    else (if ms[0].now.minute != prev then 1 else 0) + MinuteChanges(ms[0].now.minute, ms[1..])
  }

  /** The schedule is evaluated, and the application started, at most once
      per change of the minute read. */
  lemma {:induction false} StartsAtMostOncePerMinute(cron: string, st: LoopState, ms: seq<Moment>)
    ensures |RunLoop(cron, st, ms).starts| <= MinuteChanges(st.lastCheckMinute, ms)
    decreases |ms|
  {
    if ms != [] {
      var t := Tick(cron, st, ms[0]);
      StartsAtMostOncePerMinute(cron, t.state, ms[1..]);
    }
  }

  /** `ApplicationScheduler.run`: with scheduling disabled the application
      runs once and `run` returns; otherwise the loop polls. The
      result is the number of times the application was started. */
  function RunScheduler(enabled: bool, cron: string, ms: seq<Moment>): (executions: nat)
    ensures !enabled ==> executions == 1
    ensures enabled ==> executions <= MinuteChanges(Initial.lastCheckMinute, ms)
  {
    if !enabled then 1
    else
      StartsAtMostOncePerMinute(cron, Initial, ms);
      |RunLoop(cron, Initial, ms).starts|
  }
}
