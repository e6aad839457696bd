/** Clock times in cron expressions (frontend/src/lib/cron-utils.ts). */
module Cron {
  import opened Base
  import opened Decimal

  // ---- JavaScript's string operations --------------------------------------------------------------

  predicate Solid(s: string) {
    s != "" && forall i :: 0 <= i < |s| ==> !IsJsSpace(s[i])
  }

  function LeadingSpaces(s: string): (n: nat)
    ensures n <= |s| && (n < |s| ==> !IsJsSpace(s[n]))
  {
    if s == "" || !IsJsSpace(s[0]) then 0 else 1 + LeadingSpaces(s[1..])
  }

  function LeadingSolid(s: string): (n: nat)
    ensures n <= |s| && (n < |s| ==> IsJsSpace(s[n])) && forall i :: 0 <= i < n ==> !IsJsSpace(s[i])
    ensures n == 0 ==> s == "" || IsJsSpace(s[0])
  {
    if s == "" || IsJsSpace(s[0]) then 0
    else
      var n := 1 + LeadingSolid(s[1..]);
      assert forall i :: 1 <= i < n ==> s[i] == s[1..][i - 1];
      n
  }

  /** The maximal runs without white space, in order. */
  function Runs(s: string): (r: seq<string>)
    ensures forall f :: f in r ==> Solid(f)
    decreases |s|
  {
    var t := s[LeadingSpaces(s)..];
    var n := LeadingSolid(t);
    if n == 0 then [] else [t[..n]] + Runs(t[n..])
  }

  /** `expression.trim().split(/\s+/)`: one empty part when there is nothing but white space. */
  function TrimmedParts(s: string): seq<string> {
    if Runs(s) == [] then [""] else Runs(s)
  }

  /** `s.split(c)`. */
  function SplitAt(s: string, c: char): (r: seq<string>)
    ensures r != []
    decreases |s|
  {
    if c !in s then [s]
    else
      var i := IndexOf(s, c);
      [s[..i]] + SplitAt(s[i + 1..], c)
  }

  function IndexOf(s: string, c: char): (i: nat)
    requires c in s
    ensures i < |s| && s[i] == c && c !in s[..i]
  {
    if s[0] == c then 0
    else
      var i := 1 + IndexOf(s[1..], c);
      assert s[..i] == [s[0]] + s[1..][..i - 1];
      i
  }

  /** `parseInt(s, 10)`; None is NaN. */
  function ParseInt(s: string): Option<int> {
    var t := s[LeadingSpaces(s)..];
    if t != "" && t[0] == '-' then Negated(Magnitude(t[1..]))
    else if t != "" && t[0] == '+' then Magnitude(t[1..])
    else Magnitude(t)
  }

  function Magnitude(s: string): Option<int> {
    var n := LeadingDigits(s);
    if n == 0 then None else Some(Value(s[..n]))
  }

  function Negated(v: Option<int>): Option<int> {
    if v.None? then None else Some(-v.value)
  }

  function Show(n: int): string {
    if n < 0 then "-" + Digits(-n) else Digits(n)
  }

  /** `String(n).padStart(2, '0')`. */
  function Padded(n: int): string {
    if |Show(n)| == 1 then "0" + Show(n) else Show(n)
  }

  // ---- the module's functions ------------------------------------------------------------------------

  datatype Fields = Fields(minute: string, hour: string, dom: string, month: string, dow: string)

  /** None is the thrown error. */
  function SplitCron(expression: string): Option<Fields> {
    var parts := TrimmedParts(expression);
    if |parts| != 5 then None else Some(Fields(parts[0], parts[1], parts[2], parts[3], parts[4]))
  }

  predicate MultiValued(field: string) {
    exists i :: 0 <= i < |field| && field[i] in {',', '-', '/', '*'}
  }

  predicate IsTimeOnlyCron(cron: string) {
    var f := SplitCron(cron);
    f.Some? && !MultiValued(f.value.minute) && !MultiValued(f.value.hour)
  }

  function Written(minute: int, hour: int, dom: string, month: string, dow: string): string {
    Show(minute) + (" " + (Show(hour) + (" " + (dom + (" " + (month + (" " + dow)))))))
  }

  /** The hour and minute a time string gives, when it gives both. */
  function ClockOf(time: string): Option<(int, int)> {
    var parts := SplitAt(time, ':');
    if |parts| < 2 || parts[0] == "" || parts[1] == "" then None
    else
      var hour, minute := ParseInt(parts[0]), ParseInt(parts[1]);
      if hour.None? || minute.None? then None else Some((hour.value, minute.value))
  }

  /** An original that is the empty string counts as given when the time is bad, and as absent when it is good. */
  function TimeToCron(time: string, original: Option<string>, defaultCron: string): string {
    var clock := ClockOf(time);
    if clock.None? then (if original.Some? then original.value else defaultCron)
    else
      var (hour, minute) := clock.value;
      if original.Some? && original.value != "" then
        if !IsTimeOnlyCron(original.value) then original.value
        else
          var f := SplitCron(original.value).value;
          Written(minute, hour, f.dom, f.month, f.dow)
      else Written(minute, hour, "*", "*", "*")
  }

  function CronToTime(cron: string): string {
    var f := SplitCron(cron);
    if f.None? then "09:00" else TimeOf(f.value)
  }

  function TimeOf(f: Fields): string {
    var minute, hour := ParseInt(f.minute), ParseInt(f.hour);
    if minute.None? || hour.None? then "09:00" else Padded(hour.value) + (":" + Padded(minute.value))
  }

  // ---- splitting what was written -------------------------------------------------------------------

  lemma RunsOf(field: string, rest: string)
    requires Solid(field) && (rest == "" || IsJsSpace(rest[0]))
    ensures Runs(field + rest) == [field] + Runs(rest)
  {
    var s := field + rest;
    assert s[0] == field[0] && LeadingSpaces(s) == 0 && s[0..] == s;
    assert forall i :: 0 <= i < |field| ==> s[i] == field[i];
    assert rest != "" ==> s[|field|] == rest[0];
    assert LeadingSolid(s) == |field|;
    assert s[..|field|] == field && s[|field|..] == rest;
  }

  lemma RunsAfterSpace(s: string)
    requires s != "" && !IsJsSpace(s[0])
    ensures Runs(" " + s) == Runs(s)
  {
    var t := " " + s;
    assert t[1..] == s;
    assert LeadingSpaces(s) == 0 && LeadingSpaces(t) == 1;
    assert s[0..] == s;
  }

  lemma RunsOfJoined(field: string, rest: string)
    requires Solid(field) && rest != "" && !IsJsSpace(rest[0])
    ensures Runs(field + (" " + rest)) == [field] + Runs(rest)
    ensures field + (" " + rest) != "" && !IsJsSpace((field + (" " + rest))[0])
  {
    assert (field + (" " + rest))[0] == field[0];
    RunsOf(field, " " + rest);
    RunsAfterSpace(rest);
  }

  lemma RunsOfOne(field: string)
    requires Solid(field)
    ensures Runs(field) == [field]
  {
    RunsOf(field, "");
    assert field + "" == field;
    NoRuns();
  }

  lemma NoRuns()
    ensures Runs("") == []
  {
    assert ""[0..] == "";
  }

  /** Fields joined by single spaces split into themselves. */
  lemma JoinedSplits(a: string, b: string, c: string, d: string, e: string)
    requires Solid(a) && Solid(b) && Solid(c) && Solid(d) && Solid(e)
    ensures SplitCron(a + (" " + (b + (" " + (c + (" " + (d + (" " + e)))))))) == Some(Fields(a, b, c, d, e))
  {
    ThreeJoined(c, d, e);
    TwoJoined(a, b, c + (" " + (d + (" " + e))));
  }

  lemma TwoJoined(a: string, b: string, rest: string)
    requires Solid(a) && Solid(b) && rest != "" && !IsJsSpace(rest[0])
    ensures Runs(a + (" " + (b + (" " + rest)))) == [a, b] + Runs(rest)
  {
    RunsOfJoined(b, rest);
    RunsOfJoined(a, b + (" " + rest));
  }

  lemma ThreeJoined(c: string, d: string, e: string)
    requires Solid(c) && Solid(d) && Solid(e)
    ensures var all := c + (" " + (d + (" " + e)));
      all != "" && !IsJsSpace(all[0]) && Runs(all) == [c, d, e]
  {
    var last := d + (" " + e);
    RunsOfOne(e);
    RunsOfJoined(d, e);
    RunsOfJoined(c, last);
  }

  lemma FieldsAreSolid(cron: string)
    requires SplitCron(cron).Some?
    ensures var f := SplitCron(cron).value;
      Solid(f.minute) && Solid(f.hour) && Solid(f.dom) && Solid(f.month) && Solid(f.dow)
  {
    var parts := Runs(cron);
    if parts != [] {
      assert parts[0] in parts && parts[1] in parts && parts[2] in parts && parts[3] in parts && parts[4] in parts;
    }
  }

  lemma DigitsSolid(s: string)
    requires s != "" && AllDigits(s)
    ensures Solid(s) && !MultiValued(s)
  {
  }

  lemma ParseDigits(s: string)
    requires s != "" && AllDigits(s)
    ensures ParseInt(s) == Some(Value(s))
  {
    assert s + "" == s;
    LeadingDigitsOf(s, "");
    assert LeadingSpaces(s) == 0 && s[0..] == s;
    assert s[..|s|] == s;
  }

  // ---- writing a time and reading it back --------------------------------------------------------------

  /** Two digits, a colon, two digits: what a time input produces. */
  predicate TwoDigitTime(time: string) {
    |time| == 5 && time[2] == ':' && AllDigits(time[..2]) && AllDigits(time[3..])
  }

  lemma PaddedTwoDigits(s: string)
    requires |s| == 2 && AllDigits(s)
    ensures Padded(Value(s)) == s
  {
    DigitsOfValue(s);
    assert s[..1] == [s[0]];
    if s[0] == '0' { assert Trimmed(s) == s[1..]; assert s == "0" + s[1..]; }
  }

  lemma ClockOfTwoDigits(time: string)
    requires TwoDigitTime(time)
    ensures ClockOf(time) == Some((Value(time[..2]), Value(time[3..])))
  {
    var hour, minute := time[..2], time[3..];
    assert time == hour + ([':'] + minute);
    SplitDigits(hour, minute);
    ParseDigits(hour);
    ParseDigits(minute);
  }

  lemma SplitDigits(hour: string, minute: string)
    requires AllDigits(hour) && AllDigits(minute)
    ensures SplitAt(hour + ([':'] + minute), ':') == [hour, minute]
  {
    NoColon(hour);
    NoColon(minute);
    var time := hour + ([':'] + minute);
    assert time[|hour|] == ':';
    var i := IndexOf(time, ':');
    assert forall k :: 0 <= k < |hour| ==> time[k] == hour[k];
    assert i <= |hour| ==> i == |hour|;
    assert forall k :: 0 <= k < i ==> time[..i][k] in time[..i];
    assert time[..i] == hour && time[i + 1..] == minute;
  }

  lemma NoColon(s: string)
    requires AllDigits(s)
    ensures ':' !in s
  {
    assert !IsDigit(':');
  }

  lemma ShownSolid(n: int)
    ensures Solid(Show(n))
  {
    DigitsSolid(Digits(if n < 0 then -n else n));
  }

  /**
   * Whatever the time string, a schedule that is given either comes back as it was, as
   * every schedule with several runs does, or changes in its minute and hour only.
   */
  lemma OnlyTheTimeChanges(time: string, cron: string, defaultCron: string)
    requires cron != ""
    ensures var moved := TimeToCron(time, Some(cron), defaultCron);
      moved == cron || (IsTimeOnlyCron(cron) && SplitCron(moved).Some?
        && var f, g := SplitCron(cron).value, SplitCron(moved).value;
           f.dom == g.dom && f.month == g.month && f.dow == g.dow)
  {
    if IsTimeOnlyCron(cron) && ClockOf(time).Some? {
      var f, clock := SplitCron(cron).value, ClockOf(time).value;
      FieldsAreSolid(cron);
      ShownSolid(clock.0);
      ShownSolid(clock.1);
      MovedTo(time, clock.0, clock.1, cron, defaultCron);
      JoinedSplits(Show(clock.1), Show(clock.0), f.dom, f.month, f.dow);
    }
  }

  lemma WrittenReads(minute: nat, hour: nat, dom: string, month: string, dow: string)
    requires Solid(dom) && Solid(month) && Solid(dow)
    ensures var cron := Written(minute, hour, dom, month, dow);
      && SplitCron(cron) == Some(Fields(Digits(minute), Digits(hour), dom, month, dow))
      && IsTimeOnlyCron(cron)
      && CronToTime(cron) == Padded(hour) + (":" + Padded(minute))
  {
    DigitsSolid(Digits(minute));
    DigitsSolid(Digits(hour));
    JoinedSplits(Digits(minute), Digits(hour), dom, month, dow);
    ParseDigits(Digits(minute));
    ParseDigits(Digits(hour));
    ValueOfDigits(minute);
    ValueOfDigits(hour);
  }

  /** A two-digit time written into a schedule shows as itself. */
  lemma TwoDigitsWritten(time: string, dom: string, month: string, dow: string)
    requires TwoDigitTime(time) && Solid(dom) && Solid(month) && Solid(dow)
    ensures var hour, minute := Value(time[..2]), Value(time[3..]);
      var cron := Written(minute, hour, dom, month, dow);
      && ClockOf(time) == Some((hour, minute)) && CronToTime(cron) == time && IsTimeOnlyCron(cron)
      && SplitCron(cron) == Some(Fields(Digits(minute), Digits(hour), dom, month, dow))
  {
    var hour, minute := time[..2], time[3..];
    ClockOfTwoDigits(time);
    WrittenReads(Value(minute), Value(hour), dom, month, dow);
    PaddedTwoDigits(hour);
    PaddedTwoDigits(minute);
    assert time == hour + (":" + minute);
  }

  /**
   * Setting a two-digit time in a schedule with a single clock time: the result shows that
   * time, is again such a schedule, and keeps its day-of-month, month and day-of-week fields.
   */
  lemma TimeReadsBack(time: string, cron: string, defaultCron: string)
    requires TwoDigitTime(time) && IsTimeOnlyCron(cron)
    ensures var moved := TimeToCron(time, Some(cron), defaultCron);
      && CronToTime(moved) == time && IsTimeOnlyCron(moved)
      && SplitCron(moved).value.dom == SplitCron(cron).value.dom
      && SplitCron(moved).value.month == SplitCron(cron).value.month
      && SplitCron(moved).value.dow == SplitCron(cron).value.dow
  {
    var f := SplitCron(cron).value;
    FieldsAreSolid(cron);
    NotEmpty(cron);
    TwoDigitsWritten(time, f.dom, f.month, f.dow);
  }

  /** The same for a new daily schedule. */
  lemma NewDailyTimeReadsBack(time: string, defaultCron: string)
    requires TwoDigitTime(time)
    ensures CronToTime(TimeToCron(time, None, defaultCron)) == time
    ensures IsTimeOnlyCron(TimeToCron(time, None, defaultCron))
  {
    TwoDigitsWritten(time, "*", "*", "*");
  }

  // ---- reading a time and writing it back --------------------------------------------------------------

  predicate Numeric(f: Fields) {
    AllDigits(f.minute) && AllDigits(f.hour)
  }

  /** The same minute and hour up to leading zeros, and the same remaining fields. */
  predicate SameSchedule(f: Fields, g: Fields) {
    && Trimmed(f.minute) == Trimmed(g.minute) && Trimmed(f.hour) == Trimmed(g.hour)
    && f.dom == g.dom && f.month == g.month && f.dow == g.dow
  }

  lemma ShownClock(hour: nat, minute: nat)
    ensures ClockOf(Padded(hour) + (":" + Padded(minute))) == Some((hour, minute))
  {
    PaddedDigits(hour);
    PaddedDigits(minute);
    SplitDigits(Padded(hour), Padded(minute));
    ParseDigits(Padded(hour));
    ParseDigits(Padded(minute));
  }

  lemma PaddedDigits(n: nat)
    ensures Padded(n) != "" && AllDigits(Padded(n)) && Value(Padded(n)) == n
  {
    ValueOfDigits(n);
    if |Digits(n)| == 1 {
      var s := Padded(n);
      assert s[..1] == "0" && s[..|s| - 1] == "0" && "0"[..0] == "";
      assert Digits(n)[..0] == "";
      assert Value("0") == 0;
    }
  }

  lemma UnsignedParse(field: string)
    requires Solid(field) && !MultiValued(field) && ParseInt(field).Some?
    ensures ParseInt(field).value >= 0
  {
    assert LeadingSpaces(field) == 0 && field[0..] == field;
    assert field[0] in field && field[0] != '-';
  }

  /** The fields that come back from reading the time of a single-time schedule and writing it in again. */
  function BackFields(f: Fields): Fields {
    var minute, hour := ParseInt(f.minute), ParseInt(f.hour);
    if minute.Some? && hour.Some? then Fields(Show(minute.value), Show(hour.value), f.dom, f.month, f.dow)
    else Fields("0", "9", f.dom, f.month, f.dow)
  }

  lemma ClockShown(f: Fields)
    requires Solid(f.minute) && Solid(f.hour) && !MultiValued(f.minute) && !MultiValued(f.hour)
    ensures var minute, hour := ParseInt(f.minute), ParseInt(f.hour);
      if minute.Some? && hour.Some?
        then minute.value >= 0 && hour.value >= 0 && ClockOf(TimeOf(f)) == Some((hour.value, minute.value))
        else ClockOf(TimeOf(f)) == Some((9, 0))
  {
    var minute, hour := ParseInt(f.minute), ParseInt(f.hour);
    if minute.Some? && hour.Some? {
      UnsignedParse(f.minute);
      UnsignedParse(f.hour);
      ShownClock(hour.value, minute.value);
    } else {
      ShownClock(9, 0);
      assert Padded(9) + (":" + Padded(0)) == "09:00";
    }
  }

  lemma ClockWritten(f: Fields) returns (hour: nat, minute: nat)
    requires Solid(f.minute) && Solid(f.hour) && !MultiValued(f.minute) && !MultiValued(f.hour)
    requires Solid(f.dom) && Solid(f.month) && Solid(f.dow)
    ensures ClockOf(TimeOf(f)) == Some((hour, minute))
    ensures SplitCron(Written(minute, hour, f.dom, f.month, f.dow)) == Some(BackFields(f))
  {
    ClockShown(f);
    hour, minute := ClockOf(TimeOf(f)).value.0, ClockOf(TimeOf(f)).value.1;
    WrittenReads(minute, hour, f.dom, f.month, f.dow);
    BackShows(f, hour, minute);
  }

  lemma BackShows(f: Fields, hour: nat, minute: nat)
    requires var m, h := ParseInt(f.minute), ParseInt(f.hour);
      if m.Some? && h.Some? then m.value == minute && h.value == hour else hour == 9 && minute == 0
    ensures BackFields(f) == Fields(Digits(minute), Digits(hour), f.dom, f.month, f.dow)
  {
    assert Digits(0) == "0" && Digits(9) == "9";
  }

  lemma WrittenBack(cron: string, defaultCron: string)
    requires IsTimeOnlyCron(cron)
    ensures SplitCron(TimeToCron(CronToTime(cron), Some(cron), defaultCron)) == Some(BackFields(SplitCron(cron).value))
  {
    FieldsAreSolid(cron);
    var hour, minute := ClockWritten(SplitCron(cron).value);
    NotEmpty(cron);
    MovedTo(CronToTime(cron), hour, minute, cron, defaultCron);
  }

  lemma MovedTo(time: string, hour: int, minute: int, cron: string, defaultCron: string)
    requires ClockOf(time) == Some((hour, minute)) && cron != "" && IsTimeOnlyCron(cron)
    ensures var f := SplitCron(cron).value;
      TimeToCron(time, Some(cron), defaultCron) == Written(minute, hour, f.dom, f.month, f.dow)
  {
  }

  lemma NotEmpty(cron: string)
    requires SplitCron(cron).Some?
    ensures cron != ""
  {
    NoRuns();
  }

  /**
   * Showing a single-time schedule in the picker and saving it unchanged keeps the schedule
   * exactly when its minute and hour are plain numerals; isTimeOnlyCron also lets through
   * fields such as `5x` or `?`, which come back as another time.
   */
  lemma PickerKeepsSchedule(cron: string, defaultCron: string)
    requires IsTimeOnlyCron(cron)
    ensures SplitCron(TimeToCron(CronToTime(cron), Some(cron), defaultCron)).Some?
    ensures SameSchedule(SplitCron(TimeToCron(CronToTime(cron), Some(cron), defaultCron)).value, SplitCron(cron).value)
       <==> Numeric(SplitCron(cron).value)
  {
    FieldsAreSolid(cron);
    WrittenBack(cron, defaultCron);
    BackIsSame(SplitCron(cron).value);
  }

  lemma BackIsSame(f: Fields)
    requires Solid(f.minute) && Solid(f.hour) && !MultiValued(f.minute) && !MultiValued(f.hour)
    ensures SameSchedule(BackFields(f), f) <==> Numeric(f)
  {
    var g := BackFields(f);
    ClockShown(f);
    assert AllDigits(g.minute) && AllDigits(g.hour);
    TrimmedNumeric(f.minute);
    TrimmedNumeric(f.hour);
    TrimmedNumeric(g.minute);
    TrimmedNumeric(g.hour);
    if Numeric(f) {
      NumeralShown(f.minute);
      NumeralShown(f.hour);
    }
  }

  lemma NumeralShown(field: string)
    requires field != "" && AllDigits(field)
    ensures ParseInt(field).Some? && ParseInt(field).value >= 0 &&
            Trimmed(Show(ParseInt(field).value)) == Trimmed(field)
  {
    ParseDigits(field);
    DigitsOfValue(field);
    DigitsTrimmed(Value(field));
  }

  lemma {:induction false} TrimmedNumeric(s: string)
    ensures AllDigits(Trimmed(s)) <==> AllDigits(s)
  {
    if |s| > 1 && s[0] == '0' {
      TrimmedNumeric(s[1..]);
      assert s == [s[0]] + s[1..];
    }
  }

  lemma DigitsTrimmed(n: nat)
    ensures Trimmed(Digits(n)) == Digits(n)
  {
    DigitsOfValue(Digits(n));
    ValueOfDigits(n);
  }

  // ---- schedules that are not a single clock time -------------------------------------------------

  /** A list, a range, a step or a wildcard in the minute or hour field: the schedule comes back as it was. */
  lemma SeveralRunsUntouched(time: string, cron: string, defaultCron: string)
    requires SplitCron(cron).Some?
    requires var f := SplitCron(cron).value;
      || ',' in f.minute || '-' in f.minute || '/' in f.minute || '*' in f.minute
      || ',' in f.hour || '-' in f.hour || '/' in f.hour || '*' in f.hour
    ensures TimeToCron(time, Some(cron), defaultCron) == cron
  {
    var f := SplitCron(cron).value;
    NotEmpty(cron);
    SomeMark(f.minute);
    SomeMark(f.hour);
  }

  lemma SomeMark(field: string)
    ensures MultiValued(field) <==> ',' in field || '-' in field || '/' in field || '*' in field
  {
    if c :| c in field && c in {',', '-', '/', '*'} {
      var i :| 0 <= i < |field| && field[i] == c;
    }
  }

  /** Only schedules without any of the four characters there are single clock times. */
  lemma TimeOnlyExactly(cron: string)
    ensures IsTimeOnlyCron(cron) ==> SplitCron(cron).Some?
    ensures SplitCron(cron).Some? ==>
      var f := SplitCron(cron).value;
      (IsTimeOnlyCron(cron) <==>
         forall c :: c in f.minute || c in f.hour ==> c != ',' && c != '-' && c != '/' && c != '*')
  {
    if SplitCron(cron).Some? {
      SomeMark(SplitCron(cron).value.minute);
      SomeMark(SplitCron(cron).value.hour);
    }
  }

  // ---- fields and times that cannot be read --------------------------------------------------------

  /** Without five fields the picker shows 09:00 and the schedule is not touched. */
  lemma MalformedSchedule(time: string, cron: string, defaultCron: string)
    requires SplitCron(cron).None?
    ensures CronToTime(cron) == "09:00"
    ensures cron != "" ==> TimeToCron(time, Some(cron), defaultCron) == cron
  {
  }

  /** A time without a colon changes nothing. */
  lemma NoColonTime(time: string, cron: Option<string>, defaultCron: string)
    requires ':' !in time
    ensures TimeToCron(time, cron, defaultCron) == if cron.Some? then cron.value else defaultCron
  {
  }

  lemma FirstIndex(s: string, c: char, k: nat)
    requires k < |s| && s[k] == c && c !in s[..k]
    ensures IndexOf(s, c) == k
  {
    var i := IndexOf(s, c);
    assert forall j :: 0 <= j < k ==> s[j] in s[..k];
    assert forall j :: 0 <= j < i ==> s[j] in s[..i];
  }

  lemma FirstColon(hour: string, rest: string)
    requires ':' !in hour
    ensures SplitAt(hour + (":" + rest), ':') == [hour] + SplitAt(rest, ':')
  {
    var time := hour + (":" + rest);
    assert time[..|hour|] == hour && time[|hour|] == ':' && time[|hour| + 1..] == rest;
    FirstIndex(time, ':', |hour|);
  }

  lemma EmptyPart(rest: string)
    requires rest == "" || rest[0] == ':'
    ensures SplitAt(rest, ':')[0] == ""
  {
    if rest != "" {
      FirstColon("", rest[1..]);
      assert rest == "" + (":" + rest[1..]);
    }
  }

  /** Nor does one with nothing before its first colon or between that and the next. */
  lemma HalfTime(hour: string, rest: string, cron: Option<string>, defaultCron: string)
    requires ':' !in hour && (hour == "" || rest == "" || rest[0] == ':')
    ensures TimeToCron(hour + (":" + rest), cron, defaultCron) == if cron.Some? then cron.value else defaultCron
  {
    FirstColon(hour, rest);
    if hour != "" { EmptyPart(rest); }
    assert ClockOf(hour + (":" + rest)).None?;
  }

  predicate Spaces(s: string) {
    forall i :: 0 <= i < |s| ==> IsJsSpace(s[i])
  }

  lemma {:induction false} LeadingSpacesOf(pad: string, rest: string)
    requires Spaces(pad) && (rest != "" ==> !IsJsSpace(rest[0]))
    ensures LeadingSpaces(pad + rest) == |pad| && (pad + rest)[|pad|..] == rest
  {
    if pad == "" {
      assert pad + rest == rest;
    } else {
      assert (pad + rest)[1..] == pad[1..] + rest;
      LeadingSpacesOf(pad[1..], rest);
    }
  }

  lemma MagnitudeOf(digits: string, rest: string)
    requires AllDigits(digits) && digits != "" && (rest != "" ==> !IsDigit(rest[0]))
    ensures Magnitude(digits + rest) == Some(Value(digits))
  {
    LeadingDigitsOf(digits, rest);
  }

  lemma ParseSkips(pad: string, t: string)
    requires Spaces(pad) && t != "" && !IsJsSpace(t[0])
    ensures ParseInt(pad + t) == if t[0] == '-' then Negated(Magnitude(t[1..]))
                                 else if t[0] == '+' then Magnitude(t[1..]) else Magnitude(t)
  {
    LeadingSpacesOf(pad, t);
  }

  /** parseInt: white space is skipped and the digits read as far as they go. */
  lemma ParsedPrefix(pad: string, digits: string, rest: string)
    requires Spaces(pad) && AllDigits(digits) && digits != "" && (rest != "" ==> !IsDigit(rest[0]))
    ensures ParseInt(pad + (digits + rest)) == Some(Value(digits))
  {
    assert (digits + rest)[0] == digits[0];
    ParseSkips(pad, digits + rest);
    MagnitudeOf(digits, rest);
  }

  /** A sign in front of the digits counts. */
  lemma ParsedSigned(pad: string, digits: string, rest: string)
    requires Spaces(pad) && AllDigits(digits) && digits != "" && (rest != "" ==> !IsDigit(rest[0]))
    ensures ParseInt(pad + ("-" + (digits + rest))) == Negated(Some(Value(digits)))
    ensures ParseInt(pad + ("+" + (digits + rest))) == Some(Value(digits))
  {
    ParseSkips(pad, "-" + (digits + rest));
    ParseSkips(pad, "+" + (digits + rest));
    MagnitudeOf(digits, rest);
    assert ("-" + (digits + rest))[1..] == digits + rest && ("+" + (digits + rest))[1..] == digits + rest;
  }

  /** A field that has no digit behind its white space and sign is not a number. */
  lemma UnparsedPrefix(pad: string, sign: string, rest: string)
    requires Spaces(pad) && sign in {"", "+", "-"}
    requires rest == "" || (!IsDigit(rest[0]) && !IsJsSpace(rest[0]) && (sign == "" ==> rest[0] !in {'+', '-'}))
    requires sign + rest != ""
    ensures ParseInt(pad + (sign + rest)) == None
  {
    var tail := sign + rest;
    assert tail[0] == (if sign == "" then rest[0] else sign[0]);
    LeadingSpacesOf(pad, tail);
    if sign == "" { assert tail == rest; } else { assert tail[1..] == rest; }
  }

  // ---- any white space between the fields -----------------------------------------------------------

  /** Fields with white space before, between and after them. */
  function Spaced(fields: seq<string>, gaps: seq<string>): string
    requires |gaps| == |fields| + 1
  {
    if fields == [] then gaps[0] else gaps[0] + (fields[0] + Spaced(fields[1..], gaps[1..]))
  }

  /** Only the first and the last gap may be empty. */
  predicate Gaps(gaps: seq<string>) {
    forall i :: 0 <= i < |gaps| ==> Spaces(gaps[i]) && (0 < i < |gaps| - 1 ==> gaps[i] != "")
  }

  lemma RunsSkip(pad: string, t: string)
    requires Spaces(pad) && (t != "" ==> !IsJsSpace(t[0]))
    ensures Runs(pad + t) == Runs(t)
  {
    LeadingSpacesOf(pad, t);
    LeadingSpacesOf("", t);
    assert "" + t == t;
  }

  lemma RunsOfSpaces(pad: string)
    requires Spaces(pad)
    ensures Runs(pad) == []
  {
    RunsSkip(pad, "");
    assert pad + "" == pad;
    NoRuns();
  }

  lemma StartsBlank(fields: seq<string>, gaps: seq<string>)
    requires fields != [] && |gaps| == |fields| + 1 && Gaps(gaps)
    ensures var rest := Spaced(fields[1..], gaps[1..]); rest == "" || IsJsSpace(rest[0])
  {
    assert gaps[1..][0] == gaps[1];
  }

  lemma GapsRest(gaps: seq<string>)
    requires |gaps| > 1 && Gaps(gaps)
    ensures Gaps(gaps[1..])
  {
    forall i | 0 <= i < |gaps[1..]|
      ensures Spaces(gaps[1..][i]) && (0 < i < |gaps[1..]| - 1 ==> gaps[1..][i] != "")
    {
      assert gaps[1..][i] == gaps[i + 1];
    }
  }

  lemma {:induction false} RunsOfSpaced(fields: seq<string>, gaps: seq<string>)
    requires |gaps| == |fields| + 1 && Gaps(gaps) && forall i :: 0 <= i < |fields| ==> Solid(fields[i])
    ensures Runs(Spaced(fields, gaps)) == fields
  {
    if fields == [] {
      RunsOfSpaces(gaps[0]);
    } else {
      var rest := Spaced(fields[1..], gaps[1..]);
      GapsRest(gaps);
      RunsOfSpaced(fields[1..], gaps[1..]);
      StartsBlank(fields, gaps);
      RunsSkip(gaps[0], fields[0] + rest);
      RunsOf(fields[0], rest);
    }
  }

  /** Whatever white space stands round five fields, they are the schedule's; any other number is refused. */
  lemma SplitsAtAnySpace(fields: seq<string>, gaps: seq<string>)
    requires |gaps| == |fields| + 1 && Gaps(gaps) && forall i :: 0 <= i < |fields| ==> Solid(fields[i])
    ensures SplitCron(Spaced(fields, gaps)) ==
      if |fields| == 5 then Some(Fields(fields[0], fields[1], fields[2], fields[3], fields[4])) else None
  {
    RunsOfSpaced(fields, gaps);
  }
}
