/** The weekly-report title roll-forward of `ConfluenceService`
    (backend/src/services/confluence_service.py): reading the end date out of
    a title such as "2025 W1 Team Report (1229-0102)" and building the title
    of the following Monday-to-Friday week. */
module WeeklyTitle {
  import opened Results
  import opened Calendar
  import opened Text

  // ----- the pattern r"\((\d{4})-(\d{4})\)" -----

  /** An eleven-character text the pattern matches: "(", four digits, "-",
      four digits, ")". */
  predicate IsRangeText(t: string) {
    |t| == 11 && t[0] == '(' && AllDigits(t[1..5]) && t[5] == '-'
    && AllDigits(t[6..10]) && t[10] == ')'
  }

  /** The pattern matches `s` at position `i`. */
  predicate RangeAt(s: string, i: int) {
    0 <= i && i + 11 <= |s| && IsRangeText(s[i..i + 11])
  }

  predicate HasNoRange(s: string) {
    forall i :: 0 <= i < |s| ==> !RangeAt(s, i)
  }

  /** `re.search` from position `from` on: the leftmost match, if any. */
  function FindRange(s: string, from: nat): (r: Option<nat>)
    ensures r.Some? ==> from <= r.value && RangeAt(s, r.value)
    ensures forall i :: from <= i && (r.None? || i < r.value) ==> !RangeAt(s, i)
    decreases |s| - from
  {
    if |s| < from + 11 then None
    else if RangeAt(s, from) then Some(from)
    else FindRange(s, from + 1)
  }

  /** `re.sub(pattern, "", s)`: scanning left to right, every match is cut
      out and the scan resumes after it. */
  function RemoveRanges(s: string): string
    decreases |s|
  {
    if |s| < 11 then s
    else if IsRangeText(s[..11]) then RemoveRanges(s[11..])
    else [s[0]] + RemoveRanges(s[1..])
  }

  /** The leftmost match is the only match the search can report. */
  lemma FindRangeIsLeftmost(s: string, i: nat)
    requires RangeAt(s, i)
    requires forall j :: 0 <= j < i ==> !RangeAt(s, j)
    ensures FindRange(s, 0) == Some(i)
  {
  }

  /** A text in which the pattern matches nowhere has no `(dddd-dddd)` group to
      remove. */
  lemma {:induction false} RemoveNothing(s: string)
    requires HasNoRange(s)
    ensures RemoveRanges(s) == s
    decreases |s|
  {
    if |s| >= 11 {
      assert !RangeAt(s, 0);
      assert s[0..11] == s[..11];
      assert HasNoRange(s[1..]) by {
        forall i ensures !RangeAt(s[1..], i) {
          if RangeAt(s[1..], i) {
            assert s[1..][i..i + 11] == s[i + 1..i + 1 + 11];
            assert RangeAt(s, i + 1);
          }
        }
      }
      RemoveNothing(s[1..]);
    }
  }

  /** A stretch where no match starts is copied through unchanged. */
  lemma {:induction false} RemoveRangesAfter(x: string, y: string)
    requires forall j :: 0 <= j < |x| ==> !RangeAt(x + y, j)
    ensures RemoveRanges(x + y) == x + RemoveRanges(y)
    decreases |x|
  {
    if x == [] {
      assert x + y == y;
    } else {
      var s := x + y;
      assert s[1..] == x[1..] + y;
      if |s| < 11 {
        assert |y| < 11 && RemoveRanges(s) == s;
      } else {
        assert s[0..11] == s[..11];
        assert !RangeAt(s, 0);
        forall j | 0 <= j < |x[1..]| ensures !RangeAt(x[1..] + y, j) {
          if j + 11 <= |x[1..] + y| {
            assert (x[1..] + y)[j..j + 11] == s[j + 1..j + 1 + 11];
            assert !RangeAt(s, j + 1);
          }
        }
        RemoveRangesAfter(x[1..], y);
        assert [x[0]] + x[1..] == x;
      }
    }
  }

  /** The month and day fields of a matched group are digit strings. */
  lemma RangeTextDigits(t: string)
    requires IsRangeText(t)
    ensures AllDigits(t[1..3]) && AllDigits(t[6..8]) && AllDigits(t[8..10])
  {
    assert t[1..3] == t[1..5][..2];
    assert t[6..8] == t[6..10][..2];
    assert t[8..10] == t[6..10][2..];
  }

  // ----- _get_date_from_title -----

  /** What `_get_date_from_title` gives: `None`, a `ValueError` raised by
      `datetime.date` for an impossible day, or the end date. */
  datatype TitleDate = Unparsed | Impossible | Parsed(end: Date)

  /** `re.search(r"^(\d{4})", title)` succeeds. */
  predicate StartsWithYear(title: string) {
    4 <= |title| && AllDigits(title[..4])
  }

  /** The end date of the week a title names: the leftmost `(MMDD-MMDD)`
      group gives month and day of its second half, the leading four digits
      give the year, one more when the group runs from December into January. */
  function DateFromTitle(title: string): (r: TitleDate)
    ensures r.Parsed? ==> IsRepresentable(r.end)
  {
    match FindRange(title, 0)
    case None => Unparsed
    case Some(i) =>
      if !StartsWithYear(title) then Unparsed
      else
        var end := EndDate(DigitsValue(title[..4]), title[i..i + 11]);
        if IsRepresentable(end) then Parsed(end) else Impossible
  }

  /** The date a matched group names in the given year: month and day of its
      second half, the year moved on by one when the group runs from
      December into January. */
  function EndDate(year: nat, group: string): (d: Date)
    requires IsRangeText(group)
    ensures d.year >= year
  {
    RangeTextDigits(group);
    var startMonth := DigitsValue(group[1..3]);
    var endMonth := DigitsValue(group[6..8]);
    Date(year + (if endMonth == 1 && startMonth == 12 then 1 else 0), endMonth, DigitsValue(group[8..10]))
  }

  /** The search is unanchored: a title yields no date exactly when no
      `(dddd-dddd)` group occurs anywhere in it or it does not begin with four
      digits. */
  lemma UnparsedExactly(title: string)
    ensures DateFromTitle(title).Unparsed? <==> HasNoRange(title) || !StartsWithYear(title)
  {
    var r := FindRange(title, 0);
    if r.Some? {
      assert RangeAt(title, r.value);
    }
  }

  /** Where a title's date comes from: month and day are the two halves of
      the second four-digit field of the leftmost group, the year is the
      leading year, one more exactly when the group runs from month 12 into
      month 01, and an impossible day is an error rather than no date. */
  lemma EndDateFields(title: string)
    requires FindRange(title, 0).Some? && StartsWithYear(title)
    ensures var i := FindRange(title, 0).value;
            var g := title[i..i + 11];
            IsRangeText(g) && AllDigits(g[1..3]) && AllDigits(g[6..8]) && AllDigits(g[8..10])
            && var year := DigitsValue(title[..4]);
               var d := EndDate(year, g);
               d.month == DigitsValue(g[6..8]) && d.day == DigitsValue(g[8..10])
               && (d.year == year + 1 <==> d.month == 1 && DigitsValue(g[1..3]) == 12)
               && (d.year == year || d.year == year + 1)
               && (DateFromTitle(title) == Parsed(d) <==> IsRepresentable(d))
               && (DateFromTitle(title) == Impossible <==> !IsRepresentable(d))
  {
    var i := FindRange(title, 0).value;
    RangeTextDigits(title[i..i + 11]);
  }

  // ----- _generate_next_week_title -----

  /** How many days after `end` the next Monday comes: one to seven. */
  function DaysToMonday(end: Date): (k: int)
    requires IsValid(end)
    ensures 1 <= k <= 7
  {
    7 - Weekday(end)
  }

  /** The first Monday strictly after `end`. */
  function NextMondayAfter(end: Date): Date
    requires IsValid(end)
  {
    AddDays(end, DaysToMonday(end))
  }

  /** Among the seven days after `end`, only the last of the first
      `DaysToMonday(end)` is a Monday. */
  lemma MondayAt(end: Date, j: nat)
    requires IsValid(end) && 1 <= j <= DaysToMonday(end)
    ensures Weekday(AddDays(end, j)) == 0 <==> j == DaysToMonday(end)
  {
    WeekdayAfter(end, j);
    WeekCompletes(Weekday(end), j);
  }

  /** It is a Monday, one to seven days after `end`, and no day in between is
      a Monday. */
  lemma NextMondayAfterIsFirstMonday(end: Date)
    requires IsValid(end)
    ensures var m := NextMondayAfter(end);
            IsValid(m) && Weekday(m) == 0 && Ordinal(end) < Ordinal(m) <= Ordinal(end) + 7
            && forall j: nat :: 1 <= j < Ordinal(m) - Ordinal(end) ==> Weekday(AddDays(end, j)) != 0
  {
    MondayAt(end, DaysToMonday(end));
    forall j: nat | 1 <= j < DaysToMonday(end) ensures Weekday(AddDays(end, j)) != 0 {
      MondayAt(end, j);
    }
  }

  /** `d.strftime("%m%d")`. */
  function MonthDay(d: Date): string
    requires IsValid(d)
  {
    Pad2(d.month) + Pad2(d.day)
  }

  /** The title with every `(dddd-dddd)` group removed and then stripped. */
  function TitlePrefix(title: string): string {
    Strip(RemoveRanges(title))
  }

  /** `f"{year} W{week:02d} "`: the year and week that open a rebuilt title. */
  function TitleHead(year: nat, week: nat): string {
    NatToString(year) + " W" + Pad2(week) + " "
  }

  /** The new prefix: when the old one splits on single spaces into four or
      more pieces, the first two are replaced by the Monday's calendar year and
      ISO week number; otherwise the old prefix is kept as it is. */
  function NewPrefix(prefix: string, monday: Date): string
    requires IsValid(monday)
  {
    var parts := Split(prefix, ' ');
    if |parts| >= 4 then
      IsoWeekNumberRange(monday);
      TitleHead(monday.year, IsoWeekNumber(monday)) + Join(parts[2..], ' ')
    else prefix
  }

  /** `f"({start_str}-{end_str})"`. */
  function RangeGroup(monday: Date, friday: Date): string
    requires IsValid(monday) && IsValid(friday)
  {
    "(" + MonthDay(monday) + "-" + MonthDay(friday) + ")"
  }

  /** `f"{new_prefix} ({start_str}-{end_str})"`. */
  function WithRange(prefix: string, monday: Date, friday: Date): string
    requires IsValid(monday) && IsValid(friday)
  {
    prefix + " " + RangeGroup(monday, friday)
  }

  /** Why `_generate_next_week_title` raises: the title gives no date
      (ValueError), `datetime.date` rejects the day it names (ValueError), or
      stepping forward passes 9999-12-31 (OverflowError). */
  datatype TitleError = Unparseable | ImpossibleDate | DateOverflow

  /** What `_generate_next_week_title` returns: the new title and the next
      Monday, with the week's Monday found in one step rather than by the
      source's day-by-day loop. */
  function NextWeekTitle(latestTitle: string): Result<(string, Date), TitleError> {
    match DateFromTitle(latestTitle)
    case Unparsed => Err(Unparseable)
    case Impossible => Err(ImpossibleDate)
    case Parsed(end) =>
      var monday := NextMondayAfter(end);
      if !IsRepresentable(monday) then Err(DateOverflow)
      else
        var friday := AddDays(monday, 4);
        if !IsRepresentable(friday) then Err(DateOverflow)
        else Ok((WithRange(NewPrefix(TitlePrefix(latestTitle), monday), monday, friday), monday))
  }

  /** Days further on are never in an earlier year. */
  lemma AddDaysLater(d: Date, a: nat, b: nat)
    requires IsValid(d) && a <= b
    ensures AddDays(d, a).year <= AddDays(d, b).year
    decreases b
  {
    if a < b {
      AddDaysLater(d, a, b - 1);
    }
  }

  /** Once a step forward passes 9999-12-31, every later step does too. */
  lemma OverflowStays(d: Date, a: nat, b: nat)
    requires IsValid(d) && a <= b
    requires !IsRepresentable(AddDays(d, a))
    ensures !IsRepresentable(AddDays(d, b))
  {
    AddDaysLater(d, a, b);
  }

  /** Passing 9999-12-31 on the way to the next Monday makes the roll-forward fail. */
  lemma OverflowBeforeMonday(title: string, end: Date, k: nat)
    requires DateFromTitle(title) == Parsed(end)
    requires 1 <= k <= DaysToMonday(end) && !IsRepresentable(AddDays(end, k))
    ensures NextWeekTitle(title) == Err(DateOverflow)
  {
    OverflowStays(end, k, DaysToMonday(end));
  }

  /** `_generate_next_week_title` on the model: it steps from the day after
      the end date, one day at a time, to the first Monday. */
  method GenerateNextWeekTitle(latestTitle: string) returns (r: Result<(string, Date), TitleError>)
    ensures r == NextWeekTitle(latestTitle)
  {
    var parsed := DateFromTitle(latestTitle);
    if parsed.Unparsed? {
      return Err(Unparseable);
    }
    if parsed.Impossible? {
      return Err(ImpossibleDate);
    }
    var end := parsed.end;
    var nextMonday := NextDay(end);
    ghost var k: nat := 1;
    if !IsRepresentable(nextMonday) {
      OverflowBeforeMonday(latestTitle, end, 1);
      return Err(DateOverflow);
    }
    while Weekday(nextMonday) != 0
      invariant 1 <= k <= DaysToMonday(end)
      invariant nextMonday == AddDays(end, k)
      invariant IsRepresentable(nextMonday)
      decreases DaysToMonday(end) - k
    {
      MondayAt(end, k);
      nextMonday := NextDay(nextMonday);
      k := k + 1;
      if !IsRepresentable(nextMonday) {
        OverflowBeforeMonday(latestTitle, end, k);
        return Err(DateOverflow);
      }
    }
    MondayAt(end, k);
    var nextFriday := AddDays(nextMonday, 4);
    if !IsRepresentable(nextFriday) {
      return Err(DateOverflow);
    }
    var newPrefix := NewPrefix(TitlePrefix(latestTitle), nextMonday);
    var newTitle := WithRange(newPrefix, nextMonday, nextFriday);
    return Ok((newTitle, nextMonday));
  }

  // ----- properties of the roll-forward -----

  /** The three ways the roll-forward fails, each exactly when its cause occurs. */
  lemma NextWeekTitleFails(title: string)
    ensures NextWeekTitle(title) == Err(Unparseable) <==> DateFromTitle(title).Unparsed?
    ensures NextWeekTitle(title) == Err(ImpossibleDate) <==> DateFromTitle(title).Impossible?
    ensures NextWeekTitle(title) == Err(DateOverflow) <==>
              DateFromTitle(title).Parsed?
              && !IsRepresentable(AddDays(NextMondayAfter(DateFromTitle(title).end), 4))
  {
    match DateFromTitle(title)
    case Parsed(end) =>
      var m := NextMondayAfter(end);
      AddDaysLater(m, 0, 4);
    case _ =>
  }

  /** A successful roll-forward names the first Monday after the old end date
      and the Friday four days later, and its title ends with their
      zero-padded "(MMDD-MMDD)". */
  lemma NextWeekTitleWeek(title: string)
    requires NextWeekTitle(title).Ok?
    ensures DateFromTitle(title).Parsed?
    ensures var end, (newTitle, monday) := DateFromTitle(title).end, NextWeekTitle(title).value;
            var friday := AddDays(monday, 4);
            IsRepresentable(monday) && IsRepresentable(friday)
            && Weekday(monday) == 0 && Weekday(friday) == 4
            && Ordinal(end) < Ordinal(monday) <= Ordinal(end) + 7
            && Ordinal(friday) == Ordinal(monday) + 4
            && newTitle == WithRange(NewPrefix(TitlePrefix(title), monday), monday, friday)
  {
    WeekAfter(DateFromTitle(title).end);
  }

  /** The week after `end` runs from a Monday to the Friday four days later. */
  lemma WeekAfter(end: Date)
    requires IsValid(end)
    ensures var monday := NextMondayAfter(end);
            var friday := AddDays(monday, 4);
            Weekday(monday) == 0 && Weekday(friday) == 4
            && Ordinal(end) < Ordinal(monday) <= Ordinal(end) + 7
            && Ordinal(friday) == Ordinal(monday) + 4
  {
    NextMondayAfterIsFirstMonday(end);
    FridayOfWeek(NextMondayAfter(end));
  }

  /** Four days after a Monday is a Friday. */
  lemma FridayOfWeek(monday: Date)
    requires IsValid(monday) && Weekday(monday) == 0
    ensures Weekday(AddDays(monday, 4)) == 4
  {
    WeekdayOfLater(monday, AddDays(monday, 4), 4);
    FourAfterMonday(Weekday(monday));
  }

  lemma FourAfterMonday(w: int)
    requires w == 0
    ensures (w + 4) % 7 == 4
  {
  }

  /** The text of a title in the shape the roll-forward writes: year, ISO
      week, team-and-report label and the Monday-to-Friday range. */
  function WeeklyTitleText(year: nat, week: nat, teamAndReport: string, monday: Date, friday: Date): string
    requires IsValid(monday) && IsValid(friday)
  {
    WithRange(TitleHead(year, week) + teamAndReport, monday, friday)
  }

  /** When the old prefix has four or more pieces, the new title keeps
      everything after its second space as the label, behind the Monday's
      calendar year (not its ISO year) and ISO week. */
  lemma RebuiltTitleShape(title: string)
    requires NextWeekTitle(title).Ok?
    requires |Split(TitlePrefix(title), ' ')| >= 4
    ensures var (newTitle, monday) := NextWeekTitle(title).value;
            IsValid(monday) && 1 <= IsoWeekNumber(monday) <= 53
            && newTitle == WeeklyTitleText(monday.year, IsoWeekNumber(monday),
                                           Join(Split(TitlePrefix(title), ' ')[2..], ' '),
                                           monday, AddDays(monday, 4))
  {
    NextWeekTitleWeek(title);
    IsoWeekNumberRange(NextWeekTitle(title).value.1);
  }

  /** When the old prefix has fewer than four pieces, it is kept verbatim,
      stale year and week included. */
  lemma FallbackKeepsPrefix(title: string)
    requires NextWeekTitle(title).Ok?
    requires |Split(TitlePrefix(title), ' ')| < 4
    ensures var (newTitle, monday) := NextWeekTitle(title).value;
            newTitle == WithRange(TitlePrefix(title), monday, AddDays(monday, 4))
  {
    NextWeekTitleWeek(title);
  }

  /** Four or fewer days never cross more than one year end, and only from
      December into January. */
  lemma {:induction false} YearAcrossFewDays(a: Date, b: Date)
    requires IsValid(a) && IsValid(b)
    requires Ordinal(a) <= Ordinal(b) < Ordinal(a) + 28
    ensures b.year == a.year + if b.month == 1 && a.month == 12 then 1 else 0
  {
    OrdinalInYear(a);
    OrdinalInYear(b);
    if a.year < b.year {
      DaysBeforeYearMonotone(a.year, b.year);
      if a.year + 1 < b.year {
        DaysBeforeNextYear(a.year);
        DaysBeforeYearMonotone(a.year + 1, b.year);
      }
      if a.month < 12 {
        DaysBeforeMonthMonotone(a.year, a.month, 12);
      }
    } else if b.year < a.year {
      DaysBeforeYearMonotone(b.year, a.year);
    } else if b.month < a.month {
      DaysBeforeMonthMonotone(a.year, b.month, a.month);
    }
  }

  /** No `(dddd-dddd)` group can start before the space that precedes the
      range of a title built as text without "(", a label without a group,
      then a space. */
  lemma {:induction false} NoRangeBefore(a: string, teamAndReport: string, rest: string)
    requires '(' !in a
    requires HasNoRange(teamAndReport)
    requires |rest| >= 1 && rest[0] == ' '
    ensures forall j :: 0 <= j <= |a| + |teamAndReport| ==> !RangeAt(a + teamAndReport + rest, j)
  {
    var s := a + teamAndReport + rest;
    forall j | 0 <= j <= |a| + |teamAndReport| ensures !RangeAt(s, j) {
      if j + 11 > |s| {
      } else if j < |a| {
        assert s[j..j + 11][0] == a[j];
      } else if j + 11 <= |a| + |teamAndReport| {
        assert s[j..j + 11] == teamAndReport[j - |a|..j - |a| + 11];
        assert !RangeAt(teamAndReport, j - |a|);
      } else {
        var t := s[j..j + 11];
        var p := |a| + |teamAndReport| - j;
        assert t[p] == ' ';
        if 1 <= p < 5 {
          assert t[1..5][p - 1] == ' ';
        } else if 6 <= p < 10 {
          assert t[6..10][p - 6] == ' ';
        }
      }
    }
  }

  /** The leading year of a title is four digits: its first four characters. */
  lemma YearDigits(year: nat, rest: string)
    requires 1000 <= year <= 9999
    ensures StartsWithYear(NatToString(year) + rest)
    ensures (NatToString(year) + rest)[..4] == NatToString(year)
  {
    FourDigitNumber(year);
    assert (NatToString(year) + rest)[..4] == NatToString(year);
  }

  /** `strftime("%m%d")` of a valid day: four digits, month then day. */
  lemma MonthDayDigits(d: Date)
    requires IsValid(d)
    ensures |MonthDay(d)| == 4 && AllDigits(MonthDay(d))
    ensures MonthDay(d)[..2] == Pad2(d.month) && MonthDay(d)[2..] == Pad2(d.day)
  {
  }

  /** The group the roll-forward writes is one the pattern matches; its
      fields hold the Monday's month and the Friday's month and day. */
  lemma RangeGroupFields(monday: Date, friday: Date)
    requires IsValid(monday) && IsValid(friday)
    ensures var g := RangeGroup(monday, friday);
            IsRangeText(g) && g[1..3] == Pad2(monday.month)
            && g[6..8] == Pad2(friday.month) && g[8..10] == Pad2(friday.day)
  {
    MonthDayDigits(monday);
    MonthDayDigits(friday);
    var a, b := MonthDay(monday), MonthDay(friday);
    var g := RangeGroup(monday, friday);
    assert g[1..5] == a && g[6..10] == b;
    assert g[1..3] == a[..2];
    assert g[6..8] == b[..2] && g[8..10] == b[2..];
  }

  /** Read back in the start day's year, the group written for two days
      less than four weeks apart names the second. */
  lemma EndOfGroup(start: Date, end: Date)
    requires IsValid(start) && IsValid(end)
    requires Ordinal(start) <= Ordinal(end) < Ordinal(start) + 28
    ensures IsRangeText(RangeGroup(start, end))
    ensures EndDate(start.year, RangeGroup(start, end)) == end
  {
    var g := RangeGroup(start, end);
    RangeGroupFields(start, end);
    RangeTextDigits(g);
    assert DigitsValue(g[1..3]) == start.month;
    assert DigitsValue(g[6..8]) == end.month;
    assert DigitsValue(g[8..10]) == end.day;
    YearAcrossFewDays(start, end);
  }

  /** The group closes the title, right after the space behind the prefix. */
  lemma RangeGroupAt(prefix: string, monday: Date, friday: Date)
    requires IsValid(monday) && IsValid(friday)
    ensures var s, i := WithRange(prefix, monday, friday), |prefix| + 1;
            |s| == i + 11 && s[i..i + 11] == RangeGroup(monday, friday) && RangeAt(s, i)
  {
    RangeGroupFields(monday, friday);
    var s := WithRange(prefix, monday, friday);
    assert s[|prefix| + 1..] == RangeGroup(monday, friday);
  }

  /** The head of a rebuilt title holds no "(". */
  lemma NoParenInHead(year: nat, week: nat)
    ensures '(' !in TitleHead(year, week)
  {
    var y, ww := NatToString(year), Pad2(week);
    var head := TitleHead(year, week);
    assert head == y + [' ', 'W'] + ww + [' '];
    forall k | 0 <= k < |head| ensures head[k] != '(' {
      if k < |y| {
        assert head[k] == y[k];
      } else if |y| + 2 <= k < |y| + 2 + |ww| {
        assert head[k] == ww[k - |y| - 2];
      }
    }
  }

  /** In a title the roll-forward writes, the search finds the group it wrote. */
  lemma TitleSearch(year: nat, week: nat, teamAndReport: string, monday: Date, friday: Date)
    requires IsValid(monday) && IsValid(friday)
    requires HasNoRange(teamAndReport)
    ensures var s := WeeklyTitleText(year, week, teamAndReport, monday, friday);
            var i := |TitleHead(year, week) + teamAndReport| + 1;
            FindRange(s, 0) == Some(i) && s[i..i + 11] == RangeGroup(monday, friday)
  {
    var head := TitleHead(year, week);
    var g := RangeGroup(monday, friday);
    var s := WeeklyTitleText(year, week, teamAndReport, monday, friday);
    AppendAssoc(head + teamAndReport, " ", g);
    NoParenInHead(year, week);
    NoRangeBefore(head, teamAndReport, " " + g);
    RangeGroupAt(head + teamAndReport, monday, friday);
    FindRangeIsLeftmost(s, |head + teamAndReport| + 1);
  }

  lemma AppendAssoc(a: string, b: string, c: string)
    ensures a + b + c == a + (b + c)
  {
  }

  /** A title the roll-forward writes for a four-digit year starts with that year. */
  lemma TitleYear(year: nat, week: nat, teamAndReport: string, monday: Date, friday: Date)
    requires 1000 <= year <= 9999 && IsValid(monday) && IsValid(friday)
    ensures var s := WeeklyTitleText(year, week, teamAndReport, monday, friday);
            StartsWithYear(s) && s[..4] == NatToString(year)
  {
    var y := NatToString(year);
    var rest := " W" + Pad2(week) + " " + teamAndReport;
    var range := " " + RangeGroup(monday, friday);
    AppendAssoc(y, rest, range);
    YearDigits(year, rest + range);
  }

  /** Re-reading a title the roll-forward writes gives back its Friday,
      across a December-to-January week too, provided the year has four
      digits and the label holds no `(dddd-dddd)` group. */
  lemma RoundTrip(week: nat, teamAndReport: string, monday: Date)
    requires IsRepresentable(monday) && 1000 <= monday.year
    requires IsRepresentable(AddDays(monday, 4))
    requires HasNoRange(teamAndReport)
    ensures DateFromTitle(WeeklyTitleText(monday.year, week, teamAndReport, monday, AddDays(monday, 4)))
            == Parsed(AddDays(monday, 4))
  {
    RangeEndReadBack(week, teamAndReport, monday, AddDays(monday, 4));
  }

  /** A title produced by the roll-forward on its four-or-more-piece path
      reads back as the Friday of the new week. */
  lemma GeneratedTitleReadsBack(title: string)
    requires NextWeekTitle(title).Ok? && 1000 <= NextWeekTitle(title).value.1.year
    requires |Split(TitlePrefix(title), ' ')| >= 4
    requires HasNoRange(Join(Split(TitlePrefix(title), ' ')[2..], ' '))
    ensures var (newTitle, monday) := NextWeekTitle(title).value;
            DateFromTitle(newTitle) == Parsed(AddDays(monday, 4))
  {
    var monday := NextWeekTitle(title).value.1;
    RebuiltTitleShape(title);
    NextWeekTitleWeek(title);
    RoundTrip(IsoWeekNumber(monday), Join(Split(TitlePrefix(title), ' ')[2..], ' '), monday);
  }

  /** The same for any end day less than four weeks after the start day. */
  lemma RangeEndReadBack(week: nat, teamAndReport: string, start: Date, end: Date)
    requires IsRepresentable(start) && 1000 <= start.year && IsRepresentable(end)
    requires Ordinal(start) <= Ordinal(end) < Ordinal(start) + 28
    requires HasNoRange(teamAndReport)
    ensures DateFromTitle(WeeklyTitleText(start.year, week, teamAndReport, start, end)) == Parsed(end)
  {
    var s := WeeklyTitleText(start.year, week, teamAndReport, start, end);
    var i := |TitleHead(start.year, week) + teamAndReport| + 1;
    var g := RangeGroup(start, end);
    assert FindRange(s, 0) == Some(i) && s[i..i + 11] == g by {
      TitleSearch(start.year, week, teamAndReport, start, end);
    }
    assert StartsWithYear(s) && DigitsValue(s[..4]) == start.year by {
      TitleYear(start.year, week, teamAndReport, start, end);
    }
    assert EndDate(start.year, g) == end by {
      EndOfGroup(start, end);
    }
    FoundDate(s, i, end);
  }

  /** Once the search has found a group in a title that starts with a year,
      and the group names a representable day in that year, the title names
      that day. */
  lemma FoundDate(title: string, i: nat, end: Date)
    requires FindRange(title, 0) == Some(i) && StartsWithYear(title)
    requires EndDate(DigitsValue(title[..4]), title[i..i + 11]) == end && IsRepresentable(end)
    ensures DateFromTitle(title) == Parsed(end)
  {
  }

  /** Stripping the group and the whitespace from a title the roll-forward
      wrote leaves its head and label. */
  lemma WrittenTitlePrefix(year: nat, week: nat, teamAndReport: string, monday: Date, friday: Date)
    requires IsValid(monday) && IsValid(friday) && HasNoRange(teamAndReport)
    requires teamAndReport != [] && !IsSpace(teamAndReport[|teamAndReport| - 1])
    ensures TitlePrefix(WeeklyTitleText(year, week, teamAndReport, monday, friday))
            == TitleHead(year, week) + teamAndReport
  {
    WrittenTitleRemoved(year, week, teamAndReport, monday, friday);
    HeadAndLabelEnds(year, week, teamAndReport);
    PrefixOfRemoved(WeeklyTitleText(year, week, teamAndReport, monday, friday),
                    TitleHead(year, week) + teamAndReport);
  }

  /** A head followed by a label that ends in a non-space has no whitespace
      at either end: the head starts with a digit. */
  lemma HeadAndLabelEnds(year: nat, week: nat, teamAndReport: string)
    requires teamAndReport != [] && !IsSpace(teamAndReport[|teamAndReport| - 1])
    ensures var p := TitleHead(year, week) + teamAndReport;
            p != [] && !IsSpace(p[0]) && !IsSpace(p[|p| - 1])
  {
    var p := TitleHead(year, week) + teamAndReport;
    assert IsDigit(NatToString(year)[0]);
    assert p[0] == NatToString(year)[0];
    assert p[|p| - 1] == teamAndReport[|teamAndReport| - 1];
  }

  /** A title whose groups, once cut out, leave a text with no whitespace at
      either end followed by one space, has that text as its prefix. */
  lemma PrefixOfRemoved(title: string, prefix: string)
    requires RemoveRanges(title) == prefix + " "
    requires prefix != [] && !IsSpace(prefix[0]) && !IsSpace(prefix[|prefix| - 1])
    ensures TitlePrefix(title) == prefix
  {
    StripTrailingSpace(prefix);
  }

  /** Cutting the groups out of a title the roll-forward wrote leaves its head,
      its label and the space before the group. */
  lemma WrittenTitleRemoved(year: nat, week: nat, teamAndReport: string, monday: Date, friday: Date)
    requires IsValid(monday) && IsValid(friday) && HasNoRange(teamAndReport)
    ensures RemoveRanges(WeeklyTitleText(year, week, teamAndReport, monday, friday))
            == TitleHead(year, week) + teamAndReport + " "
  {
    var head := TitleHead(year, week);
    var prefix := head + teamAndReport;
    var g := RangeGroup(monday, friday);
    AppendAssoc(prefix, " ", g);
    NoParenInHead(year, week);
    NoRangeBefore(head, teamAndReport, " " + g);
    RemoveRangesAfter(prefix + " ", g);
    RangeGroupFields(monday, friday);
    assert g[..11] == g && g[11..] == [];
  }

  /** Split on single spaces, a rebuilt prefix gives its year, its week and
      then the pieces of the label, so pieces 2 on, joined, are the label. */
  lemma WrittenPrefixPieces(year: nat, week: nat, teamAndReport: string)
    requires ' ' in teamAndReport
    ensures var parts := Split(TitleHead(year, week) + teamAndReport, ' ');
            |parts| >= 4 && Join(parts[2..], ' ') == teamAndReport
  {
    var y, ww := NatToString(year), "W" + Pad2(week);
    var parts := Split(TitleHead(year, week) + teamAndReport, ' ');
    assert parts == [y, ww] + Split(teamAndReport, ' ') by {
      HeadPieces(year, week, teamAndReport);
    }
    SplitCount(teamAndReport, ' ');
    assert parts[2..] == Split(teamAndReport, ' ');
    JoinSplit(teamAndReport, ' ');
  }

  /** The year and the week of a rebuilt head are its first two pieces. */
  lemma HeadPieces(year: nat, week: nat, rest: string)
    ensures Split(TitleHead(year, week) + rest, ' ')
            == [NatToString(year), "W" + Pad2(week)] + Split(rest, ' ')
  {
    var y, ww := NatToString(year), "W" + Pad2(week);
    NoSpaceInDigits(y);
    NoSpaceInDigits(Pad2(week));
    NoSpaceAfterW(Pad2(week));
    HeadRegroup(y, Pad2(week), rest);
    TwoPieces(y, ww, rest);
  }

  /** Two separator-free words, each followed by a space, are the first two
      pieces. */
  lemma TwoPieces(a: string, b: string, rest: string)
    requires ' ' !in a && ' ' !in b
    ensures Split(a + [' '] + (b + [' '] + rest), ' ') == [a, b] + Split(rest, ' ')
  {
    SplitAfterFirst(a, b + [' '] + rest, ' ');
    SplitAfterFirst(b, rest, ' ');
  }

  lemma HeadRegroup(y: string, w: string, rest: string)
    ensures y + " W" + w + " " + rest == y + [' '] + (("W" + w) + [' '] + rest)
  {
  }

  lemma NoSpaceAfterW(w: string)
    requires ' ' !in w
    ensures ' ' !in "W" + w
  {
    assert forall k :: 1 <= k < |"W" + w| ==> ("W" + w)[k] == w[k - 1];
  }

  lemma NoSpaceInDigits(s: string)
    requires AllDigits(s)
    ensures ' ' !in s
  {
    forall k | 0 <= k < |s| ensures s[k] != ' ' {
      assert IsDigit(s[k]);
    }
  }

  /** Rolling a title the roll-forward wrote forward again keeps its label
      word for word and writes the new week behind it, provided the label
      has a space inside, no whitespace at its end and no `(dddd-dddd)` group. */
  lemma RollForwardKeepsLabel(week: nat, teamAndReport: string, monday: Date)
    requires IsRepresentable(monday) && IsRepresentable(AddDays(monday, 4))
    requires HasNoRange(teamAndReport) && ' ' in teamAndReport
    requires !IsSpace(teamAndReport[|teamAndReport| - 1])
    ensures var title := WeeklyTitleText(monday.year, week, teamAndReport, monday, AddDays(monday, 4));
            NextWeekTitle(title).Ok? ==>
              var (newTitle, next) := NextWeekTitle(title).value;
              IsValid(next) && 1 <= IsoWeekNumber(next) <= 53
              && newTitle == WeeklyTitleText(next.year, IsoWeekNumber(next), teamAndReport, next, AddDays(next, 4))
  {
    var friday := AddDays(monday, 4);
    var title := WeeklyTitleText(monday.year, week, teamAndReport, monday, friday);
    if NextWeekTitle(title).Ok? {
      WrittenTitlePrefix(monday.year, week, teamAndReport, monday, friday);
      WrittenPrefixPieces(monday.year, week, teamAndReport);
      RebuiltTitleShape(title);
    }
  }

  /** Rolling forward a title the roll-forward wrote for a Monday moves on
      exactly one week. */
  lemma RollForwardOneWeek(week: nat, teamAndReport: string, monday: Date)
    requires IsRepresentable(monday) && 1000 <= monday.year && Weekday(monday) == 0
    requires IsRepresentable(AddDays(monday, 4))
    requires HasNoRange(teamAndReport)
    ensures var title := WeeklyTitleText(monday.year, week, teamAndReport, monday, AddDays(monday, 4));
            NextWeekTitle(title).Ok? ==> Ordinal(NextWeekTitle(title).value.1) == Ordinal(monday) + 7
  {
    var friday := AddDays(monday, 4);
    RoundTrip(week, teamAndReport, monday);
    FridayOfWeek(monday);
    OneWeekOn(WeeklyTitleText(monday.year, week, teamAndReport, monday, friday), friday);
  }

  /** A title that names a Friday rolls forward to the Monday three days on. */
  lemma OneWeekOn(title: string, friday: Date)
    requires DateFromTitle(title) == Parsed(friday) && Weekday(friday) == 4
    ensures NextWeekTitle(title).Ok? ==> Ordinal(NextWeekTitle(title).value.1) == Ordinal(friday) + 3
  {
    MondayAfterFriday(friday);
  }

  /** The Monday after a Friday is three days on. */
  lemma MondayAfterFriday(friday: Date)
    requires IsValid(friday) && Weekday(friday) == 4
    ensures Ordinal(NextMondayAfter(friday)) == Ordinal(friday) + 3
  {
  }
}
