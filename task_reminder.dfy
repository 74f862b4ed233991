/**
 * The task reminder engine: a mapping from user id to that user's ordered
 * list of task records, the rules that turn an `MM-DD` text into a due date,
 * the status shown when tasks are listed, the reminders chosen when the user
 * is active, and the button actions (snooze, mark as done, delete, add back).
 */
module TaskReminder {
  import opened Wrappers
  import opened Calendar
  import opened Numerals

  type UserId = string

  /** A task record `{task, due_date, ignored_until}`; instants are in seconds. */
  datatype Task = Task(description: string, due: ValidDate, ignoredUntil: Option<int>)

  /** One line of the task listing: the description, its due date and its status. */
  datatype Row = Row(description: string, due: ValidDate, status: string)

  /** One reminder: the task's description and the days left until it is due. */
  datatype Reminder = Reminder(description: string, daysLeft: int)

  /** Why `add_task` adds nothing. */
  datatype AddError =
    | BadFormat   // "Invalid date format" (the outer ValueError handler)
    | BadDate     // "Invalid date" (the handler around the first date construction)
    | Unhandled   // `datetime.date` raises OverflowError, which neither handler catches

  /** What pressing a reminder button does. */
  datatype ButtonOutcome =
    | NotForYou     // someone other than the reminded user pressed it
    | MissingUser   // the user has no entry any more: the lookup raises KeyError
    | Applied

  const ReminderWindow := 5
  const Hour := 3600
  const Day := 86400
  const CIntMin := -2147483648
  const CIntMax := 2147483647

  /* ---------------------------------------------------------------------- */
  /* Due date resolution                                                     */
  /* ---------------------------------------------------------------------- */

  /** `month, day = map(int, text.split('-'))`: None stands for the ValueError. */
  function ParseMonthDay(text: string): (r: Option<(int, int)>)
    ensures r.Some? ==> forall c :: c in text ==> IsNumeralChar(c)
  {
    var parts := SplitOn(text, '-');
    if |parts| != 2 then None
    else
      match (ParseInt(parts[0]), ParseInt(parts[1]))
      case (Some(m), Some(d)) =>
        SplitOnJoin(text, '-');
        ParseIntSound(parts[0]);
        ParseIntSound(parts[1]);
        assert text == parts[0] + ['-'] + parts[1] by {
          assert parts[1..] == [parts[1]];
        }
        Some((m, d))
      case _ => None
  }

  /** A month and a day written as `str(m) + "-" + str(d)` read back as that pair. */
  lemma ParseMonthDayRoundTrip(m: nat, d: nat)
    ensures ParseMonthDay(ShowNat(m) + "-" + ShowNat(d)) == Some((m, d))
  {
    assert '-' !in ShowNat(m) && '-' !in ShowNat(d) by {
      assert !IsDigit('-');
    }
    SplitOnPair(ShowNat(m), ShowNat(d), '-');
    ParseShowNat(m);
    ParseShowNat(d);
  }

  /**
   * The due date `add_task` stores for the text `spec` on the day `today`:
   * this year's month/day unless that is before today, then next year's.
   */
  function ResolveDueDate(spec: string, today: ValidDate): (r: Result<ValidDate, AddError>)
    ensures r.Ok? ==> ParseMonthDay(spec) == Some((r.value.month, r.value.day))
    ensures r.Ok? ==> today.year <= r.value.year <= today.year + 1 && !Before(r.value, today)
  {
    match ParseMonthDay(spec)
    case None => Err(BadFormat)
    case Some((m, d)) =>
      if !(CIntMin <= m <= CIntMax && CIntMin <= d <= CIntMax) then Err(Unhandled)
      else if !IsValid(Date(today.year, m, d)) then Err(BadDate)
      else if !Before(Date(today.year, m, d), today) then Ok(Date(today.year, m, d))
      else if IsValid(Date(today.year + 1, m, d)) then Ok(Date(today.year + 1, m, d))
      else Err(BadFormat)
  }

  /**
   * An accepted due date has the requested month and day, is this year or
   * next, is not before today, and is the earliest such date: no valid date
   * with that month and day lies between today and it. It is accepted exactly
   * when this year's date exists and either is not past or also exists next year.
   */
  lemma ResolvedIsNextOccurrence(spec: string, today: ValidDate, m: int, d: int)
    requires ParseMonthDay(spec) == Some((m, d))
    requires CIntMin <= m <= CIntMax && CIntMin <= d <= CIntMax
    ensures ResolveDueDate(spec, today).Ok? <==>
              IsValid(Date(today.year, m, d)) &&
              (!Before(Date(today.year, m, d), today) || IsValid(Date(today.year + 1, m, d)))
    ensures ResolveDueDate(spec, today).Ok? ==>
              var due := ResolveDueDate(spec, today).value;
              && due.month == m && due.day == d
              && today.year <= due.year <= today.year + 1
              && !Before(due, today)
              && DaysBetween(today, due) >= 0
              && forall y :: (IsValid(Date(y, m, d)) && !Before(Date(y, m, d), today)) ==> !Before(Date(y, m, d), due)
  {
    var r := ResolveDueDate(spec, today);
    if r.Ok? {
      OrdinalOrder(today, r.value);
    }
  }

  /** A letter or any other stray character in either field is "Invalid date format". */
  lemma NonNumericRejected(spec: string, today: ValidDate, c: char)
    requires c in spec && !IsNumeralChar(c)
    ensures ResolveDueDate(spec, today) == Err(BadFormat)
  {
  }

  /** The month/day is checked before the year is: an impossible pair is `BadDate`. */
  lemma ImpossibleDateRejected(spec: string, today: ValidDate, m: int, d: int)
    requires ParseMonthDay(spec) == Some((m, d))
    requires CIntMin <= m <= CIntMax && CIntMin <= d <= CIntMax
    requires !(1 <= m <= 12) || d < 1 || d > DaysInMonth(2000, m)
    ensures ResolveDueDate(spec, today) == Err(BadDate)
  {
  }

  /* ---------------------------------------------------------------------- */
  /* Listing                                                                  */
  /* ---------------------------------------------------------------------- */

  /** `(task.due - today).days`. */
  function DaysLeft(t: Task, today: ValidDate): (n: int)
    ensures n < 0 <==> Before(t.due, today)
    ensures n == 0 <==> t.due == today
  {
    DaysBetween(today, t.due)
  }

  /** "N day(s) left": the text starts with the count, which reads back as N. */
  function DaysLeftText(n: nat): (s: string)
    ensures |ShowNat(n)| < |s| && ParseInt(s[..|ShowNat(n)|]) == Some(n)
  {
    var suffix := " day" + (if n != 1 then "s" else "") + " left";
    assert (ShowNat(n) + suffix)[..|ShowNat(n)|] == ShowNat(n);
    ParseShowNat(n);
    ShowNat(n) + suffix
  }

  /** The status shown beside a task in the listing. */
  function Status(daysLeft: int): string {
    if daysLeft < 0 then "Overdue"
    else if daysLeft == 0 then "Due today"
    else DaysLeftText(daysLeft)
  }

  /**
   * "Overdue" exactly for negative day counts, "Due today" exactly for zero,
   * otherwise the count itself followed by "day left" when it is one and
   * "days left" when it is more.
   */
  lemma StatusCases(n: int)
    ensures Status(n) == "Overdue" <==> n < 0
    ensures Status(n) == "Due today" <==> n == 0
    ensures n > 0 ==> (Status(n) == ShowNat(n) + " day left" <==> n == 1)
    ensures n > 0 ==> (Status(n) == ShowNat(n) + " days left" <==> n != 1)
  {
    if n > 0 {
      var digits := ShowNat(n);
      var suffix := if n != 1 then " days left" else " day left";
      assert Status(n) == digits + suffix by {
        assert " day" + (if n != 1 then "s" else "") + " left" == suffix;
      }
      DigitsNotStatusWord(digits, suffix);
      assert |digits + " day left"| == |digits| + 9;
      assert |digits + " days left"| == |digits| + 10;
    }
  }

  /** A text starting with a digit is neither status word. */
  lemma DigitsNotStatusWord(digits: string, suffix: string)
    requires |digits| >= 1 && IsDigit(digits[0])
    ensures digits + suffix != "Overdue" && digits + suffix != "Due today"
  {
    assert (digits + suffix)[0] == digits[0];
  }

  /** The number in a positive status reads back as the day count. */
  lemma StatusCountReadsBack(n: int)
    requires n > 0
    ensures ParseInt(Status(n)[..|ShowNat(n)|]) == Some(n)
  {
    var s := Status(n);
    assert s == ShowNat(n) + (" day" + (if n != 1 then "s" else "") + " left");
    assert s[..|ShowNat(n)|] == ShowNat(n);
    ParseShowNat(n);
  }

  /** A task is listed as "Overdue" exactly when its due date is before today. */
  lemma StatusFollowsDueDate(t: Task, today: ValidDate)
    ensures Status(DaysLeft(t, today)) == "Overdue" <==> Before(t.due, today)
    ensures Status(DaysLeft(t, today)) == "Due today" <==> t.due == today
  {
    OrdinalOrder(t.due, today);
    StatusCases(DaysLeft(t, today));
  }

  /** A task just added by `add_task` is never listed as overdue on that day. */
  lemma AddedTaskNotOverdue(spec: string, today: ValidDate, description: string)
    requires ResolveDueDate(spec, today).Ok?
    ensures Status(DaysLeft(Task(description, ResolveDueDate(spec, today).value, None), today)) != "Overdue"
  {
    var due := ResolveDueDate(spec, today).value;
    var m, d := due.month, due.day;
    assert ParseMonthDay(spec).Some?;
    ResolvedIsNextOccurrence(spec, today, ParseMonthDay(spec).value.0, ParseMonthDay(spec).value.1);
    StatusFollowsDueDate(Task(description, due, None), today);
  }

  /* ---------------------------------------------------------------------- */
  /* Reminders                                                                */
  /* ---------------------------------------------------------------------- */

  /** `ignored_until` lies in the future: `now > ignored_until` fails. */
  predicate IsSnoozed(t: Task, now: int) {
    t.ignoredUntil.Some? && now <= t.ignoredUntil.value
  }

  predicate InWindow(t: Task, today: ValidDate) {
    0 <= DaysLeft(t, today) <= ReminderWindow
  }

  predicate IsDue(t: Task, today: ValidDate, now: int) {
    InWindow(t, today) && !IsSnoozed(t, now)
  }

  function ReminderFor(t: Task, today: ValidDate): Reminder {
    Reminder(t.description, DaysLeft(t, today))
  }

  /** The reminders for a task list, in list order. */
  function DueReminders(ts: seq<Task>, today: ValidDate, now: int): (r: seq<Reminder>)
    ensures |r| <= |ts|
  {
    if ts == [] then []
    else
      var last := ts[|ts| - 1];
      DueReminders(ts[..|ts| - 1], today, now) + (if IsDue(last, today, now) then [ReminderFor(last, today)] else [])
  }

  /**
   * One reminder per task in the reminder window that is not snoozed, and
   * nothing else: each reminder comes from such a task, and each such task is
   * reminded.
   */
  lemma {:induction false} DueRemindersExact(ts: seq<Task>, today: ValidDate, now: int)
    ensures forall x :: x in DueReminders(ts, today, now) ==> 0 <= x.daysLeft <= ReminderWindow
    ensures forall x :: x in DueReminders(ts, today, now) ==>
              exists t :: t in ts && IsDue(t, today, now) && x == ReminderFor(t, today)
    ensures forall t :: t in ts && IsDue(t, today, now) ==> ReminderFor(t, today) in DueReminders(ts, today, now)
  {
    if ts != [] {
      var init := ts[..|ts| - 1];
      var last := ts[|ts| - 1];
      DueRemindersExact(init, today, now);
      assert ts == init + [last];
      assert forall t :: t in ts <==> t in init || t == last;
    }
  }

  /** Reminders of a concatenation are the concatenated reminders: order is kept. */
  lemma {:induction false} DueRemindersAppend(a: seq<Task>, b: seq<Task>, today: ValidDate, now: int)
    ensures DueReminders(a + b, today, now) == DueReminders(a, today, now) + DueReminders(b, today, now)
    decreases |b|
  {
    if b == [] {
      assert a + b == a;
    } else {
      var b0 := b[..|b| - 1];
      assert (a + b)[..|a + b| - 1] == a + b0;
      assert (a + b)[|a + b| - 1] == b[|b| - 1];
      DueRemindersAppend(a, b0, today, now);
    }
  }

  /* ---------------------------------------------------------------------- */
  /* Snooze, done, delete, add back: the new task lists                       */
  /* ---------------------------------------------------------------------- */

  /** Each task whose description was reminded gets `ignored_until := until`. */
  function SnoozeMatching(ts: seq<Task>, reminded: seq<string>, until: int): (r: seq<Task>)
    ensures |r| == |ts|
    ensures forall i :: 0 <= i < |ts| ==>
              && r[i].description == ts[i].description
              && r[i].due == ts[i].due
              && r[i].ignoredUntil == (if ts[i].description in reminded then Some(until) else ts[i].ignoredUntil)
  {
    if ts == [] then []
    else
      var init := SnoozeMatching(ts[..|ts| - 1], reminded, until);
      var last := ts[|ts| - 1];
      init + [if last.description in reminded then last.(ignoredUntil := Some(until)) else last]
  }

  /**
   * A snoozed task stays silent up to and including the snooze instant and is
   * reminded again (if still in its window) once that instant has passed.
   */
  lemma SnoozeSuppresses(ts: seq<Task>, reminded: seq<string>, until: int, i: int, today: ValidDate, now: int)
    requires 0 <= i < |ts| && ts[i].description in reminded
    ensures now <= until ==> !IsDue(SnoozeMatching(ts, reminded, until)[i], today, now)
    ensures now > until ==> (IsDue(SnoozeMatching(ts, reminded, until)[i], today, now) <==> InWindow(ts[i], today))
  {
  }

  /** "Mark as done": keep exactly the tasks whose description was not reminded. */
  function Done(ts: seq<Task>, reminded: seq<string>): (r: seq<Task>)
    ensures |r| <= |ts|
    ensures forall k :: 0 <= k < |r| ==> r[k].description !in reminded
  {
    if ts == [] then []
    else
      var init := ts[..|ts| - 1];
      var last := ts[|ts| - 1];
      Done(init, reminded) + (if last.description in reminded then [] else [last])
  }

  /** Every occurrence of a task not reminded is kept, and of a reminded one none. */
  lemma {:induction false} DoneCounts(ts: seq<Task>, reminded: seq<string>, t: Task)
    ensures multiset(Done(ts, reminded))[t] == if t.description in reminded then 0 else multiset(ts)[t]
  {
    if ts != [] {
      var init := ts[..|ts| - 1];
      var last := ts[|ts| - 1];
      assert ts == init + [last];
      DoneCounts(init, reminded, t);
    }
  }

  /** Done keeps the relative order of what it keeps. */
  lemma {:induction false} DoneAppend(a: seq<Task>, b: seq<Task>, reminded: seq<string>)
    ensures Done(a + b, reminded) == Done(a, reminded) + Done(b, reminded)
    decreases |b|
  {
    if b == [] {
      assert a + b == a;
    } else {
      var b0 := b[..|b| - 1];
      assert (a + b)[..|a + b| - 1] == a + b0;
      assert (a + b)[|a + b| - 1] == b[|b| - 1];
      DoneAppend(a, b0, reminded);
    }
  }

  function UserTasks(m: map<UserId, seq<Task>>, u: UserId): seq<Task> {
    if u in m then m[u] else []
  }

  /** The store after `t` is appended to `u`'s list, which is created if absent. */
  function WithAppended(m: map<UserId, seq<Task>>, u: UserId, t: Task): (r: map<UserId, seq<Task>>)
    ensures r.Keys == m.Keys + {u}
    ensures forall v :: v in m && v != u ==> r[v] == m[v]
    ensures |r[u]| == |UserTasks(m, u)| + 1 && r[u][..|r[u]| - 1] == UserTasks(m, u) && r[u][|r[u]| - 1] == t
  {
    m[u := UserTasks(m, u) + [t]]
  }

  /** The store after the task at `i` is deleted; an emptied list loses its key. */
  function WithoutIndex(m: map<UserId, seq<Task>>, u: UserId, i: nat): (r: map<UserId, seq<Task>>)
    requires u in m && i < |m[u]|
    ensures u in r <==> |m[u]| > 1
    ensures r.Keys <= m.Keys
    ensures forall v :: v in m && v != u ==> v in r && r[v] == m[v]
    ensures u in r ==> |r[u]| == |m[u]| - 1 && multiset(r[u]) + multiset{m[u][i]} == multiset(m[u])
    ensures u in r ==> forall j :: 0 <= j < |r[u]| ==> r[u][j] == if j < i then m[u][j] else m[u][j + 1]
  {
    var ts := m[u];
    var rest := ts[..i] + ts[i + 1..];
    assert ts == ts[..i] + [ts[i]] + ts[i + 1..];
    if rest == [] then m - {u} else m[u := rest]
  }

  /**
   * Deleting the task at `i` and adding it back restores the user's tasks as a
   * multiset (the task now comes last), the set of users, and every other list.
   */
  lemma DeleteThenAddBack(m: map<UserId, seq<Task>>, u: UserId, i: nat)
    requires u in m && i < |m[u]|
    ensures var r := WithAppended(WithoutIndex(m, u, i), u, m[u][i]);
              && r.Keys == m.Keys
              && r[u] == m[u][..i] + m[u][i + 1..] + [m[u][i]]
              && multiset(r[u]) == multiset(m[u])
              && forall v :: v in m && v != u ==> r[v] == m[v]
  {
    var ts := m[u];
    assert ts == ts[..i] + [ts[i]] + ts[i + 1..];
    var d := WithoutIndex(m, u, i);
    assert UserTasks(d, u) == ts[..i] + ts[i + 1..];
  }

  /* ---------------------------------------------------------------------- */
  /* Worked examples                                                          */
  /* ---------------------------------------------------------------------- */

  /** A two-digit field such as "07" reads as its value. */
  lemma ParseTwoDigits(a: char, b: char)
    requires IsDigit(a) && IsDigit(b)
    ensures ParseInt([a, b]) == Some(10 * DigitValue(a) + DigitValue(b))
  {
    assert !IsSpace(a) && !IsSpace(b);
    assert TrimStart([a, b]) == [a, b];
    assert TrimEnd([a, b]) == [a, b];
    assert [a, b][..1] == [a];
    assert DigitsValue([a]) == Some(DigitValue(a));
    assert DigitsValue([a, b]) == Some(10 * DigitValue(a) + DigitValue(b));
  }

  /** `"MM-DD"` written with two digits each reads as the pair of numbers. */
  lemma ParseMMDD(m1: char, m2: char, d1: char, d2: char)
    requires IsDigit(m1) && IsDigit(m2) && IsDigit(d1) && IsDigit(d2)
    ensures ParseMonthDay([m1, m2, '-', d1, d2])
              == Some((10 * DigitValue(m1) + DigitValue(m2), 10 * DigitValue(d1) + DigitValue(d2)))
  {
    assert [m1, m2, '-', d1, d2] == [m1, m2] + ['-'] + [d1, d2];
    SplitOnPair([m1, m2], [d1, d2], '-');
    ParseTwoDigits(m1, m2);
    ParseTwoDigits(d1, d2);
  }

  /** On 2024-06-01, "01-01" has passed this year and means 2025-01-01. */
  lemma ResolvePassedDate()
    ensures ResolveDueDate("01-01", Date(2024, 6, 1)) == Ok(Date(2025, 1, 1))
  {
    ParseMMDD('0', '1', '0', '1');
  }

  /** On 2024-06-01, "12-25" is still ahead and stays in 2024. */
  lemma ResolveComingDate()
    ensures ResolveDueDate("12-25", Date(2024, 6, 1)) == Ok(Date(2024, 12, 25))
  {
    ParseMMDD('1', '2', '2', '5');
  }

  /** Today itself is not in the past. */
  lemma ResolveToday()
    ensures ResolveDueDate("06-01", Date(2024, 6, 1)) == Ok(Date(2024, 6, 1))
  {
    ParseMMDD('0', '6', '0', '1');
  }

  /** Feb 30 never exists: "Invalid date". */
  lemma ResolveImpossibleDate()
    ensures ResolveDueDate("02-30", Date(2024, 6, 1)) == Err(BadDate)
  {
    ParseMMDD('0', '2', '3', '0');
  }

  /**
   * On 2024-03-01 "02-29" has passed and 2025 has no Feb 29: the second date
   * construction fails and the outer handler answers "Invalid date format".
   */
  lemma ResolveLeapDayRollover()
    ensures ResolveDueDate("02-29", Date(2024, 3, 1)) == Err(BadFormat)
    ensures ResolveDueDate("02-29", Date(2024, 2, 1)) == Ok(Date(2024, 2, 29))
  {
    ParseMMDD('0', '2', '2', '9');
  }

  /** A text with no '-' at all is "Invalid date format". */
  lemma ResolveNoSeparator(text: string, today: ValidDate)
    requires '-' !in text
    ensures ResolveDueDate(text, today) == Err(BadFormat)
  {
    SplitOnNone(text, '-');
  }

  /** "ab-12" on any day: `int("ab")` raises ValueError. */
  lemma ResolveLetters(today: ValidDate)
    ensures ResolveDueDate("ab-12", today) == Err(BadFormat)
  {
    NonNumericRejected("ab-12", today, 'a');
  }

  /** A leading U+001C is not whitespace to `int()`: "Invalid date format". */
  lemma ResolveFileSeparator()
    ensures ResolveDueDate([28 as char] + "12-25", Date(2024, 6, 1)) == Err(BadFormat)
  {
    NonNumericRejected([28 as char] + "12-25", Date(2024, 6, 1), 28 as char);
  }

  lemma DueRemindersSingle(t: Task, today: ValidDate, now: int)
    ensures DueReminders([t], today, now) == if IsDue(t, today, now) then [ReminderFor(t, today)] else []
  {
    assert [t][..0] == [];
  }

  lemma DueRemindersPair(t: Task, u: Task, today: ValidDate, now: int)
    ensures DueReminders([t, u], today, now) == DueReminders([t], today, now) + DueReminders([u], today, now)
  {
    assert [t, u] == [t] + [u];
    DueRemindersAppend([t], [u], today, now);
  }

  /** Within one month, the days left are the difference of the days of the month. */
  lemma SameMonthDaysLeft(t: Task, today: ValidDate)
    requires t.due.year == today.year && t.due.month == today.month
    ensures DaysLeft(t, today) == t.due.day - today.day
  {
  }

  /** "Report" is due in 3 days and "Laundry" in 10: only "Report" is reminded. */
  lemma ReminderScenario(now: int)
    ensures DueReminders([Task("Report", Date(2024, 6, 4), None), Task("Laundry", Date(2024, 6, 11), None)],
                         Date(2024, 6, 1), now)
            == [Reminder("Report", 3)]
  {
    var today := Date(2024, 6, 1);
    var report := Task("Report", Date(2024, 6, 4), None);
    var laundry := Task("Laundry", Date(2024, 6, 11), None);
    SameMonthDaysLeft(report, today);
    SameMonthDaysLeft(laundry, today);
    DueRemindersPair(report, laundry, today, now);
    DueRemindersSingle(report, today, now);
    DueRemindersSingle(laundry, today, now);
  }

  /** After "Ignore for today" at T, "Report" is silent through T + 24h and reminded after. */
  lemma SnoozedScenario(T: int, now: int)
    ensures var snoozed := SnoozeMatching([Task("Report", Date(2024, 6, 4), None), Task("Laundry", Date(2024, 6, 11), None)],
                                          ["Report"], T + Day);
            && (now <= T + Day ==> DueReminders(snoozed, Date(2024, 6, 1), now) == [])
            && (now > T + Day ==> DueReminders(snoozed, Date(2024, 6, 1), now) == [Reminder("Report", 3)])
  {
    var today := Date(2024, 6, 1);
    var report := Task("Report", Date(2024, 6, 4), Some(T + Day));
    var laundry := Task("Laundry", Date(2024, 6, 11), None);
    var snoozed := SnoozeMatching([Task("Report", Date(2024, 6, 4), None), laundry], ["Report"], T + Day);
    assert snoozed == [report, laundry];
    SameMonthDaysLeft(report, today);
    SameMonthDaysLeft(laundry, today);
    DueRemindersPair(report, laundry, today, now);
    DueRemindersSingle(report, today, now);
    DueRemindersSingle(laundry, today, now);
  }

  /* ---------------------------------------------------------------------- */
  /* The cog                                                                  */
  /* ---------------------------------------------------------------------- */

  class TaskReminderCog {
    var tasks: map<UserId, seq<Task>>

    /** A missing tasks file gives an empty store. */
    constructor ()
      ensures tasks == map[]
    {
      tasks := map[];
    }

    /** `/add_task`: resolve the due date, then append the task to the user's list. */
    method AddTask(user: UserId, description: string, dueSpec: string, today: ValidDate)
      returns (r: Result<ValidDate, AddError>)
      modifies this
      ensures r == ResolveDueDate(dueSpec, today)
      ensures r.Ok? ==> tasks == WithAppended(old(tasks), user, Task(description, r.value, None))
      ensures r.Err? ==> tasks == old(tasks)
    {
      r := ResolveDueDate(dueSpec, today);
      if r.Ok? {
        if user !in tasks {
          tasks := tasks[user := []];
        }
        tasks := tasks[user := tasks[user] + [Task(description, r.value, None)]];
      }
    }

    /** `/view_tasks`: one row per task, in list order; no rows is "No tasks found". */
    method ViewTasks(member: UserId, today: ValidDate) returns (rows: seq<Row>)
      ensures |rows| == |UserTasks(tasks, member)|
      ensures forall k :: 0 <= k < |rows| ==>
                var t := UserTasks(tasks, member)[k];
                rows[k] == Row(t.description, t.due, Status(DaysLeft(t, today)))
    {
      rows := [];
      if member !in tasks || tasks[member] == [] {
        return;
      }
      var ts := tasks[member];
      var i := 0;
      while i < |ts|
        invariant 0 <= i <= |ts|
        invariant |rows| == i
        invariant forall k :: 0 <= k < i ==>
                    rows[k] == Row(ts[k].description, ts[k].due, Status(DaysLeft(ts[k], today)))
      {
        var t := ts[i];
        var daysLeft := DaysBetween(today, t.due);
        var status;
        if daysLeft < 0 {
          status := "Overdue";
        } else if daysLeft == 0 {
          status := "Due today";
        } else {
          status := DaysLeftText(daysLeft);
        }
        rows := rows + [Row(t.description, t.due, status)];
        i := i + 1;
      }
    }

    /** The `on_message` listener: the reminders due for the message's author. */
    method OnMessage(authorIsBot: bool, user: UserId, today: ValidDate, now: int)
      returns (reminders: seq<Reminder>)
      ensures reminders == if authorIsBot || user !in tasks then [] else DueReminders(tasks[user], today, now)
    {
      reminders := [];
      if authorIsBot || user !in tasks {
        return;
      }
      var ts := tasks[user];
      var i := 0;
      while i < |ts|
        invariant 0 <= i <= |ts|
        invariant reminders == DueReminders(ts[..i], today, now)
      {
        var t := ts[i];
        var daysLeft := DaysBetween(today, t.due);
        assert ts[..i + 1][..i] == ts[..i];
        assert DueReminders(ts[..i + 1], today, now)
                 == DueReminders(ts[..i], today, now) + (if IsDue(t, today, now) then [ReminderFor(t, today)] else []);
        if 0 <= daysLeft <= ReminderWindow && (t.ignoredUntil.None? || now > t.ignoredUntil.value) {
          reminders := reminders + [Reminder(t.description, daysLeft)];
        }
        i := i + 1;
      }
      assert ts[..i] == ts;
    }

    /** The two "Ignore" buttons: snooze the reminded tasks until `until`. */
    method SnoozeUntil(presser: UserId, owner: UserId, reminded: seq<string>, until: int)
      returns (outcome: ButtonOutcome)
      modifies this
      ensures outcome == if presser != owner then NotForYou else if owner !in old(tasks) then MissingUser else Applied
      ensures outcome == Applied ==> tasks == old(tasks)[owner := SnoozeMatching(old(tasks)[owner], reminded, until)]
      ensures outcome != Applied ==> tasks == old(tasks)
    {
      if presser != owner {
        return NotForYou;
      }
      if owner !in tasks {
        return MissingUser;
      }
      var ts := tasks[owner];
      var i := 0;
      while i < |ts|
        invariant 0 <= i <= |ts|
        invariant |ts| == |old(tasks)[owner]|
        invariant forall k :: 0 <= k < i ==> ts[k] == SnoozeMatching(old(tasks)[owner], reminded, until)[k]
        invariant forall k :: i <= k < |ts| ==> ts[k] == old(tasks)[owner][k]
      {
        if ts[i].description in reminded {
          ts := ts[i := ts[i].(ignoredUntil := Some(until))];
        }
        i := i + 1;
      }
      assert ts == SnoozeMatching(old(tasks)[owner], reminded, until);
      tasks := tasks[owner := ts];
      outcome := Applied;
    }

    /** "Ignore for 1 hour". */
    method IgnoreForHour(presser: UserId, owner: UserId, reminded: seq<string>, now: int)
      returns (outcome: ButtonOutcome)
      modifies this
      ensures outcome == if presser != owner then NotForYou else if owner !in old(tasks) then MissingUser else Applied
      ensures outcome == Applied ==> tasks == old(tasks)[owner := SnoozeMatching(old(tasks)[owner], reminded, now + Hour)]
      ensures outcome != Applied ==> tasks == old(tasks)
    {
      outcome := SnoozeUntil(presser, owner, reminded, now + Hour);
    }

    /** "Ignore for today": 24 hours from now. */
    method IgnoreForDay(presser: UserId, owner: UserId, reminded: seq<string>, now: int)
      returns (outcome: ButtonOutcome)
      modifies this
      ensures outcome == if presser != owner then NotForYou else if owner !in old(tasks) then MissingUser else Applied
      ensures outcome == Applied ==> tasks == old(tasks)[owner := SnoozeMatching(old(tasks)[owner], reminded, now + Day)]
      ensures outcome != Applied ==> tasks == old(tasks)
    {
      outcome := SnoozeUntil(presser, owner, reminded, now + Day);
    }

    /** "Mark as done": the reminded tasks leave the list; an emptied list keeps its key. */
    method MarkDone(presser: UserId, owner: UserId, reminded: seq<string>)
      returns (outcome: ButtonOutcome)
      modifies this
      ensures outcome == if presser != owner then NotForYou else if owner !in old(tasks) then MissingUser else Applied
      ensures outcome == Applied ==> tasks == old(tasks)[owner := Done(old(tasks)[owner], reminded)]
      ensures outcome != Applied ==> tasks == old(tasks)
    {
      if presser != owner {
        return NotForYou;
      }
      if owner !in tasks {
        return MissingUser;
      }
      tasks := tasks[owner := Done(tasks[owner], reminded)];
      outcome := Applied;
    }

    /**
     * Choosing a task in the delete menu: the task at `index` is removed and
     * returned for "Add it back". A stale user or index raises in the source
     * and changes nothing.
     */
    method DeleteAt(user: UserId, index: nat) returns (removed: Option<Task>)
      modifies this
      ensures removed.Some? <==> user in old(tasks) && index < |old(tasks)[user]|
      ensures removed.Some? ==> removed.value == old(tasks)[user][index]
                                && tasks == WithoutIndex(old(tasks), user, index)
      ensures removed.None? ==> tasks == old(tasks)
    {
      if user !in tasks || index >= |tasks[user]| {
        return None;
      }
      var selected := tasks[user][index];
      tasks := tasks[user := tasks[user][..index] + tasks[user][index + 1..]];
      if tasks[user] == [] {
        tasks := tasks - {user};
      }
      removed := Some(selected);
    }
  }

  /** The "Add it back" button offered after a deletion; it disappears once pressed. */
  class AddBackButton {
    const cog: TaskReminderCog
    const user: UserId
    const task: Task
    var shown: bool

    constructor (cog: TaskReminderCog, user: UserId, task: Task)
      ensures this.cog == cog && this.user == user && this.task == task && shown
    {
      this.cog := cog;
      this.user := user;
      this.task := task;
      shown := true;
    }

    method Press() returns (restored: bool)
      modifies this, cog
      ensures restored == old(shown) && !shown
      ensures restored ==> cog.tasks == WithAppended(old(cog.tasks), user, task)
      ensures !restored ==> cog.tasks == old(cog.tasks)
    {
      restored := shown;
      if shown {
        if user !in cog.tasks {
          cog.tasks := cog.tasks[user := []];
        }
        cog.tasks := cog.tasks[user := cog.tasks[user] + [task]];
        shown := false;
      }
    }
  }
}
