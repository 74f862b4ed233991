# ianland-bot core in Dafny

This project models three cogs of a Discord bot and proves properties about them.

- **Task reminders** (`cogs/task_reminder.py`). Each user has a list of tasks, and each task has a description, a due date and an optional snooze instant.
  - `/add_task` turns an `MM-DD` text into this year's date with that month and day, or next year's when this year's is already past. The text is rejected when this year's date does not exist, or when it is past and next year's does not exist (so `02-29` on 2023-01-01 is "Invalid date", although 2024-02-29 exists).
  - `/view_tasks` lists each task with its status: "Overdue", "Due today" or "N day(s) left".
  - Any message from the user triggers a reminder for each task due within 5 days, unless that task is snoozed.
  - The reminder's buttons snooze the reminded tasks for an hour or a day, or mark them done.
  - Deleting a task offers an "Add it back" button.
- **Daily appreciations** (`cogs/appreciation.py`).
  - Each guild keeps a dict of the day's appreciation per user, in insertion order. `/appreciate` and `/show_appreciations` first remove the entries not dated today. `/saved_appreciations`, the form's submission and the view's "Save" and "Next" do not clean.
  - `/appreciate` either offers to edit or opens the form. Submitting the form stores the text under today's date.
  - `/show_appreciations` picks one of today's appreciations. Its view can save an appreciation to a duplicate-free per-user list, or show another one not yet seen.
  - The saved list has a wrap-around pager and a two-press "Forget".
- **Pikmin names** (`cogs/pikmin.py`). `/coloured_name` wraps a name in Unity rich-text tags. The colour is lower-cased and looked up in a table of 18 named colours, and one leading `#` is stripped.

Files:

- `wrappers.dfy`: `Option` and `Result`.
- `calendar.dfy`: dates of the proleptic Gregorian calendar, years 1 to 9999, as Python's `datetime.date` treats them.
  - Day counts use the ordinal CPython computes.
  - It proves that ordinal order is date order, so `(a - b).days` and `a < b` agree.
- `numerals.dfy`: the parts of Python's `str.split`, `int()` and `str()` that the date parser uses, with round-trip lemmas.
- `task_reminder.dfy`: the task store as a map from user id to a list of tasks.
  - Pure specification functions: due-date resolution, status, reminder selection, snooze, done, delete.
  - The mutable state as a class: `TaskReminderCog`, and `AddBackButton`.
- `appreciation.dfy`: per-guild ordered dicts as association lists, and the cleaning and lookup functions on them.
  - Three classes: `AppreciationCog`, `AppreciationView` (today's appreciations) and `SavedAppreciationView` (the pager).
- `pikmin.dfy`: the colour table and `ColouredName`, a pure function, with its layout and colour-code lemmas.

Clocks and time zones are not modelled. Today's date (`today`) and the current instant (`now`, in seconds) are parameters. Random choices are arbitrary picks (`:|`) from the candidates.

Where the code and its description disagree, the model follows the code:

- A snooze is lifted only when `now > ignored_until` holds. At the snooze instant itself the task is still silent.
- "Mark as done" keeps a user's key even when that user's list becomes empty. Only deletion removes an emptied list.
- `02-29` entered after Feb 29 of a leap year gives Feb 29 of the next year, which does not exist. That `ValueError` is caught by the outer handler, so the bot answers "Invalid date format", not "Invalid date".
- A month or day beyond the C `int` range makes `datetime.date` raise `OverflowError`. Neither handler catches it. It is modelled as `Unhandled`, with the store unchanged.
- Only one `#` is stripped, so a colour written `##abc` still yields a `<color=##...>` tag. "The tag never starts with `##`" holds only for colours that do not start with `##`.

## Model

| member | source | states |
|---|---|---|
| Calendar.LeapDay | cogs/task_reminder.py:36 | `datetime.date(y, 2, 29)` succeeds exactly for a leap year in 1..9999, and `datetime.date(y, 2, 28)` for every year in 1..9999 |
| Calendar.DaysBetween | cogs/task_reminder.py:74 | `(b - a).days` is negative exactly when b is before a, zero exactly when they are the same date, and positive exactly when a is before b |
| Calendar.IsValid | cogs/task_reminder.py:36 | no contract of its own: the year, month and day checks of the `datetime.date` constructor; `LeapDay` states the February case |
| Calendar.Before | cogs/task_reminder.py:41 | no contract of its own: `date < date` as a comparison of (year, month, day); `OrdinalOrder` ties it to the day count |
| Calendar.OrdinalOrder | cogs/task_reminder.py:41 | one date is before another exactly when its day ordinal is smaller, and two dates are equal exactly when their ordinals are; so `due_date < current_date` and a negative `(due - today).days` agree |
| Calendar.YearsBefore | cogs/task_reminder.py:74 | all days of an earlier year come before the first day of a later year |
| Calendar.MonthsBefore | cogs/task_reminder.py:74 | all days of an earlier month come before the first day of a later month of the same year |
| Calendar.OrdinalBefore | cogs/task_reminder.py:41 | a lexicographically earlier date has a strictly smaller ordinal |
| Numerals.TrimStart | cogs/task_reminder.py:33 | `int()` skips leading whitespace (tab, line feed, vertical tab, form feed, carriage return, space): the result is no longer than the input and does not start with one of them |
| Numerals.TrimStartSuffix | cogs/task_reminder.py:33 | what leading trimming leaves is a suffix of the text, and every character it dropped is whitespace |
| Numerals.TrimEnd | cogs/task_reminder.py:33 | `int()` skips trailing whitespace (the same six characters): the result is no longer than the input and does not end with one of them |
| Numerals.TrimEndPrefix | cogs/task_reminder.py:33 | what trailing trimming leaves is a prefix of the text, and every character it dropped is whitespace |
| Numerals.SplitOn | cogs/task_reminder.py:33 | `split('-')` always gives at least one piece; the pieces themselves are stated by `SplitOnJoin`, `SplitOnPair` and `SplitOnNone` |
| Numerals.SplitOnJoin | cogs/task_reminder.py:33 | `split('-')` loses nothing: joining the pieces with `-` gives back the text, and no piece contains `-` |
| Numerals.SplitOnPair | cogs/task_reminder.py:33 | a text with exactly one `-` splits into the part before it and the part after it |
| Numerals.SplitOnNone | cogs/task_reminder.py:33 | a text without `-` splits into itself alone, and a leading `-` gives an empty first piece |
| Numerals.ShowNat | cogs/task_reminder.py:81 | `str(n)` is a non-empty run of decimal digits, with no leading zero for a positive n |
| Numerals.DigitsValueSound | cogs/task_reminder.py:33 | an accepted digit string holds only digits and underscores |
| Numerals.ParseIntSound | cogs/task_reminder.py:33 | `int(s)` raises ValueError whenever s holds a character other than a digit, tab, line feed, vertical tab, form feed, carriage return or space, `+`, `-` or `_` |
| Numerals.ParseInt | cogs/task_reminder.py:33 | no contract of its own: `int()` on whitespace, an optional sign and digits with single underscores; `ParseShowNat` and `ParseIntSound` state what it accepts and rejects |
| Numerals.ParseShowNat | cogs/task_reminder.py:33 | `int(str(n)) == n` for every natural number |
| TaskReminder.ParseMonthDay | cogs/task_reminder.py:33 | an accepted `MM-DD` text holds only digits, the six whitespace characters `int()` skips, `+`, `-` and `_` |
| TaskReminder.NonNumericRejected | cogs/task_reminder.py:33-46 | a due-date text holding a letter or any other stray character is answered "Invalid date format" |
| TaskReminder.ResolveLetters | cogs/task_reminder.py:33-46 | `ab-12` is "Invalid date format" on any day |
| TaskReminder.ResolveFileSeparator | cogs/task_reminder.py:33-46 | a field led by U+001C, which `int()` does not skip as whitespace, is "Invalid date format" |
| TaskReminder.ResolveDueDate | cogs/task_reminder.py:33-47 | an accepted due date has the parsed month and day, lies in this year or the next, and is not before today |
| TaskReminder.ParseMonthDayRoundTrip | cogs/task_reminder.py:33 | `"<m>-<d>"` is read back as the pair `(m, d)` |
| TaskReminder.ResolvedIsNextOccurrence | cogs/task_reminder.py:33-47 | the date is accepted exactly when this year's date exists and is not past, or next year's date exists too. An accepted date has the requested month and day, is this year or next, is not before today, and comes no later than any valid date with that month and day that is not before today |
| TaskReminder.ImpossibleDateRejected | cogs/task_reminder.py:35-40 | a month outside 1..12, or a day outside what the month ever holds, answers "Invalid date" whatever the year |
| TaskReminder.ResolvePassedDate | cogs/task_reminder.py:41-42 | on 2024-06-01, `01-01` resolves to 2025-01-01 |
| TaskReminder.ResolveComingDate | cogs/task_reminder.py:36-41 | on 2024-06-01, `12-25` resolves to 2024-12-25 |
| TaskReminder.ResolveToday | cogs/task_reminder.py:41 | today's own month and day resolve to today: a date equal to today is not "past" |
| TaskReminder.ResolveImpossibleDate | cogs/task_reminder.py:35-40 | `02-30` is "Invalid date" |
| TaskReminder.ResolveLeapDayRollover | cogs/task_reminder.py:41-46 | `02-29` on 2024-03-01 is "Invalid date format", because 2025 has no Feb 29; on 2024-02-01 it is 2024-02-29 |
| TaskReminder.ResolveNoSeparator | cogs/task_reminder.py:33-47 | a text with no `-` is "Invalid date format" |
| TaskReminder.ParseTwoDigits | cogs/task_reminder.py:33 | a two-digit field such as `07` reads as its decimal value |
| TaskReminder.ParseMMDD | cogs/task_reminder.py:33 | `MM-DD` written with two digits each reads as the pair of numbers |
| TaskReminder.DaysLeft | cogs/task_reminder.py:74 | the days left are negative exactly when the task is due before today, and zero exactly when it is due today |
| TaskReminder.DaysLeftText | cogs/task_reminder.py:81 | the text begins with the count, which `int()` reads back as that count |
| TaskReminder.Status | cogs/task_reminder.py:76-81 | no contract of its own: the three branches of the listing's status; what they promise is stated by `StatusCases` and `StatusFollowsDueDate` |
| TaskReminder.StatusCases | cogs/task_reminder.py:76-81 | the status is "Overdue" exactly for negative counts and "Due today" exactly for zero; a positive count is its digits followed by " day left" exactly when it is 1, and by " days left" exactly when it is not |
| TaskReminder.StatusCountReadsBack | cogs/task_reminder.py:81 | the number at the start of a positive status reads back as the day count |
| TaskReminder.StatusFollowsDueDate | cogs/task_reminder.py:73-79 | a task is "Overdue" exactly when its due date is before today, and "Due today" exactly when it is today |
| TaskReminder.AddedTaskNotOverdue | cogs/task_reminder.py:41-53 | a task that `/add_task` has just stored is not listed as overdue that day |
| TaskReminder.IsSnoozed | cogs/task_reminder.py:102-103 | no contract of its own: a task is silent while `now` is at or before its `ignored_until`; `SnoozeSuppresses` states what this means for a snoozed task |
| TaskReminder.IsDue | cogs/task_reminder.py:102-103 | no contract of its own: in the 0..5-day window and not snoozed; `DueRemindersExact` states that exactly these tasks are reminded |
| TaskReminder.DueReminders | cogs/task_reminder.py:96-104 | there are never more reminders than tasks |
| TaskReminder.DueRemindersExact | cogs/task_reminder.py:96-104 | every reminder has 0..5 days left and comes from a task of the list that is in its window and not snoozed; every such task is reminded |
| TaskReminder.DueRemindersAppend | cogs/task_reminder.py:97-104 | reminders follow list order: those of a concatenation are the concatenated reminders |
| TaskReminder.DueRemindersSingle | cogs/task_reminder.py:102-104 | one task gives its reminder exactly when it is due |
| TaskReminder.DueRemindersPair | cogs/task_reminder.py:97-104 | two tasks give the first's reminders, then the second's |
| TaskReminder.SameMonthDaysLeft | cogs/task_reminder.py:74 | within one month, the days left are the difference of the days of the month |
| TaskReminder.ReminderScenario | cogs/task_reminder.py:96-104 | of a task due in 3 days and one due in 10, only the first is reminded |
| TaskReminder.SnoozeMatching | cogs/task_reminder.py:243-246 | the list keeps its length, order, descriptions and due dates; exactly the tasks whose description was reminded get the new snooze instant |
| TaskReminder.SnoozeSuppresses | cogs/task_reminder.py:243-246 | a snoozed task is not reminded up to and including the snooze instant; after it, the task is reminded exactly when it is in its window |
| TaskReminder.SnoozedScenario | cogs/task_reminder.py:257-260 | after "Ignore for today" at T, the reminded task is silent through T + 24h and is reminded again afterwards |
| TaskReminder.Done | cogs/task_reminder.py:271-272 | no kept task has a reminded description, and nothing is added |
| TaskReminder.DoneCounts | cogs/task_reminder.py:272 | every occurrence of a task that was not reminded is kept, and no occurrence of a reminded one |
| TaskReminder.DoneAppend | cogs/task_reminder.py:272 | the kept tasks keep their relative order |
| TaskReminder.WithAppended | cogs/task_reminder.py:50-53 | the user gains a key if absent; every other user's list is unchanged; the user's list is the old one (empty if absent) followed by the new task |
| TaskReminder.WithoutIndex | cogs/task_reminder.py:154-158 | the user keeps a key exactly when the list had more than one task; the list loses exactly the selected task: the tasks before it keep their places and those after it move down by one; no other user changes |
| TaskReminder.DeleteThenAddBack | cogs/task_reminder.py:154-187 | deleting a task and pressing "Add it back" restores the set of users, every other list, and the user's tasks as a multiset, with the task moved to the end |
| TaskReminder.TaskReminderCog.constructor | cogs/task_reminder.py:10-20 | the store starts empty when there is no tasks file |
| TaskReminder.TaskReminderCog.AddTask | cogs/task_reminder.py:31-54 | the reply is the resolved due date or the error; on success the task, not snoozed, is appended to the user's list (created if absent); on error nothing changes |
| TaskReminder.TaskReminderCog.ViewTasks | cogs/task_reminder.py:61-83 | one row per task of the member, in list order, with its description, due date and the status of its day count; no tasks gives no rows |
| TaskReminder.TaskReminderCog.OnMessage | cogs/task_reminder.py:88-107 | bots and users without a list get no reminders; otherwise the reminders are exactly those of the user's list |
| TaskReminder.TaskReminderCog.SnoozeUntil | cogs/task_reminder.py:238-248 | someone else's press changes nothing; a user without a list changes nothing, since the lookup raises; otherwise only that user's list changes, to its snoozed form |
| TaskReminder.TaskReminderCog.IgnoreForHour | cogs/task_reminder.py:238-249 | as SnoozeUntil, with the instant one hour after now |
| TaskReminder.TaskReminderCog.IgnoreForDay | cogs/task_reminder.py:252-263 | as SnoozeUntil, with the instant 24 hours after now |
| TaskReminder.TaskReminderCog.MarkDone | cogs/task_reminder.py:266-274 | the same owner and missing-user outcomes; otherwise the user's list becomes the done-filtered list, and the key stays even when that list is empty |
| TaskReminder.TaskReminderCog.DeleteAt | cogs/task_reminder.py:151-159 | a task is removed exactly when the user and index exist; it is returned, and the store becomes the store without it (an emptied list loses its key); otherwise nothing changes |
| TaskReminder.AddBackButton.Press | cogs/task_reminder.py:184-192 | the first press appends the task to the user's list, creating it if needed, and removes the button; a later press changes nothing |
| Appreciation.Get | cogs/appreciation.py:63 | the lookup finds nothing exactly when no pair has the key; what it finds is a stored pair's value |
| Appreciation.GetFinds | cogs/appreciation.py:63 | with unique keys, the lookup finds the value stored under the key |
| Appreciation.Put | cogs/appreciation.py:144-147 | `d[k] = v`: the key then maps to v and every other key keeps its value; an existing key keeps its place and a new key goes last |
| Appreciation.PutKeepsUniqueKeys | cogs/appreciation.py:144-147 | assigning a key never duplicates a key |
| Appreciation.KeepDated | cogs/appreciation.py:50 | the kept pairs are exactly the pairs dated today; keys stay unique |
| Appreciation.KeepDatedLookup | cogs/appreciation.py:47-63 | after cleaning, a user's lookup is their entry if it is dated today, and nothing otherwise |
| Appreciation.KeepDatedIdempotent | cogs/appreciation.py:50 | filtering a guild's dict twice is filtering it once |
| Appreciation.TodayValues | cogs/appreciation.py:83 | a text is in today's list exactly when some user's entry is that text dated today |
| Appreciation.TodayValuesAfterClean | cogs/appreciation.py:73-83 | cleaning first does not change today's list |
| Appreciation.Cleaned | cogs/appreciation.py:47-51 | every guild keeps its key; what remains is dated today, and every entry dated today remains |
| Appreciation.CleanedIdempotent | cogs/appreciation.py:47-51 | cleaning twice is cleaning once |
| Appreciation.SharedToday | cogs/appreciation.py:63 | no contract of its own: the guild has a dict and the user's entry in it is dated today; `CleanPreservesSharedToday` relates it to cleaning |
| Appreciation.CleanPreservesSharedToday | cogs/appreciation.py:55-63 | cleaning does not change whether the user shared today; after cleaning, having an entry at all means having one for today |
| Appreciation.SaveItem | cogs/appreciation.py:189-190 | the result holds the appreciation and extends the old list by at most that one item; a duplicate-free list stays duplicate-free |
| Appreciation.SaveOpensPager | cogs/appreciation.py:189-194 | after "Save", the user's saved list holds the appreciation, so `/saved_appreciations` opens the pager |
| Appreciation.SaveItemIdempotent | cogs/appreciation.py:189-194 | saving the same appreciation twice is saving it once |
| Appreciation.RemoveAt | cogs/appreciation.py:241 | `pop(i)` removes exactly that item: the items before it stay in place and the items after it move down by one; as a multiset one copy of it goes; in a duplicate-free list, exactly the items other than it remain |
| Appreciation.PrevIndex | cogs/appreciation.py:225 | "Previous" stays on the list, steps back by one, and wraps from the first page to the last |
| Appreciation.NextIndex | cogs/appreciation.py:230 | "Next" stays on the list, steps forward by one, and wraps from the last page to the first |
| Appreciation.PrevNextInverse | cogs/appreciation.py:225-230 | "Previous" undoes "Next", and "Next" undoes "Previous" |
| Appreciation.Remaining | cogs/appreciation.py:198 | a text remains exactly when it is listed and has not been shown |
| Appreciation.AppreciationCog.constructor | cogs/appreciation.py:11-36 | both stores start empty when there are no files |
| Appreciation.AppreciationCog.HasSaved | cogs/appreciation.py:102-103 | no contract of its own: the guild has a saved dict, the user a list in it, and the list is not empty; it guards the pager's constructor, and `SaveOpensPager` shows that saving makes it hold |
| Appreciation.AppreciationCog.CleanOldAppreciations | cogs/appreciation.py:47-51 | the daily store becomes its cleaned form; the saved store is untouched; the unique-key and no-duplicate invariants are kept |
| Appreciation.AppreciationCog.Appreciate | cogs/appreciation.py:54-68 | the options are offered exactly when the user had an entry dated today before the command; the store is the cleaned one, with an empty dict added for a new guild |
| Appreciation.AppreciationCog.Submit | cogs/appreciation.py:138-148 | the user's entry in the guild becomes today's text, and that guild's dict is created if absent |
| Appreciation.AppreciationCog.ShowToday | cogs/appreciation.py:72-95 | the store is cleaned; a guild with no dict gets "nothing shared"; a guild with no entry for today gets "nothing today"; otherwise the reply is today's list and one of its items |
| Appreciation.AppreciationView.constructor | cogs/appreciation.py:174-181 | the current appreciation is among the listed ones and is the only one shown so far |
| Appreciation.AppreciationView.Save | cogs/appreciation.py:184-194 | the appreciation is added exactly when it is not yet saved; the user's saved list becomes the save-once list, with both dict levels created if absent |
| Appreciation.AppreciationView.Next | cogs/appreciation.py:197-206 | while some listed appreciation is unseen, the new one is unseen and joins the shown set; once all are seen, the set restarts with the new one |
| Appreciation.SavedAppreciationView.constructor | cogs/appreciation.py:214-221 | the pager starts on the first page without a pending confirmation, and that page is in range of a non-empty list, so the first `saved_list[0]` does not fail |
| Appreciation.SavedAppreciationView.Previous | cogs/appreciation.py:224-226 | a non-empty list moves to the previous page, shows it and clears the confirmation; an empty list divides by zero and nothing changes |
| Appreciation.SavedAppreciationView.Next | cogs/appreciation.py:229-231 | a non-empty list moves to the next page, shows it and clears the confirmation; an empty list changes nothing |
| Appreciation.SavedAppreciationView.Forget | cogs/appreciation.py:234-252 | the first press only sets the confirmation. The second press pops the current appreciation from the stored list, keeps the index on the list (or leaves it when the list is now empty) and clears the confirmation. An index past the end raises, and nothing changes |
| Pikmin.Lookup | cogs/pikmin.py:57-58 | what is found is a table entry for the key; nothing is found exactly when no entry has the key |
| Pikmin.Lower | cogs/pikmin.py:56 | lower-casing keeps the length and maps every character by itself |
| Pikmin.LowerIdempotent | cogs/pikmin.py:56 | lower-casing twice is lower-casing once |
| Pikmin.StripHash | cogs/pikmin.py:59-60 | at most one leading `#` is removed and nothing else changes; one character goes exactly when the text starts with `#` |
| Pikmin.ColourCode | cogs/pikmin.py:55-60 | no contract of its own: lower-case, look up, strip one `#`; its properties are `ColourCodeIgnoresCase`, `KnownColourIsHex`, `UnknownColourPassesThrough`, `HashIsOptional` and `DoubleHashIff` |
| Pikmin.Styled | cogs/pikmin.py:47-53 | no contract of its own: the bold step, then the italic step; `StyleLayout` states the resulting layout |
| Pikmin.ColouredName | cogs/pikmin.py:47-61 | no contract of its own: the styled name, wrapped in the colour tag when a non-empty colour is given; `ColouredNameLayout` states the layout |
| Pikmin.StyleLayout | cogs/pikmin.py:47-53 | bold goes inside italic: the optional `<i>`, the optional `<b>`, the name, then the matching closing tags |
| Pikmin.NoColourLayout | cogs/pikmin.py:47-55 | an absent or empty colour adds no colour tag; with neither bold nor italic, the output is the name unchanged |
| Pikmin.ColourLayout | cogs/pikmin.py:47-61 | with a colour, the colour tag is outermost, around the italic and bold tags |
| Pikmin.ColouredNameLayout | cogs/pikmin.py:47-61 | the output is always the opening tags (colour, italic, bold), the name, then the closing tags in reverse order |
| Pikmin.ColourCodeIgnoresCase | cogs/pikmin.py:56 | a colour and its lower-cased form give the same code |
| Pikmin.ColorTable | cogs/pikmin.py:10-29 | the 18 entries of `color_map` in declared order; `ColorTableEntries` states their shape |
| Pikmin.ColorTableEntries | cogs/pikmin.py:10-29 | every table name is non-empty and does not start with `#`; every value is `#` followed by six upper-case hex digits |
| Pikmin.KnownColourIsHex | cogs/pikmin.py:56-61 | a table colour, in any case, becomes its table value without the `#`: six upper-case hex digits |
| Pikmin.UnknownColourPassesThrough | cogs/pikmin.py:56-61 | any other colour that does not start with `#` is passed through lower-cased, not rejected |
| Pikmin.HashIsNoName | cogs/pikmin.py:10-29 | a text starting with `#` is never a table colour |
| Pikmin.HashIsOptional | cogs/pikmin.py:59-61 | for a colour that is not a table name and does not start with `#`, writing it with a leading `#` changes neither the code nor the output |
| Pikmin.DoubleHashIff | cogs/pikmin.py:57-61 | the code starts with `#` exactly when the colour is not a table name and starts with `##` |
| Pikmin.SameCodeSameName | cogs/pikmin.py:55-61 | two non-empty colours with the same code give the same output |
| Pikmin.LookupAt | cogs/pikmin.py:57-58 | the lookup finds the first entry with the key |
| Pikmin.GreenIsLime | cogs/pikmin.py:13-24 | `green` and `lime` both give `00FF00` |
| Pikmin.FormattedExample | cogs/pikmin.py:47-61 | `Olimar` in `Red`, bold and italic, is `<color=#FF0000><i><b>Olimar</b></i></color>` |

## Left out

- The Discord layer is not modelled: slash-command registration, embeds, modals, buttons, message sending and editing, ephemeral flags and view timeouts. A button press is a method call. The owner check on the reminder buttons is an outcome (`NotForYou`), not a precondition.
- The JSON files are not modelled. Loading (a missing file gives an empty store) is the constructors; saving after each change is left out.
- The clock and the Adelaide time zone are left out. `today` and `now` are parameters, read once per operation. The source reads the clock more often: `view_tasks` and `on_message` call `date.today()` for every task (cogs/task_reminder.py:74 and :99), `on_message` also reads `datetime.now()` for every task in the window that carries a snooze instant (the `or` at cogs/task_reminder.py:102-103 short-circuits otherwise), and `appreciate` and `show_appreciations` read the Adelaide date once while cleaning and again afterwards (cogs/appreciation.py:48, :58 and :75). A run that crosses midnight is therefore not modelled.
- Dates are stored as `Date` values rather than ISO strings. `isoformat`/`fromisoformat` are the identity between them. The snooze instant is a number of seconds, not an ISO date-time.
- Appreciation dates are ISO strings compared as text, as in the source. Their format is not checked.
- `send_reminder` is not modelled: the embed text and the fall-back to the last channel when a DM is refused. Its day text for a count of 0..5 is `DaysLeftText` of that count, so a task due today reads "0 days left" there, unlike the listing's "Due today".
- `DeleteTaskView.confirm` (cogs/task_reminder.py:205-216) performs the same removal as `TaskSelect.callback`, so `DeleteAt` models both. Its `hasattr` guard never fires, because the attribute is set to `None` in `__init__`. With `None` the source raises a `TypeError`, which corresponds to `DeleteAt`'s no-change path.
- The `/delete_task` menu truncates descriptions to 100 characters. That only changes labels, so it is not modelled.
- `/saved_appreciations` sends the first page twice (cogs/appreciation.py:110-120). Only the check `HasSaved` and the pager's initial state are modelled. `ShowAppreciationsView.show_appreciations` repeats `/show_appreciations`, so `ShowToday` stands for both.
- `AppreciationOptionsView.edit` only prefills the form, and "Come back tomorrow" only replies. Neither changes state.
- Text handling covers ASCII only. Lower-casing maps A-Z. `int()` accepts surrounding tab, line feed, vertical tab, form feed, carriage return and space (not U+001C..U+001F), an optional sign, underscores between digits and leading zeros. Unicode digits and spaces are not modelled, nor is Python's limit of 4300 digits.
- Each command and button handler is modelled as one atomic step. asyncio runs a handler without interruption up to its first `await`, and every handler here changes state before its first `await`, except the second "Forget" press, whose last line (cogs/appreciation.py:252) runs after one.
- `random.choice` is an arbitrary choice among the candidates. Its uniform distribution is not modelled.
- `test.py`, `cogs/random_gif.py`, `cogs/commands.py` and `main.py` are not part of this model.
- Numerals.SplitOn: its own contract only promises at least one piece. The splitting itself is stated by the lemmas `SplitOnJoin`, `SplitOnPair` and `SplitOnNone`.
- Numerals.ParseInt: it has no `ensures` of its own, because its results are stated by lemmas: `ParseShowNat` ties it to `str()`, `ParseIntSound` states which characters make it fail, and `ParseTwoDigits` works an example.
