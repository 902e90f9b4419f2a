# Vehicle service reminder — a verified model of its core

The application (`main.py`) keeps one record per vehicle in a JSON file:
the last service date and odometer reading, the current reading, and the
next service date and reading it derives from them. A vehicle is due for
service 365 days or 10000 km after its last service, whichever comes first.
The reminders view sorts the vehicles by number and marks each one as
overdue, due today, due soon (within 7 days or 500 km) or fine.

This project models two parts of it in Dafny.

- **The service calculator** (`service_calculator.dfy`). It covers
  `next_service_date`, `next_service_km`, `days_remaining` and
  `status_message`. Three supporting modules define what these rest on:
  - `calendar.dfy`: proleptic-Gregorian dates, and the ordinal day number
    that Python's `date.toordinal` uses.
  - `date_format.dfy`: the zero-padded `YYYY-MM-DD` text form.
  - `text.dfy`: `str.strip`, `int()` and `str()` on integers, and comma
    joining and splitting.
- **The record store** (`record_store.dfy`). The JSON file is the `data`
  field of the class `VehicleStore`. `load_data` reads that field and
  `save_data` assigns it. The methods model the buttons that change or
  read the store: add, update, clear, restore, backup, load sample data,
  CSV export and the reminders listing.
  - Python dicts remember the order their keys were inserted in. CSV export
    and backup write entries in that order, so the mapping is a `Dict`: the
    keys in insertion order next to the map itself.
  - `sorted` is modelled by `ordering.dfy`, an insertion sort under Python's
    string order.

The wall clock becomes a parameter. `now` is an `Instant`: the day number
of today plus the microseconds elapsed since midnight. Dialogs become
parameters too:
- a chosen path, where `""` means the dialog was cancelled;
- the members `json.load` read, where `None` means it raised;
- the answer to the confirmation box.

Message boxes become outcome values.

### Behaviour worth knowing

- **Days remaining.** `days_remaining` (main.py:37-40) is
  `(midnight of target − now).days`, which rounds down. It equals the
  calendar difference only at midnight; at any later moment it is one less.
  So after midnight of the due date the status is already overdue, and the
  "DUE TODAY" status of main.py:50 is shown on the day before
  (`OverdueOnDueDate`, `DueTodayTheDayBefore`). On 2025-10-20, for
  instance, the first sample vehicle (due 2025-11-01) has 12 days left at
  midnight and 11 later that day (`SampleStatusOnOctober20`).
- **Odometer readings.** They are read with a bare `int()` (main.py:133-134,
  280-281). Negative values and a leading `+` or `-` are accepted and
  stored; nothing rejects a negative reading.
- **Key order.** The CSV export (main.py:215) and the backup write the
  entries in dict insertion order. A key that is overwritten keeps its
  first position.
- **Update checks and warnings.** Updating (main.py:266-297) checks no
  field for emptiness and gives no warning when the current reading is
  below the last one.
- **Dates past 9999-12-31.** The form's note at main.py:117 promises
  "+1 year", computed as 365 days. A last-service date for which the date
  365 days later would fall after 9999-12-31 passes the input check.
  `next_service_date` then raises `OverflowError` outside the `try` block:
  nothing is written, and the warning about a low current reading may
  already have been shown.

## Model

| member | source | states |
|---|---|---|
| `Calendar.DaysInMonth` | main.py:30 | every month has 28 to 31 days, and 29 exactly for February of a leap year |
| `Calendar.DaysBeforeYearStep` | main.py:31 | the day number of January 1 moves by the length of the year: the Gregorian 4/100/400 rule |
| `Calendar.DayNumber` | main.py:31 | the ordinal that `timedelta` arithmetic here and at main.py:39 rests on: 0001-01-01 is day 1, and each date falls after all the days of the years before its own and within its own year's days |
| `Calendar.DayNumberIncreasing` | main.py:31 | the day number is strictly increasing in chronological order |
| `Calendar.DayNumberInjective` | main.py:31 | two valid dates with the same day number are the same date |
| `Calendar.NextDay` | main.py:31 | the following calendar date is valid and has the next day number |
| `Calendar.AddDays` | main.py:31 | `timedelta(days=n)` added to a date gives a valid date whose day number is `n` more |
| `Calendar.InRangeByDayNumber` | main.py:31 | a date is representable by `datetime` exactly when its day number is at most that of 9999-12-31 |
| `Calendar.MaxDayNumberIsLastDay` | main.py:31 | 9999-12-31 is representable and its day number is the overflow bound |
| `Text.Strip` | main.py:121-124 | the result is the input without leading and trailing whitespace; it is empty exactly when the input is all whitespace |
| `Text.ParseInt` | main.py:133-134 | `int()` accepts exactly an optional sign and one or more digits, and gives their value with that sign, negatives included |
| `Text.IntToString` | main.py:216 | `str()` of a reading writes a minus sign exactly for a negative number, then decimal digits with no leading zero |
| `Text.IntToStringRoundTrip` | main.py:216 | reading back what `str()` wrote for any integer gives that integer |
| `Text.SplitJoin` | main.py:216 | splitting a comma-joined row on commas gives back its fields when none holds a comma |
| `DateFormat.ParseDate` | main.py:30 | a string that parses has the `YYYY-MM-DD` shape and is a date `datetime` can represent |
| `DateFormat.FormatDate` | main.py:32 | `strftime("%Y-%m-%d")` writes ten characters: four digits, dash, two digits, dash, two digits |
| `DateFormat.ParseFormat` | main.py:30-32 | parsing a formatted date gives back that date |
| `DateFormat.FormatParse` | main.py:30-32 | every string that parses is already the zero-padded form of its date |
| `DateFormat.ParseDateAccepts` | main.py:30 | a string of the right shape parses exactly when its year is at least 1, its month 1..12 and its day within the month, with February 29 only in leap years |
| `DateFormat.ParseDateRejects` | main.py:30 | the zero-padded spelling of a day that is not on the calendar is refused |
| `ServiceCalculator.NextServiceDate` | main.py:29-32 | fails with a parse error exactly when `strptime` refuses the input, and with an overflow exactly when the result is past 9999-12-31; otherwise the result is the zero-padded form of the day exactly 365 days later |
| `ServiceCalculator.NextServiceKm` | main.py:34-35 | the result is 10000 more than the input, for every integer input |
| `ServiceCalculator.DaysRemaining` | main.py:37-40 | there is a result exactly when the target date parses |
| `ServiceCalculator.DaysRemainingByCalendar` | main.py:37-40 | the whole days left are the calendar difference at midnight and one less at any later moment of the day |
| `ServiceCalculator.DaysRemainingNegativeInPast` | main.py:37-40 | a target day before today gives a negative count |
| `ServiceCalculator.Classify` | main.py:46-54 | overdue iff days or km are negative; due today iff neither is negative and one is zero; due soon iff both are positive and one is within 7 days or 500 km; fine iff more than 7 days and more than 500 km are left; due soon and fine carry both numbers |
| `ServiceCalculator.ClassifyMonotone` | main.py:46-54 | fewer days or fewer kilometres left never makes the status less urgent |
| `ServiceCalculator.StatusMessage` | main.py:42-54 | a status exists exactly when the due date parses, and it is the classification of the days remaining and `km_due - current_km` |
| `ServiceCalculator.OverdueOnDueDate` | main.py:37-54 | after midnight of the due date itself the status is overdue |
| `ServiceCalculator.DueTodayTheDayBefore` | main.py:37-54 | after midnight of the day before the due date, with kilometres not overdue, the status is due today |
| `ServiceCalculator.SampleStatusOnOctober20` | main.py:221-226 | the first sample vehicle on 2025-10-20 is fine with 1000 km left, and 12 days at midnight or 11 later that day |
| `ServiceCalculator.ClassifyVectors` | main.py:46-54 | boundary cases: -1 days or -1 km is overdue, 0 is due today, 7 days is due soon, 8 days with more than 500 km is fine, 500 km is due soon |
| `ServiceCalculator.NextServiceDateAcrossLeapDay` | main.py:29-32 | 2024-02-29 gives 2025-02-28 |
| `ServiceCalculator.NextServiceDateOntoLeapDay` | main.py:29-32 | 2023-03-01 gives 2024-02-29 |
| `ServiceCalculator.NextServiceDateSampleNovember` | main.py:225 | 2024-11-01 gives 2025-11-01 |
| `ServiceCalculator.NextServiceDateSampleJune` | main.py:232 | 2024-06-15 gives 2025-06-15 |
| `ServiceCalculator.NextServiceDateRejectsCommonYearLeapDay` | main.py:30 | 2023-02-29 is refused as unparseable |
| `ServiceCalculator.NextServiceDateOverflows` | main.py:31 | 9999-06-01 overflows past the last representable date |
| `ServiceCalculator.NextServiceDateExample` | main.py:29-32 | a string written for the day 365 days after the day of `last` is the next service date of `last` |
| `Ordering.StringLess` | main.py:187 | Python's string `<`, which `sorted` uses: it holds only between different strings, and a proper prefix sorts before the longer string |
| `Ordering.StringLessIrreflexive` | main.py:187 | no string sorts before itself |
| `Ordering.StringLessTransitive` | main.py:187 | the string order is transitive |
| `Ordering.StringLessTotal` | main.py:187 | of two different strings one sorts before the other |
| `Ordering.Insert` | main.py:187 | inserting adds exactly one occurrence of the element |
| `Ordering.InsertSorted` | main.py:187 | inserting a new element into a strictly sorted list keeps it strictly sorted |
| `Ordering.SortedKeys` | main.py:187 | `sorted` returns a permutation of its input |
| `Ordering.SortedKeysSorted` | main.py:187 | sorting distinct keys lists each key once, in strictly increasing order |
| `Ordering.StrictlySortedDistinct` | main.py:187 | a strictly sorted list repeats no element |
| `RecordStore.Dict.Put` | main.py:145-151 | `data[vehicle] = {...}` sets that one key and no other; a new key goes last, an existing key keeps its place |
| `RecordStore.Dict.Items` | main.py:215 | the items are the keys in dict order, each paired with its record |
| `RecordStore.FromPairs` | main.py:335 | the dict `json.load` builds is well formed and holds exactly the keys of the file's members |
| `RecordStore.FromPairsLastWins` | main.py:335 | of duplicate keys in the restored file, the last member's value is kept |
| `RecordStore.FromPairsItems` | main.py:321-337 | restoring a backup rebuilds exactly the backed-up store, keys in the same order |
| `RecordStore.DictSize` | main.py:183 | the number of vehicles is the number of keys in order |
| `RecordStore.ServiceRecord` | main.py:130-151 | the inputs are checked in the source's order (date, last km, current km); the date overflows exactly when the date 365 days later is past 9999-12-31; inputs that parse and do not overflow always give a record; a built record keeps the date as typed, the readings `int()` gave, and next km and next date derived from this service |
| `RecordStore.CsvRow` | main.py:216 | the f-string row starts with the vehicle number and a comma; `CsvRowReadsBack` gives all six fields |
| `RecordStore.CsvRows` | main.py:215-216 | one row per key in dict order, each the row of that key's record |
| `RecordStore.CsvLines` | main.py:213-216 | the export has one line more than there are vehicles: the header line, then the rows in dict order |
| `RecordStore.CsvHeaderJoin` | main.py:214 | the header line is the six column names joined by commas |
| `RecordStore.CsvHeaderColumns` | main.py:214 | the header splits back into the six column names |
| `RecordStore.CsvRowReadsBack` | main.py:216 | a row splits into six fields: the vehicle, the two dates as stored and the three readings, which `int()` reads back, as long as the vehicle number and dates hold no comma |
| `RecordStore.SortedKeysInStore` | main.py:187 | every key the reminders view visits is a vehicle of the store |
| `RecordStore.SampleDict` | main.py:220-235 | the sample store lists MH01AB1234 then DL8CAF0001 with the given records |
| `RecordStore.SampleData` | main.py:219-236 | the sample records have due dates 2025-11-01 and 2025-06-15 and due readings 22000 and 55000, as computed by the calculator |
| `RecordStore.ListReminders` | main.py:187-203 | the loop visits the given keys in order and shows each with its own record and its status at `now`; it lists all of them, or stops at the first whose due date does not parse, after the ones before it |
| `RecordStore.VehicleStore.constructor` | main.py:17-20 | a store with no file yet is empty |
| `RecordStore.VehicleStore.AddVehicle` | main.py:120-155 | any empty stripped field writes nothing; a refused date or reading writes nothing; otherwise exactly the stripped vehicle key is set, and any existing record is overwritten, with a warning iff the current reading is below the last; an overflowing date writes nothing after the same warning |
| `RecordStore.VehicleStore.UpdateVehicle` | main.py:266-297 | an unknown vehicle writes nothing; a refused input writes nothing; otherwise the vehicle's whole record is replaced by one derived from the new inputs, and every other key is untouched |
| `RecordStore.VehicleStore.ClearData` | main.py:340-344 | confirming empties the store; declining leaves it unchanged |
| `RecordStore.VehicleStore.RestoreJson` | main.py:330-337 | a cancelled dialog or a file that fails to parse leaves the store unchanged; otherwise the store is replaced, not merged, by the parsed members |
| `RecordStore.VehicleStore.BackupJson` | main.py:321-328 | a cancelled dialog writes nothing; otherwise what is written restores to exactly the current store |
| `RecordStore.VehicleStore.LoadSampleData` | main.py:219-238 | the store is replaced by the two sample records |
| `RecordStore.VehicleStore.ExportCsv` | main.py:205-217 | an empty store exports nothing; a cancelled dialog exports nothing; otherwise the header and one row per vehicle in dict order are written |
| `RecordStore.VehicleStore.DisplayReminders` | main.py:179-203 | an empty store shows the no-data message; otherwise vehicles are shown in sorted order, each with its own record and its status at `now`; an unparseable due date stops the listing at that vehicle, after the ones before it |

## Left out

- User interface. The tkinter widgets, layout and tabs are not modelled
  (main.py:61-119, 157-178, 244-265, 310-320). Neither is the text of
  message boxes, the emoji and wording of the status strings, or the
  layout of the reminders text (main.py:194-203). Statuses and outcomes are
  datatypes.
- Clearing fields afterwards. Clearing the entry fields after add and
  update is not modelled (main.py:155, 157-161, 300-304).
- Redisplay afterwards. The call to `display_reminders` after update,
  restore, clear and load sample data is separate: `DisplayReminders` is
  called on its own.
- Files, dialogs and the clock. Real file I/O and `get_data_path` are not
  modelled (main.py:13-27). `load_data` and `save_data` are reads and
  assignments of the `data` field. The file dialogs and
  `datetime.today()` become parameters.
- JSON. JSON encoding and decoding are not modelled, and neither is a
  restored file whose top level is not an object of records. The source
  does not check the shape. Such a file is restored as is, and the next
  action that reads a record fails.
- Date parsing leniency. `DateFormat.ParseDate` accepts only the
  zero-padded `YYYY-MM-DD` form. CPython's `strptime` also accepts
  single-digit months and days and non-ASCII digits.
- Date formatting on some platforms. `DateFormat.FormatDate` always pads
  the year to four digits. Some platforms' `strftime("%Y")` does not pad
  years below 1000.
- Integer parsing leniency. `Text.ParseInt` accepts a sign and ASCII
  digits. Python's `int()` also accepts underscores between digits and
  non-ASCII digits. It also strips surrounding whitespace, which never
  remains here because the form fields are stripped first.
- Text.ParseInt: does not model CPython's limit on integer string
  conversion. Since Python 3.11, and in the 3.7–3.10 security releases,
  `int()` refuses a decimal string of more than 4300 digits. `str()` and
  `json.dump` likewise refuse to write such a number. Here readings are
  unbounded integers: such a reading is accepted and written, where the
  program shows an error or fails while saving.
- Odometer types. A restored file holding non-integer readings is outside
  the model.
- RecordStore.VehicleStore.DisplayReminders: one instant `now` serves the
  whole listing. The program calls `datetime.today()` again for each
  vehicle (main.py:37, inside the loop at main.py:187-192), so a listing
  that runs across midnight can use two different days.
