# Nurse Aid medication store and expiry report, in Dafny

Nurse Aid is a desktop tool for care-home staff. It keeps residents, their
medications, the stock on hand of each medication (an "instance": a batch
with an expiry date, a quantity and a strength) and the doses given from
each instance. It lists how many days each dose's stock lasts, lets staff
overwrite a stock level, and prints an expiry date report per resident.

This project models the logic behind those screens and proves what it
promises:

- `Database.DatabaseManager` is the SQLite store. It is a class with four
  tables (`residents`, `medications`, `instances`, `doses`). Each table is a
  sequence of rows in insertion order, and row `i` has id `i + 1`.
  - Inserts append one row.
  - The `collect_*` queries are owner-id filters (`Sequences.Select`) that
    keep table order.
  - There are two in-place updates: a medication's notes and an instance's
    quantity.
  - The expiry dates of a resident are gathered by a nested loop: medication
    by medication, then instance by instance.
- `Dates` reads `%m/%d/%y` as CPython's `strptime` does on ASCII digits:
  - the month and day take one or two digits;
  - the year takes exactly two, with the pivot at 69;
  - a day that does not exist in its month is refused.

  It also counts days between dates exactly.
- `Expiry` is the report. Each expiry date goes on one of four pages: expired
  (fewer than 0 days left), due to expire (0 to 30 days), in date (more than
  30 days), or no expiry date (the text does not read as a date). Each date
  is named by a medication.
  - `Expiry.CreateExpiryDateReport` models the code as written, which names
    each date by a global lookup.
  - `Expiry.CreateOwnNamedExpiryReport` models the corrected version, which
    names each date by its own medication.
- `Dosing` is the days-remaining column of the dose list.
- `Windows` holds the decisions the windows make before they write:
  - the resident a listbox row stands for;
  - the `isalpha` checks on typed names;
  - the `float` check on a typed stock level.
- `Text` models `str.isalpha`, `str(int)` and `float(str)` on ASCII text.

"Today" is a parameter. The date picker's text, the user's typing and the
listbox selection are parameters too.

## Model

| member | source | states |
|---|---|---|
| Sequences.Select | nurse_aid.py:119-134 | an owner-id query returns only table rows with that owner, never more rows than the table holds |
| Sequences.SelectComplete | nurse_aid.py:119-134 | every row with the owner asked for is returned |
| Sequences.SelectAppendOne | nurse_aid.py:119-134 | a row appended to a table is appended to a query's answer exactly when its owner matches, so answers keep insertion order |
| Sequences.SelectAppend | nurse_aid.py:119-134 | querying two runs of rows gives the two answers one after the other |
| Sequences.SelectNone | nurse_aid.py:119-134 | a query for an owner no row has returns nothing |
| Sequences.FirstWith | nurse_aid.py:159-162 | the index of the first row with the key, none exactly when no row has it |
| Sequences.Lookup | nurse_aid.py:165-174 | `fetchall()[0]`: absent (IndexError) exactly when no row has the key, otherwise the first row in table order with that key |
| Sequences.LookupConsecutive | nurse_aid.py:28-66 | with ids 1, 2, 3, ... the row with id `k` is the one at index `k - 1`, and ids outside 1..n find nothing |
| Text.NatText | nurse_aid.py:148 | `str(n)` is a non-empty run of digits, one character long exactly when n < 10 |
| Text.NatTextValue | nurse_aid.py:148 | the digits of `str(n)` read back as n |
| Text.IsAlpha | nurse_aid.py:368 | `str.isalpha` on ASCII: non-empty and every character a letter (no contract of its own; see `Windows.RefusedNames`) |
| Text.StripSlice | nurse_aid.py:623 | `float` strips white space only from the ends: what remains is a contiguous run of the typed text |
| Text.ParseNumber | nurse_aid.py:623 | `float(text)`: strip white space, an optional sign, digits with an optional fraction, at least one digit (no contract of its own; its properties are the lemmas below) |
| Text.ParseDigitsNumber | nurse_aid.py:623 | `float` of a run of digits is their value |
| Text.ParseNatText | nurse_aid.py:623 | `float(str(n)) == n`, with the exact value (no rounding to a double) |
| Text.ParseNegative | nurse_aid.py:623 | a minus sign followed by digits reads as the negated value |
| Text.ParseNeedsDigit | nurse_aid.py:623 | text without a digit, other than the inf/nan spellings left out under `Text.ParseNumber`, raises ValueError |
| Text.SeparatorRefused | nurse_aid.py:623 | a leading file separator (0x1C) is not white space to `float`: "\x1c5" raises ValueError |
| Dates.DaysInMonth | nurse_aid.py:564 | every month has 28 to 31 days |
| Dates.DayNumberOrdered | nurse_aid.py:565 | an earlier date has a smaller day number, so the day difference is negative exactly for a past date |
| Dates.NextDayNumber | nurse_aid.py:565 | the day after a valid date is valid and exactly one day number later |
| Dates.DayNumber | nurse_aid.py:565 | `date.toordinal()` of a proleptic Gregorian date: at least 1 |
| Dates.DayDifference | nurse_aid.py:565 | `(expiry - today).days` as a difference of ordinals (no contract of its own; its sign is given by `Dates.DayNumberOrdered`) |
| Dates.CenturyYear | nurse_aid.py:564 | `%y` maps two digits into 1969..2068 |
| Dates.CenturyYearDigits | nurse_aid.py:564 | the pivot keeps the two digits and gives back each year of 1969..2068 from its last two digits |
| Dates.ParseExpiry | nurse_aid.py:564 | a text `%m/%d/%y` accepts is a valid calendar date in 1969..2068 |
| Dates.ReadFields | nurse_aid.py:564 | the three fields split at the slashes are accepted only as a valid calendar date in 1969..2068 |
| Dates.TwoDigits | nurse_aid.py:564 | a zero-padded year field reads back as its value |
| Dates.MonthTextField | nurse_aid.py:564 | every month number written plainly is a `%m` field that reads back as itself |
| Dates.DayTextField | nurse_aid.py:564 | every day number written plainly is a `%d` field that reads back as itself |
| Dates.ReadShortFields | nurse_aid.py:564 | the fields of a date's "M/d/yy" form read back as that date |
| Dates.ParseShortForm | nurse_aid.py:564 | every date in the "M/d/yy" form (years 1969 to 2068) is read back as the same date |
| Dates.ReadsDecemberDate | nurse_aid.py:564 | "12/15/23" reads as 15 December 2023 |
| Dates.ReadsPastPivotDate | nurse_aid.py:564 | the round trip fails past the pivot: 1 January 2069 is written 1/1/69 and read back as 1 January 1969 |
| Dates.ReadsJanuaryDate | nurse_aid.py:564 | "01/20/24", with leading zeros, reads as 20 January 2024 |
| Dates.ReadsMarchDate | nurse_aid.py:564 | "03/01/24" reads as 1 March 2024 |
| Database.WithNotesChangesOneRow | nurse_aid.py:114-116 | the notes update rewrites only the notes of the row with that id; a missing id changes nothing |
| Database.NotesReadBack | nurse_aid.py:171-174 | notes read back as written; every other medication reads as before |
| Database.WithQuantityChangesOneRow | nurse_aid.py:177-180 | the quantity update rewrites only the quantity of the row with that id; a missing id changes nothing |
| Database.WithQuantityIdempotent | nurse_aid.py:177-180 | writing the same quantity twice equals writing it once |
| Database.WithNotes | nurse_aid.py:114-116 | the notes UPDATE keeps every row and every other column; the rows with that id get the new notes, the others keep theirs |
| Database.WithQuantity | nurse_aid.py:177-180 | the quantity UPDATE keeps every row and every other column; the rows with that id get the new quantity, the others keep theirs |
| Database.Expiries | nurse_aid.py:152-154 | the expiry texts of one medication's instances, one per instance, in order |
| Database.ExpiriesStep | nurse_aid.py:153-154 | one more instance appends its expiry text |
| Database.ExpiryDatesStep | nurse_aid.py:151-154 | one more medication appends the texts of its instances |
| Database.ExpiryDatesFromTable | nurse_aid.py:147-156 | every collected date is the expiry text of an instance of one of the resident's medications |
| Database.ExpiryDates | nurse_aid.py:147-156 | the resident's expiry texts, medication by medication, then instance by instance (no contract of its own; see the step lemmas and `Database.ExpiryDatesFromTable`) |
| Database.NameOf | nurse_aid.py:165-168 | a name is found exactly when a medication has that id, and it is that medication's name |
| Database.NameForExpiry | nurse_aid.py:559-562 | the medication id of the first instance table-wide with that expiry text, then that medication's name (no contract of its own; see `Database.NameForExpiryFound` and `Expiry.SharedExpiryMisnamed`) |
| Database.NameForExpiryFound | nurse_aid.py:159-168 | with consecutive ids and no dangling owner, the name lookup for a text taken from the table never raises |
| Database.ExpiryQueryBindings | nurse_aid.py:148 | the expiry query as written binds one parameter per digit of the resident id |
| Database.ExpiryQueryRunsOnlyBelowTen | nurse_aid.py:148 | that query (one placeholder) runs exactly for resident ids 0 to 9 |
| Database.ResidentTenBindsTwo | nurse_aid.py:148 | for resident 10 the query binds the two parameters "1" and "0" |
| Database.DatabaseManager.constructor | nurse_aid.py:28-66 | a new store has four empty tables |
| Database.DatabaseManager.MedicationsOf | nurse_aid.py:119-122 | no more rows than the table, each a medication of the resident (and every such one, by `Sequences.SelectComplete`) |
| Database.DatabaseManager.InstancesOf | nurse_aid.py:125-128 | no more rows than the table, each an instance of the medication |
| Database.DatabaseManager.DosesOf | nurse_aid.py:131-134 | no more rows than the table, each a dose of the instance |
| Database.DatabaseManager.MedicationName | nurse_aid.py:165-168 | a name is found exactly when a medication has that id, and it is that medication's name |
| Database.DatabaseManager.MedicationNotes | nurse_aid.py:171-174 | notes are found exactly when a medication has that id, and they are that medication's notes |
| Database.DatabaseManager.QuantityAndStrength | nurse_aid.py:137-144 | quantity and strength are found exactly when an instance has that id, and they are that instance's quantity and strength |
| Database.DatabaseManager.AddResident | nurse_aid.py:77-80 | appends one resident with the next id; other tables unchanged; ids stay consecutive |
| Database.DatabaseManager.AddMedication | nurse_aid.py:83-86 | appends one medication with the next id and notes `' '`; other tables unchanged |
| Database.DatabaseManager.AddMedicationInstance | nurse_aid.py:89-99 | appends one instance with the next id and no notes; other tables unchanged |
| Database.DatabaseManager.AddDose | nurse_aid.py:102-111 | appends one dose with the next id; other tables unchanged |
| Database.DatabaseManager.AddMedicationNotes | nurse_aid.py:114-116 | medications become the notes update of the old table; other tables unchanged |
| Database.DatabaseManager.ModifyInstanceQuantity | nurse_aid.py:177-180 | instances become the quantity update of the old table; other tables unchanged |
| Database.DatabaseManager.CollectExpiryDates | nurse_aid.py:147-156 | corrected (one bound parameter): the nested loop returns the resident's expiry dates, medication by medication, then instance by instance |
| Dosing.DaysOfSupply | nurse_aid.py:759-763 | "N/A" exactly for a PRN dose or a zero frequency; a zero dose otherwise divides by zero; else days × daily use = quantity × strength |
| Dosing.SwappedStockLabels | nurse_aid.py:743-744 | reading quantity and strength into each other's variables gives the same days remaining |
| Dosing.DaysOfSupplyMonotone | nurse_aid.py:759-761 | for a regular dose, non-negative stock lasts non-negative days, and more stock never lasts fewer days |
| Dosing.TwiceDailyExample | nurse_aid.py:759-761 | 500 × 28 mg taken at 250 mg twice a day lasts 28 days |
| Dosing.ZeroDoseRaises | nurse_aid.py:759-761 | a dose of 0 with an empty regularity (not "PRN") and a non-zero frequency raises ZeroDivisionError |
| Dosing.DoseDaysRemaining | nurse_aid.py:742-771 | the days remaining at the instance's doses in dose order, stopping at the first dose that divides by zero (ZeroDivisionError ends the loop); none when the instance does not exist |
| Expiry.StatusOf | nurse_aid.py:563-581 | the no-expiry page is chosen exactly when `%m/%d/%y` does not read the text |
| Expiry.ExpiredIffBefore | nurse_aid.py:564-568 | a date written as "M/d/yy" is expired exactly when it lies before today, and never lands on the no-expiry page |
| Expiry.LaterExpiryNoMoreUrgent | nurse_aid.py:565-577 | of two dates written as "M/d/yy", the later is never on a more urgent page |
| Expiry.PastPivotExpired | nurse_aid.py:564-568 | past the pivot a picker date is read a century early: 1 January 2069, written 1/1/69, is on the expired page on 1 January 2024 |
| Expiry.NewYearExpired | nurse_aid.py:565-568 | 12/15/23 on 1 January 2024 is expired |
| Expiry.NewYearDue | nurse_aid.py:565-572 | 01/20/24 on 1 January 2024 is due to expire |
| Expiry.NewYearInDate | nurse_aid.py:565-577 | 03/01/24 on 1 January 2024 is in date |
| Expiry.UnreadableExpiries | nurse_aid.py:579-581 | an empty text and "2/30/24" go on the no-expiry page |
| Expiry.PagesPartition | nurse_aid.py:558-581 | the four pages together hold exactly as many entries as there are dates |
| Expiry.PageNamesSelect | nurse_aid.py:558-581 | a page names exactly the entries of its status, in the order met |
| Expiry.PageDatesSelect | nurse_aid.py:563-577 | a dated page lists the dates read from exactly the entries of its status, in order |
| Expiry.UndatedTextsSelect | nurse_aid.py:579-581 | the last page lists the texts of exactly the entries put there, in order |
| Expiry.DatesOfOnPage | nurse_aid.py:563-577 | entries of one dated status yield one valid date each, every one belonging on that page |
| Expiry.DatesOfAll | nurse_aid.py:563-577 | when every entry reads as a date, the dates listed are those dates, one per entry, in order |
| Expiry.ReadDateOnPage | nurse_aid.py:563-577 | an entry on a dated page reads as a valid date that belongs on that page |
| Expiry.ReportNames | nurse_aid.py:558-581 | each page names the entries whose expiry puts them there, in order; every entry is on exactly one page |
| Expiry.ReportDates | nurse_aid.py:563-577 | a dated page has one date per name, each valid and belonging on that page |
| Expiry.ReportUndated | nurse_aid.py:578-581 | the last page lists exactly the texts of the entries that do not read as a date |
| Expiry.Classify | nurse_aid.py:545-581 | the eight-list sorting loop builds the report of the entries on today's date |
| Expiry.ReportBy | nurse_aid.py:558-581 | the entries placed one after the other, each on the page chosen for it (no contract of its own; see `Expiry.ReportNames` and the page lemmas) |
| Expiry.Report | nurse_aid.py:558-581 | the report of the entries on `today` (no contract of its own; see `Expiry.ReportNames`, `Expiry.ReportDates`, `Expiry.ReportUndated`) |
| Expiry.NameEach | nurse_aid.py:558-562 | the dates paired with the names a lookup finds, in order; fails exactly when one lookup fails |
| Expiry.GloballyNamed | nurse_aid.py:558-562 | as written: each date paired with the first instance's medication name for that text table-wide; fails exactly when some lookup fails |
| Expiry.GloballyNamedPrefix | nurse_aid.py:558-562 | a lookup that fails on an earlier date aborts the whole report |
| Expiry.GloballyNamedStep | nurse_aid.py:558-562 | one more date either aborts the pairing or appends one entry named by the global lookup |
| Expiry.GloballyNamedFound | nurse_aid.py:558-562 | in a store with consecutive ids and no dangling owner, the report as written is always produced |
| Expiry.CreateExpiryDateReport | nurse_aid.py:543-581 | global naming as written, dates from the corrected query: the report of the resident's dates named by the global lookup, or none where a lookup raises |
| Expiry.OwnNamedTexts | nurse_aid.py:147-156 | the own-name pairing lists the resident's dates in the order they are collected |
| Expiry.OwnNamedOwners | nurse_aid.py:147-156 | the own-name pairing names each date by one of the medications it was collected from |
| Expiry.OwnNamedStep | nurse_aid.py:151-154 | one more medication appends its own instances, named by it |
| Expiry.PairedStep | nurse_aid.py:153-154 | one more instance appends one entry named by its medication |
| Expiry.OwnNamedReportNames | nurse_aid.py:559-562 | corrected: every name on every page is that of one of the resident's own medications |
| Expiry.CreateOwnNamedExpiryReport | nurse_aid.py:543-581 | corrected: the report of the resident's dates, each named by the medication it belongs to |
| Expiry.SharedExpiryMisnamed | nurse_aid.py:559-562 | two residents with one shared expiry date: resident 2's report names resident 1's medication |
| Windows.ResidentListbox | nurse_aid.py:337-344 | one "first last - dob" row per resident, in table order |
| Windows.ResidentSelection | nurse_aid.py:310-313 | IndexError exactly for an empty selection; otherwise the id is the row index plus one and the label is that row |
| Windows.SelectionIsResident | nurse_aid.py:310-313 | with consecutive ids, selecting row `i` selects the resident stored at row `i`, by id and by label |
| Windows.AddResidentToDatabase | nurse_aid.py:367-382 | a resident is added exactly when both names are alphabetic; otherwise the store is unchanged |
| Windows.AddMedicationToDatabase | nurse_aid.py:810-823 | a medication is added exactly when both its names are alphabetic; otherwise the store is unchanged |
| Windows.RefusedNames | nurse_aid.py:368 | empty, spaced, apostrophed and hyphenated names are refused |
| Windows.StockOutcomeOf | nurse_aid.py:620-645 | no selection is reported first, then text `float` refuses, otherwise the number read, negative or not |
| Windows.AfterStockUpdate | nurse_aid.py:620-645 | the instance table is unchanged unless the update succeeds |
| Windows.StockUpdateChangesOneRow | nurse_aid.py:620-645 | on success only the selected row's quantity changes, to the number typed |
| Windows.StockUpdateIdempotent | nurse_aid.py:620-645 | entering the same stock level twice equals entering it once |
| Windows.NegativeStockAccepted | nurse_aid.py:623 | a negative stock level is accepted and written |
| Windows.WordStockRefused | nurse_aid.py:621-641 | text without a digit, other than the inf/nan spellings left out under `Text.ParseNumber`, is refused and nothing is written |
| Windows.ModifyInstanceStockLevel | nurse_aid.py:620-645 | reports the outcome above and leaves the store as the update function says; other tables unchanged |

## Left out

- The tkinter windows, widgets, message boxes, focus events and window navigation are not modelled. Each handler returns what it would report.
- SQLite is not modelled: the connection, the commits, the SQL text and the column affinities.
- Row ids are taken to be consecutive from 1 (`Valid`). That is what SQLite assigns when rows are only appended; the model requires it rather than deriving it.
- Foreign keys are not enforced, because SQLite does not enforce them by default. `Linked` states them, and each insert keeps them only when its owner id exists.
- `Database.DatabaseManager.AddMedication`: adding a medication for a resident id that does not exist succeeds, as in the code. No "not found" error is raised.
- PDF output (`fpdf`) is not modelled, nor the report's file name, timestamps and page layout (nurse_aid.py:583-617). The model stops at the eight lists.
- The web lookup of a medication (nurse_aid.py:674-686) is external I/O and is not modelled.
- The clock is not modelled. `datetime.now()` becomes the parameter `today`.
- `Dosing.DaysOfSupply`: the quotient is exact over reals, with no `round(..., 2)` and no IEEE floating point.
- `Text.ParseNumber`: `float` is modelled on decimal notation only. Exponents, `inf`/`nan`, underscores and non-ASCII digits or white space are not. The value read is exact, with no rounding to a double (so `float(str(n)) == n` is claimed beyond 2^53 too).
- `Text.ParseNeedsDigit` and `Windows.WordStockRefused`: Python's `float` accepts the digit-free words `inf`, `infinity` and `nan` (any case, signed, padded with white space), and the program then writes them as the quantity at nurse_aid.py:178. The model refuses them, so it does not show that a non-finite quantity can be stored.
- `Text.IsAlpha` is ASCII letters only. Python's Unicode `isalpha` also accepts accented letters ("Zoë"), which this model refuses.
- `Dates.ParseExpiry`: only the `%m/%d/%y` path is modelled, on ASCII digits; CPython's `\d` also matches other Unicode decimal digits. Locale-dependent and case-insensitive matching is not relevant to digit fields. An expiry stored as NULL is not modelled, because the program never writes one.
- `Dates.ShortForm`: the date picker formats its date with the locale's short date pattern. The model takes that pattern to be "M/d/yy" (en_US). `Dates.ParseShortForm`, `Expiry.ExpiredIffBefore` and `Expiry.LaterExpiryNoMoreUrgent` rest on that choice; other locales are not covered.
- `Windows.ModifyInstanceStockLevel` does not model the list refreshes after the write (nurse_aid.py:629-632). The dose list can raise ZeroDivisionError there after the quantity is already written, and then no success message is shown.
- The regularity of a dose is compared with `'PRN'` as text, as the code does, although its column is declared integer.

## Findings

| source | as written | input that shows it | evidently intended | confidence | as-written member | corrected member |
|---|---|---|---|---|---|---|
| nurse_aid.py:148 | `(str(resident_id,))` is a string, not a one-element tuple, so sqlite3 binds one parameter per digit | resident id 10 binds "1" and "0" to one placeholder; the query raises "Incorrect number of bindings", and no expiry report can be made for residents 10 onwards | bind `(str(resident_id),)`, one parameter | high; not executed | Database.ResidentTenBindsTwo | Database.DatabaseManager.CollectExpiryDates |
| nurse_aid.py:559-562 | each report date is named by the first instance in the whole table with the same expiry text, whoever owns it | resident 1 owns Aspirin and resident 2 owns Ibuprofen, both with an instance expiring 1/20/24; resident 2's report lists "Aspirin" | name each date by the medication whose instance it was collected from | high; not executed | Expiry.SharedExpiryMisnamed | Expiry.OwnNamedReportNames |

`Expiry.CreateExpiryDateReport` is the report as written. It collects dates with the corrected one-parameter query, so that the second finding can be seen apart from the first. `Expiry.CreateOwnNamedExpiryReport` is the corrected report.
