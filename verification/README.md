# Student result service — Dafny model

This project models the computational core of a small student-result web
service (`app.js`). At startup the service reads a CSV file of subject marks.
It merges the rows into one record per student, keyed by the roll number
upper-cased and trimmed. It then answers `GET /student/:roll_number` with a
report card. The report lists each subject's letter grade. It also gives
either the credit-weighted SGPA and the credit total, or `"-"` for both when
the student failed a subject.

Modules, one per part of the core:

- `Text` (`text.dfy`): `toUpperCase` and `trim` as applied to roll numbers.
- `Records` (`records.dfy`): subjects, students, the table and parsed rows.
- `Grading` (`grading.dfy`): `getGradePoint`, the marks-to-grade table.
- `Sgpa` (`sgpa.dfy`): `calculateSgpa`, as a function and as the source's loop.
- `Loader` (`loader.dfy`): the per-row fold of `loadStudentsFromCSV` and its
  outcomes. `LoadAt` proves the folded table equal to an independent
  row-by-row description (`Expected`).
- `Service` (`service.dfy`): the report handler as a pure function
  `GetReport(table, rollInput)` returning `Ok(report)` or `Err(NotFound)`, plus
  `Respond`, the handler's own loop, proved equal to it.

The table is a Dafny value. `GetReport` receives it and returns no table, so
no lookup can change it, whether it succeeds or fails. The source gets this
isolation by copying the record and each subject (app.js:89-92).
`Stored(report) == table[key]` states that the report holds the stored record
unchanged, with nothing dropped or reordered.

Two behaviours of the code are worth stating precisely:

- The code substitutes `"0"` for a `marks` or `credits` cell only when the
  cell is missing or empty. Any other text, numeric or not, goes to
  `parseInt`/`parseFloat` unchanged, so a non-numeric cell can yield NaN rather
  than 0. The model hands the parsers exactly the text the code hands them
  (`Loader.SubjectOf`) and leaves the parsers abstract.
- Rounding uses `Math.round`, which rounds halves toward positive infinity.
  The model uses `floor(x * 100 + 1/2) / 100`.

## Model

| member | source | states |
|---|---|---|
| `Grading.GradeOf` | app.js:15-23 | every mark gets a grade point in {0,5,...,10}; the letter is the one paired with that point; the letter is "F" exactly when marks < 40, which is exactly when the point is 0 |
| `Grading.GradeFromTens` | app.js:16-21 | from 40 marks up, the grade point is the tens digit plus one, capped at 10 |
| `Grading.GradeMonotone` | app.js:15-22 | more marks never earn fewer grade points |
| `Grading.LetterDeterminesPoint` | app.js:15-22 | two marks share a letter exactly when they share a grade point |
| `Grading.BandsAreConstant` | app.js:15-22 | the thresholds do not overlap: each band maps to a single grade |
| `Sgpa.RoundCents` | app.js:34 | the result is a whole number of hundredths within half a hundredth of the input, halves going up |
| `Sgpa.RoundCentsUnique` | app.js:34 | rounding to hundredths has only one possible answer, so `RoundCents` is exactly `Math.round(x * 100) / 100` |
| `Sgpa.SgpaOf` | app.js:25-35 | 0 when the credits do not sum above 0; always whole hundredths; within half a hundredth of the weighted mean |
| `Sgpa.CalculateSgpa` | app.js:25-35 | the accumulate-then-divide loop computes `SgpaOf` |
| `Sgpa.PointsBetween` | app.js:28-32 | with non-negative credits and grade points in [lo, hi], the point total lies between lo and hi times the credit total |
| `Sgpa.SgpaBetween` | app.js:28-34 | with non-negative credits summing above 0 and grade points in [lo, hi], the SGPA lies in [lo, hi] |
| `Sgpa.SgpaInRange` | app.js:28-34 | with non-negative credits summing above 0, the SGPA lies in [0, 10] |
| `Sgpa.WorkedExample` | app.js:25-35 | marks 95 and 85 on 4 and 3 credits give 9.57 |
| `Text.UpperAt` | app.js:51 | upper-casing maps each character to its upper-case form, position by position |
| `Text.UpperIdempotent` | app.js:82 | upper-casing twice is upper-casing once |
| `Text.UpperKeepsSpaces` | app.js:82 | upper-casing neither adds nor removes a space |
| `Text.TrimStartSpec` | app.js:51 | the leading trim drops only spaces, and what remains does not start with one |
| `Text.TrimEndSpec` | app.js:51 | the trailing trim drops only spaces, and what remains does not end with one |
| `Text.TrimSpec` | app.js:51 | trimming keeps a contiguous slice with no space at either end; everything dropped is a space |
| `Text.NormalFormIsFixed` | app.js:51 | a normalised roll is upper-case, has no space at either end, and both steps leave it unchanged |
| `Text.NormalFormExample` | app.js:51 | "cs101" and " Cs101 " both normalise to "CS101" |
| `Loader.Step` | app.js:50-69 | a row with an empty normalised roll changes nothing; otherwise its roll gets a record (seeded from this row if new) with one subject appended at the end, and every other entry is unchanged |
| `Loader.LoadAt` | app.js:50-69 | a key is present exactly when it is non-empty and some row normalises to it; its record then equals the reference description |
| `Loader.LoadDescribed` | app.js:50-69 | every stored record equals the reference description built from its rows |
| `Loader.LoadKeys` | app.js:51-57 | the keys are exactly the non-empty normalised rolls that occur in the rows |
| `Loader.LoadKeysNormalised` | app.js:51-57 | every key equals its record's roll, is non-empty and upper-case, and is already trimmed |
| `Loader.FirstRowWins` | app.js:54-62 | name, dept and semester come from the first row carrying the roll |
| `Loader.LaterRowsKeepMetadata` | app.js:54-68 | later rows never change a loaded record's name, dept or semester, and only add subjects after the existing ones |
| `Loader.SubjectsInFileOrder` | app.js:64-68 | a record's subjects are those of its rows, one per row, in file order |
| `Loader.AppendsOneSubject` | app.js:64-68 | a row with a non-empty roll appends exactly one subject, at the end of its record |
| `Loader.UnkeyedRowsIgnored` | app.js:51-52 | dropping the rows with an empty normalised roll leaves the table unchanged |
| `Loader.MissingCellsDefault` | app.js:51-67 | each cell on its own: a missing or empty roll gives the empty key; a missing or empty subject, name, dept or semester becomes ""; a missing or empty marks or credits cell is parsed from "0", and any other cell text is handed to the parser unchanged |
| `Loader.RollOnlyRow` | app.js:50-68 | a row holding only a roll cell loads as a record with empty text fields and one subject whose marks and credits are parsed from "0" |
| `Loader.MergedRollsExample` | app.js:50-69 | rolls "cs101" and " Cs101 " merge into one record "CS101" with two subjects |
| `Loader.LoadRows` | app.js:48-73 | the per-row stream loop builds the fold's table, and every stored record's roll is its key |
| `Loader.LoadStudents` | app.js:39-78 | a missing file or an error emitted by the CSV parser gives the empty table, never a partial one; a complete read has exactly the non-empty normalised rolls as keys, each holding the record its rows describe |
| `Service.GetReport` | app.js:81-122 | NotFound exactly when the upper-cased input is not a key; otherwise the stored record unchanged, each subject's letter grade, "-" for both aggregates exactly when some subject has marks < 40, else the SGPA and the plain credit sum |
| `Service.Respond` | app.js:94-112 | the handler's loop with its failure flag computes `GetReport` |
| `Service.LookupIgnoresCase` | app.js:82-83 | an input and its upper-case form give the same answer |
| `Service.LoadedStudentsAreFound` | app.js:82-92 | every loaded student is found by any input whose upper-case form is the stored key |
| `Service.PaddedInputNotFound` | app.js:82-87 | the lookup does not trim: against a loaded table, input with a space at either end is NotFound |
| `Service.PassingSgpaBounds` | app.js:103-112 | with no failed subject and non-negative credits summing above 0, the reported SGPA lies in [5, 10] |
| `Service.NoSubjectsReportsZero` | app.js:106-111 | a student with no subjects is reported with SGPA 0 and 0 credits |
| `Service.FailingExample` | app.js:94-105 | marks 95, 85 and 35 give an "F" and "-" for both aggregates |
| `Service.PassingExample` | app.js:106-121 | marks 95 and 85 on 4 and 3 credits report SGPA 9.57 over 7 credits |

## Left out

- Express setup, CORS, JSON and static serving, `app.listen` and the async startup (app.js:1-13, 125-130): HTTP and process plumbing. The 404 status is represented by the `NotFound` result.
- The file-existence check, `fs.createReadStream` and the `csv-parser` library (app.js:42-49, 70-77): I/O and a foreign parser. The loader receives an outcome. That outcome is a missing file, an error emitted by the CSV parser after some rows, or the parsed rows as `seq<map<string, string>>`.
- Read errors of the file stream itself (app.js:48-49): the `error` handler at app.js:74 is attached to the stream returned by `.pipe(csv())`, and `pipe` does not forward errors from `fs.createReadStream`. Such an error goes unhandled and stops the process instead of resolving `{}`. The model has no outcome for it.
- The console log lines emitted on load success or failure: output only.
- `parseInt` and `parseFloat` (app.js:66-67): they are the abstract `Parsers` parameter, so NaN is not represented.
- Sgpa.SgpaOf: exact `real` arithmetic, so IEEE double rounding in the division and in `Math.round(x * 100)` is not modelled.
- Text.UpperAt: `toUpperCase` is modelled for ASCII letters only. Full Unicode case mapping, such as "ß" becoming "SS", is not modelled.
- `script.js`: browser DOM rendering and `fetch` calls, with no computational core.
