# Image-Watermarker, modelled in Dafny

Image-Watermarker is a Node.js script (`index.js`). It stamps a text
watermark on every image in a source directory and writes the results to
a destination directory. Its progress is kept in `logs.json`, so that an
interrupted run can be resumed. This project models two parts of the
script and proves properties of them.

- **The progress log** (`progress.dfy`, module `Progress`). This is the
  `progressData` record, with the fields `batchNo`, `filesRemaining`,
  `filesDone`, `fileInProgress` and `filesErrored`.
  - It is the class `ProgressData`, whose methods update those fields in
    place, as the script does.
  - The extra field `persisted` holds the content of `logs.json`. It is
    assigned exactly where the script writes that file.
  - The methods are proved against functions on a `Store` (the record in
    memory and the record in the file):
    - `Bootstrapped`, `Reclaimed` and `BatchStarted` for the startup steps;
    - `Claimed`, `DoneCommitted`, `MissingSkipped`, `Step` and `Run` for
      the per-file loop;
    - `Session` for a whole invocation.
  - Module `RunProperties` (`run_properties.dfy`) proves what a whole
    batch does and what `logs.json` holds along the way.
  - Three facts about each source file are inputs to the model (`Oracle`):
    whether it exists; whether probing it succeeds (`sizeOf`,
    `createCanvas` and the font and padding helpers, which run outside any
    error handler); and whether loading, drawing and encoding it succeed.
  - A file that exists but cannot be probed (`Aborts`) makes the exception
    reject processImages. The loop stops there, that file stays last in
    `filesRemaining`, nothing is written, and the summary is not printed.
    The next invocation stops at the same file again (`AbortRecurs`).
- **The placement and encoding helpers** (`geometry.dfy`, module
  `Geometry`): `convertToHex`, `setPosition`, `setFontSize` and
  `setPadding`.
- **The JavaScript built-ins they rely on** (`text.dfy`, module `Text`):
  splitting on one character, ASCII lower-casing, printing numbers in base
  10 and 16, and reading digit strings.

Coordinates and sizes are exact reals. File names are strings.

Where the code and the intended design differ, the model follows the code:
- Orphan reclaim appends the interrupted file to `filesErrored` but leaves
  it in `fileInProgress` too. The lists are therefore not kept disjoint.
  The reclaimed record reaches logs.json only when files remain, through
  the batch counter's write (index.js:59), and any file the loop claims
  overwrites the slot (index.js:100). So a second startup lists the file
  twice when the first one found files remaining and claimed none of them,
  every one being missing or throwing at its probe
  (`ReclaimTwiceAcrossStartups`); when the first found nothing remaining,
  nothing was written and the second lists it once
  (`ReclaimOnceWhenNothingRemains`).
- A file whose render fails is in no list afterwards. It stays in
  `fileInProgress` until the next existing file takes the slot.
- A missing file is moved to `filesErrored` in memory only. `logs.json` is
  not rewritten. So the summary, which re-reads `logs.json`, can omit
  trailing missing files, and the next invocation takes them again.

## Model

| member | source | states |
|---|---|---|
| `Progress.ProgressData.constructor` | index.js:46 | before loading, `logs.json` holds the given record and memory is empty |
| `Progress.ProgressData.ResetProgressLogs` | index.js:172-183 | `logs.json` becomes batch 0 with every list empty and no file in progress; memory is untouched |
| `Progress.ProgressData.SetFiles` | index.js:211-231 | a present list writes batch 0 with the normalised list as remaining and everything else empty; an absent (falsy) list leaves `logs.json` as it was |
| `Progress.ProgressData.Load` | index.js:46 | memory becomes a copy of `logs.json` |
| `Progress.ProgressData.Bootstrap` | index.js:47-50 | when nothing is remaining and nothing is done, the listing becomes the remaining list and is written; otherwise nothing changes |
| `Progress.ProgressData.ReclaimOrphan` | index.js:52-54 | a non-empty in-progress name is appended to the errored list; only that list changes, the slot keeps the name, and nothing is written |
| `Progress.ProgressData.StartBatch` | index.js:56-59 | the batch runs exactly when files remain; then `batchNo` goes up by one and is written, otherwise nothing changes |
| `Progress.ProgressData.ProcessNext` | index.js:84-133 | one iteration on a file that does not abort the loop changes the record and `logs.json` as `Step` says and prints what `StepReport` says |
| `Progress.ProgressData.ProcessImages` | index.js:81-135 | the loop ends in the state `Run` gives and prints exactly the percentages `RunReports` gives; its promise resolves exactly when nothing remains, and is rejected when a file aborts the loop |
| `Progress.Launch` | index.js:29-60 | one invocation: a reset when configured or when any argument is "reset", the override, load, bootstrap, reclaim and batch, in that order, equal `Session` and `SessionReports`; the summary is printed exactly when a batch ran and its loop emptied the remaining list |
| `Progress.Step` | index.js:84-133 | one iteration that does not abort removes exactly the last remaining file and keeps the batch number |
| `Progress.Run` | index.js:82-134 | the loop stops only when nothing remains or the next file aborts it, and never changes the batch number |
| `Progress.StepReport` | index.js:122-125 | an iteration that does not abort prints one percentage exactly when the file exists and renders; that percentage is the rounded completion of the record it has just written to logs.json, done over done plus remaining, and lies in 0..100 |
| `Progress.RunReports` | index.js:125 | the loop prints at most one percentage per remaining file, each in 0..100 |
| `Progress.ReportsAfterStep` | index.js:82-134 | helper behind the loop invariant of `ProcessImages`: one unfolding of `Run` and `RunReports`, so an iteration that does not halt the loop leaves the outcome of the whole loop unchanged and moves its own line from the lines still to come to the lines printed |
| `Progress.NormalizeFileName` | index.js:213-219 | ".jpg" is appended exactly when the last '.'-segment is not "jpg", and the result's last segment is always "jpg" |
| `Progress.NormalizeFiles` | index.js:213-219 | the map keeps length and order, entry by entry |
| `Progress.PercentComplete` | index.js:125 | the completion percentage lies in 0..100, is 100 when nothing remains, and, in exact arithmetic, is within one half of `done / (remaining + done) * 100` |
| `RunProperties.StepTakesLast` | index.js:82-133 | an iteration takes the last remaining file and removes exactly it. A missing file goes to the errored list with nothing else changed and nothing written. A rendered file goes to the done list, the slot is cleared, and the record is written. A failed render leaves the file only in the slot |
| `RunProperties.RunStopsAtAbort` | index.js:88-98 | a file that exists but cannot be probed stops the loop at once: nothing changes, nothing is written, nothing is printed |
| `RunProperties.Unreached` | index.js:82-98 | the part of the remaining list the loop never takes is a front part of it, and is empty or ends with a file that aborts the loop, and no file behind it aborts, so the loop stops at the aborting file nearest the back, the first it takes |
| `RunProperties.UnreachedEmpty` | index.js:82-98 | nothing is left unreached exactly when no remaining file aborts the loop |
| `RunProperties.UnreachedSkips` | index.js:82-98 | files that cannot abort the loop, added at the back, do not change where it stops |
| `RunProperties.RunStops` | index.js:82-134 | the loop leaves exactly the unreached part remaining, so it ends with nothing remaining exactly when no file aborts it |
| `RunProperties.StepOutcome` | index.js:100-132 | an iteration adds the file to the done list if it rendered and to the errored list if it was missing; the slot becomes empty, the file, or stays, by its outcome |
| `RunProperties.RunGathers` | index.js:82-134 | over a whole run, the done or errored list gains the taken files of its outcome, in the order the loop takes them |
| `RunProperties.RunOutcome` | index.js:82-134 | over a whole run, the done list gains the rendered files and the errored list the missing ones, in last-first order; `batchNo` is unchanged |
| `RunProperties.RunSlot` | index.js:100-123 | the slot after a run is decided by the front-most existing file the run takes: cleared if it rendered, its name if its render failed |
| `RunProperties.RunAccountsForEveryFile` | index.js:100-132 | every file is accounted for: old lists plus remaining equal new done plus new errored plus still remaining plus the taken files whose render failed |
| `RunProperties.OutcomesPartition` | index.js:88-132 | each file taken has exactly one of three outcomes: rendered, missing, render failed |
| `RunProperties.RunReportsPerRendered` | index.js:125 | the loop prints exactly one percentage per file it adds to the done list |
| `RunProperties.WriteLags` | index.js:101 | right after a write, `logs.json` equals memory |
| `RunProperties.StepKeepsLag` | index.js:100-132 | one iteration keeps `logs.json` behind memory by missing files only |
| `RunProperties.RunKeepsLag` | index.js:82-134 | throughout the loop, `logs.json` holds every file memory still has remaining, plus only files found missing |
| `RunProperties.RunEndsWrittenWhenLastPresent` | index.js:100-124 | when the last file taken exists, the run ends with `logs.json` equal to memory |
| `RunProperties.RunEndsUnwrittenWhenLastMissing` | index.js:130-133 | when the last file taken is missing, `logs.json` ends listing more files as remaining than memory |
| `RunProperties.NormalizeFilesIdempotent` | index.js:213-219 | every normalised name ends in segment "jpg", and normalising twice equals normalising once |
| `RunProperties.BootstrapIdempotent` | index.js:47-50 | bootstrapping twice equals bootstrapping once, and once a non-empty listing is installed, a later listing is ignored |
| `RunProperties.ResetThenRecover` | index.js:46-54 | after a reset, startup installs the listing at batch 0 and writes it |
| `RunProperties.OverrideThenRecover` | index.js:46-54 | after an override, startup keeps the normalised list with empty done and errored lists; an empty list lets the listing in instead |
| `RunProperties.ReclaimKeepsSlot` | index.js:52-54 | reclaim keeps the slot, so reclaiming the same record twice lists the same file twice |
| `RunProperties.RunWithoutClaimKeepsDisk` | index.js:82-134 | a loop that claims no file, every remaining file being missing or throwing at its probe, never writes logs.json |
| `RunProperties.ReclaimTwiceAcrossStartups` | index.js:29-60 | when the first startup finds files remaining, each of them missing or throwing at its probe, the next startup's reclaim lists the interrupted file twice |
| `RunProperties.ReclaimOnceWhenNothingRemains` | index.js:29-60 | when the first startup finds nothing remaining, nothing is written and the next startup lists the interrupted file once |
| `RunProperties.CrashDuringRenderRecovered` | index.js:52-54 | a crash after a file is claimed leaves it in `logs.json`'s slot, and the next startup appends it to the errored list |
| `RunProperties.SessionStops` | index.js:56-60 | an invocation leaves in memory exactly the part of the recovered list the loop never reaches, so nothing unless a file aborts it |
| `RunProperties.LaggingDiskHaltsAlike` | index.js:46-50 | when the loop halted and `logs.json` trails memory, the files `logs.json` lists behind the halt do not change where a new loop stops |
| `RunProperties.AbortRecurs` | index.js:46-98 | after an aborted loop, the next invocation without reset or override stops at the same file with the same files remaining |
| `RunProperties.SessionCountsBatch` | index.js:56-59 | an invocation raises `batchNo` by one exactly when startup leaves files to process |
| `RunProperties.SessionSummaryLags` | index.js:62-70 | when it is printed, the summary read back from `logs.json` has memory's batch number and done list; its errored list is a prefix of memory's |
| `RunProperties.SessionScenario` | index.js:46-60 | a fresh log with "a.jpg" and "b.jpg", where only "a.jpg" exists, ends at batch 1 with "a.jpg" done, "b.jpg" errored, and `logs.json` equal to memory |
| `Geometry.Opacity` | index.js:190-191 | the opacity byte is at most 255 and is `(100 - t) / 100 * 255` rounded, halves up |
| `Geometry.ConvertToHex` | index.js:185-194 | two lower-case hex digits; "00" when the transparency is outside 0..100; otherwise the digits denote `Opacity(t)`, zero-padded |
| `Geometry.ConvertToHexExamples` | index.js:185-194 | 0 gives "ff", 100 gives "00", 50 gives "80", -5 and 150 give "00" |
| `Geometry.ApplyKeyword` | index.js:152-167 | one keyword: "left" and "right" set only x, "top" and "bottom" only y, anything else changes nothing; this agrees with the last-keyword readings `LastX` and `LastY` on a one-keyword list |
| `Geometry.ApplyKeywords` | index.js:151-168 | the keyword fold sets each axis from the last keyword for that axis (`LastX`, `LastY`); "center", empty and unknown keywords change nothing |
| `Geometry.LastAfterFirst` | index.js:151-168 | an earlier keyword only matters when no later keyword targets its axis |
| `Geometry.SetPosition` | index.js:148-170 | each coordinate is the centred default plus offset, unless a keyword for that axis occurs; then the last one decides |
| `Geometry.SetPositionTopLeft` | index.js:148-170 | "top left" with padding (10, 20) and no offsets puts the text at (10, ascent + 20) |
| `Geometry.SizeTokenUnique` | index.js:202 | a `\d+px` match starting at a given position has one end |
| `Geometry.DigitRunEnd` | index.js:202 | the run of digits starting at a position ends at the first non-digit |
| `Geometry.FindSizeToken` | index.js:202-203 | finds the leftmost `\d+px` match, or reports that there is none |
| `Geometry.ToInt32` | index.js:203 | the bitwise or with 0 wraps to a signed 32-bit value congruent to its input, and leaves values already in range alone |
| `Geometry.Trunc` | index.js:203 | truncation toward zero |
| `Geometry.ScaledFontSize` | index.js:197-203 | the size is a signed 32-bit value; 0 for a zero base width; otherwise the truncation of width times (every digit of the font read as one number) over base width, wrapped modulo 2^32: equal to it whenever it lies in the 32-bit range, congruent to it always |
| `Geometry.SetFontSize` | index.js:196-204 | only the first `<digits>px` token is replaced, by the scaled size and "px", and every other character is kept; without a token the font is returned unchanged |
| `Geometry.SetFontSizeExample` | index.js:196-204 | "40px" at base width 400 becomes "80px" at width 800 |
| `Geometry.SetFontSizeAtBaseWidth` | index.js:196-204 | in exact arithmetic, at the base width a font whose only digits form its size token is unchanged |
| `Geometry.SetFontSizeReadsEveryDigit` | index.js:197-199 | every digit of the font string enters the size: "9 4px" becomes "9 94px" at the base width |
| `Geometry.SetPadding` | index.js:206-209 | both paddings are scaled by `width / baseWidth`, so their proportion is kept and the base width leaves them unchanged; a zero base width gives no padding |
| `Text.FirstIndex` | index.js:149 | the position of the first occurrence of the separator |
| `Text.LastSegment` | index.js:214 | `split(sep).pop()` is a separator-free suffix of the string that is all of it or follows a separator |
| `Text.Split` | index.js:149 | `split` gives at least one piece, no piece contains the separator, and joining the pieces gives back the string |
| `Text.SplitJoin` | index.js:214 | splitting a join of separator-free pieces gives back the pieces |
| `Text.SplitAppend` | index.js:214-215 | appending a separator and a separator-free piece adds exactly that piece as the last segment |
| `Text.Lower` | index.js:152 | `toLowerCase` maps each character on its own, ASCII letters to lower case |
| `Text.ToDigits` | index.js:192 | the digits of a number in base 10 or 16, without leading zeros; one digit exactly when the number is below the base |
| `Text.FromToDigits` | index.js:192 | reading the printed digits gives back the number |
| `Text.ToFromDigits` | index.js:199 | digits without a leading zero are the printed digits of their value |
| `Text.Numeral` | index.js:192 | `toString(radix)` prints lower-case digits, each below the radix |
| `Text.NumeralRoundTrip` | index.js:192 | reading `toString(radix)` gives back the number |
| `Text.NumeralLeadingZero` | index.js:192 | the zero padding does not change the value |
| `Text.NumeralOfDigits` | index.js:203 | a decimal digit string without a leading zero prints as itself |
| `Text.Decimal` | index.js:203 | the decimal text of an integer starts with '-' exactly when the integer is negative, and the rest is a non-empty run of decimal digits without a leading zero unless it is "0" itself |
| `Text.DecimalRoundTrip` | index.js:203 | the digits after the sign read back as the absolute value |
| `Text.DigitsOf` | index.js:197-198 | `replace(/\D/g, "")` keeps only digits, in order, never lengthens the string, returns an all-digit string unchanged and a digit-free one as empty |
| `Text.DigitsOfAppend` | index.js:197-198 | the digits of a concatenation are the digits of each part, concatenated |

## Left out

- Reading and parsing `config.json` and `logs.json`, and JSON encoding (index.js:8-26, 46, 62). The log is a value: `persisted` stands for the file, and `Load` copies it. An unreadable or corrupt `logs.json` is not modelled.
- The `batchStartTime` field. It is written as 0 and never read.
- `fs.existsSync`, `readdirSync`, `sizeOf`, `loadImage`, `createCanvas`, `drawImage`, `measureText`, `fillText` and `toBuffer` are foreign library calls. Existence and render success are the `Oracle` inputs. The directory listing, image size and text metrics are parameters.
- The output image and the font and padding chosen for it (index.js:93-98, 108-118). Their only effect on the progress log is whether probing throws, which is the `probes` input, and whether the render fails, which is the `renders` input. The helpers that compute them are modelled on their own.
- `rotate` (index.js:137-146). It uses `Math.atan`, `Math.PI` and canvas transforms, which are floating point and a foreign API.
- async/await and promise sequencing (index.js:60-75, 103). The loop is modelled as strictly sequential.
- Console output, the `prompt-sync` pauses and `Date` timing (index.js:57, 63-73). The completion percentages of line 125 are kept, as the returned reports.
- The unused `off` import (index.js:4).
- IEEE double arithmetic. `Opacity`, `SetPosition`, `SetPadding` and `ScaledFontSize` compute exactly, on integers and reals. They can differ from the script where doubles round.
- PercentComplete: rounds the exact quotient. The script's doubles can round it down across the half: for 23 done of 40 the model gives 58, while the script prints 57 (23 / 40 * 100 is 57.49999… in doubles).
- SetFontSizeAtBaseWidth: holds in exact arithmetic only. In doubles, `width * (size / baseWidth)` can fall just below the size, and `| 0` then prints one less: "29px" at base width 400 and width 400 becomes "28px", and so do "29px" at 800, "13px" at 720 and "39px" at 1080 (each one less).
- ConvertToHex: takes integer transparencies only; a fractional percentage is not modelled.
- SetPadding: a zero base width gives `None` rather than the infinite or NaN paddings the script would pass on.
- ScaledFontSize: `Number()` of the digit string is exact, whereas the script loses precision beyond 2^53. A zero base width gives 0, as `| 0` turns Infinity and NaN into 0.
- Lower: ASCII letters only. The five position keywords are ASCII, so only the lower-casing of other letters is not modelled.
- Non-string values where the script expects strings (a numeric `position`, a non-string entry in `files`), which JavaScript coerces or rejects at run time.
