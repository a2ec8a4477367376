# serato2cue in Dafny

serato2cue turns the rows of a Serato DJ session export into a CUE sheet.
Row 0 is a header. Row 1 carries the session date in its first field. Every
later row is one played track: title, performer, start time and end time.
The converter works in three steps:

1. It builds a `Track` per row.
2. It closes the gaps: every track but the last ends where the next one
   starts.
3. It accumulates the running elapsed time. Each track is printed as a CUE
   `TRACK` block whose `INDEX 00` is that elapsed time in `MM:SS:00` form.

The model follows the script line by line, in two layers:

- Specification functions (modules `Numerals`, `Clock`, `CueTime`,
  `Tracks`, `Session`). Ingestion, reconciliation, accumulation, rendering
  and the standard-output text are pure functions of the rows. Lemmas
  about them state the properties the program relies on:
  - each end time is the next start time;
  - elapsed time is a prefix sum of lengths;
  - the lengths telescope to last end minus first start;
  - time parsing and printing round-trip;
  - the run succeeds exactly under stated conditions.
- The imperative `main` (module `Convert`). `Track` is a class whose
  `endTime` and `elapsed` fields are overwritten in place by loops, as the
  script does. Each loop is proved to compute the corresponding
  specification function.

Representation:

- A time is its second of the session day (an `int`), and a duration is a
  whole number of seconds.
- Every track of a run is read against the one session date. The date
  therefore only decides whether parsing succeeds.
- Python's two possible exceptions become the `Failure` values `ValueError`
  and `IndexError`, carried by a `Result`.
- The CSV reader is outside the model: the input is the rows, already split
  into fields (`seq<seq<string>>`).

Behaviour reproduced as the code has it:

- The preamble f-string is evaluated while `recorded_date` is still `None`.
  Every sheet therefore says `REM DATE None"`, with the stray quote, and the
  captured date never appears (`Session.PreambleText`).
- Only `INDEX 00` is printed. A richer sheet would add `INDEX 01` for the
  gap-closed start of each track; this script does not, and neither does
  the model.
- A session whose start times go back in time (midnight rollover) is not
  rejected up front. The elapsed time of such a track becomes negative, and
  `formatted_time` then raises `ValueError`. The model follows the code
  rather than adding a validation step. `Session.OutputOkIff` states
  exactly when a run succeeds.
- Title and performer are copied verbatim. Quotes are not escaped.
- `print(out)` runs only after every step has succeeded. A run that raises
  therefore writes nothing to standard output (`Session.StandardOutput`,
  `Convert.Run`).

## Model

| member | source | states |
|---|---|---|
| Numerals.ValueOfDecimal | serato2cue.py:29-30 | int() applied to str(n) gives n back |
| Numerals.DecimalLength | serato2cue.py:30 | str(n) has two digits for 10..99 and more than two from 100 on |
| Numerals.Pad2Value | serato2cue.py:30 | f"{n:02}" reads back as n; it is exactly two wide below 100 and wider from 100 on |
| Numerals.Pad2OfTwoDigits | serato2cue.py:50 | re-padding the number that a two-digit field writes reproduces the field |
| Numerals.TwoDigitsOfPad2 | serato2cue.py:50 | a number below 100, padded, is a two-digit field that parses back to the number |
| Clock.TimeFromString | serato2cue.py:48-50 | a parsed time is a second of the day, in [0, 86400) |
| Clock.TimeFromStringIgnoresSuffix | serato2cue.py:48-50 | only data[:8] matters: any text after the first eight characters (such as " GMT-4") leaves the result unchanged |
| Clock.TimeFromStringRoundTrip | serato2cue.py:48-50 | the HH:MM:SS text of a time t, followed by any suffix and read against any well-formed date, parses back to t |
| Clock.TimeFromStringInverse | serato2cue.py:48-50 | a field that parses has at least eight characters, and its first eight are the HH:MM:SS text of the parsed time |
| Clock.TimeFromStringFailures | serato2cue.py:50 | in the strict HH:MM:SS grammar (see Left out), a malformed date, or a field shorter than eight characters, raises ValueError |
| CueTime.FormattedTime | serato2cue.py:26-30 | formatted_time succeeds exactly for 0 <= d < 86400 and raises ValueError otherwise (str(d) then has a "day" part int() rejects); the text is at least eight characters and always ends with the frame field ":00" |
| CueTime.FormattedTimeFoldsHours | serato2cue.py:26-30 | for 0 <= d < 86400, the fields H:MM:SS of str(d) print as H*60+MM, SS and 00, which equals pad2(d div 60):pad2(d mod 60):00 |
| CueTime.CueTimeFields | serato2cue.py:30 | the minutes, seconds and frames fields written out are found back at the positions a CUE reader looks at |
| CueTime.CueTimeFramesOfClock | serato2cue.py:30 | minutes and seconds printed in formatted_time's layout denote (minutes*60+seconds)*75 CUE frames |
| CueTime.FormattedTimeRoundTrip | serato2cue.py:26-30 | whenever formatted_time succeeds, its text denotes exactly d seconds in CUE frames |
| CueTime.FormattedTimeWidth | serato2cue.py:26-30 | the result is 8 characters exactly when d is below 100 minutes; from 100 minutes on the minutes field is wider |
| CueTime.FormattedTimeExample | serato2cue.py:26-30 | 3723 s (1:02:03) prints as "62:03:00" |
| Tracks.TrackRecord.Length | serato2cue.py:21-23 | end_time - start_time, negative when the end is logged before the start; Session.Telescoping and Session.ReconciledTotal state what the lengths add up to |
| Tracks.TrackRecord.Heading | serato2cue.py:36-39 | the TRACK, TITLE and PERFORMER lines and the INDEX 00 label, title and performer verbatim; Tracks.RenderRoundTrip proves every rendered block begins with it |
| Tracks.TrackRecord.Render | serato2cue.py:32-45 | str(track) succeeds exactly when 0 <= elapsed < 86400 and otherwise raises ValueError |
| Tracks.RenderRoundTrip | serato2cue.py:32-45 | str(track) succeeds exactly when 0 <= elapsed < 86400; it begins with the TRACK/TITLE/PERFORMER heading, and its INDEX 00 field reads back as the elapsed time; the track number reads back as the index |
| Tracks.Track.constructor | serato2cue.py:12-19 | a new Track object holds exactly the given field values |
| Session.PreambleFor | serato2cue.py:71-73 | the preamble f-string for a given recorded_date; Session.PreambleText states the text main actually prints |
| Session.Preamble | serato2cue.py:69-73 | the preamble as main evaluates it, with recorded_date still None; Session.PreambleText states its text |
| Session.PreambleText | serato2cue.py:69-73 | the preamble is the fixed three-line text with `REM DATE None"`, whatever the session date |
| Session.ParseRow | serato2cue.py:87-95 | a row builds a Track exactly when it has four fields whose two times parse. The Track has the given index, title and performer verbatim, the parsed times and elapsed 0. Fewer than three fields raises IndexError. Otherwise the error of the first failing argument is raised, evaluated left to right |
| Session.IngestPrefix | serato2cue.py:75-95 | the tracks the loop has appended after rows[2..n], or the first error; Session.IngestPrefixOkIff, IngestPrefixBuilt and IngestPrefixFails state its success condition, contents and error |
| Session.Ingested | serato2cue.py:75-95 | a successful ingestion has one track per row after the first two (none with fewer than two rows); a date row without a field raises IndexError |
| Session.IngestPrefixOk | serato2cue.py:75-95 | if every row of rows[2..n] parses, ingesting them succeeds |
| Session.IngestPrefixParses | serato2cue.py:75-95 | if ingesting rows[2..n] succeeds, every one of those rows parses |
| Session.IngestPrefixOkIff | serato2cue.py:75-95 | ingesting rows[2..n] succeeds if and only if every one of them parses |
| Session.IngestPrefixBuilt | serato2cue.py:75-95 | a successful ingestion of rows[2..n] yields n-2 tracks; track k is the one row k+2 builds with index k+1 |
| Session.IngestPrefixFails | serato2cue.py:75-95 | once a row fails, ingesting any longer prefix fails with that same error |
| Session.IngestedShape | serato2cue.py:75-95 | with R >= 2 rows a successful ingestion has exactly R-2 tracks; track k (from 1) is built from row k+1 with index k, title and performer verbatim, times read against row 1's date, and elapsed 0; with fewer rows there are no tracks |
| Session.IngestedOkIff | serato2cue.py:75-95 | ingestion succeeds exactly when row 1 has a field and every later row has four fields whose times parse against that date |
| Session.Reconciled | serato2cue.py:100-103 | reconciliation keeps the number of tracks |
| Session.ReconciledAt | serato2cue.py:100-103 | track i < n-1 takes track i+1's start as its end; the last track is unchanged |
| Session.ReconciledChained | serato2cue.py:100-103 | after reconciliation each end equals the next start. The last track keeps its parsed end. Index, title, performer, start and elapsed are unchanged. With n <= 1 nothing changes |
| Session.SumLengths | serato2cue.py:105-109 | the accumulator over the given tracks is never negative when no track ends before it starts |
| Session.SumLengthsStep | serato2cue.py:105-109 | the accumulator after i+1 tracks is the accumulator after i plus track i's length |
| Session.Telescoping | serato2cue.py:100-109 | for chained tracks the sum of lengths is last end minus first start |
| Session.ReconciledTotal | serato2cue.py:100-109 | after reconciliation the total length, which is the final accumulator, is the last parsed end minus the first start |
| Session.WithElapsed | serato2cue.py:105-109 | the accumulation keeps the number of tracks |
| Session.ElapsedIsOffset | serato2cue.py:100-109 | after reconciliation and accumulation, track k's elapsed is its start minus the first track's start (so elapsed[0] == 0) |
| Session.ElapsedMonotone | serato2cue.py:100-109 | with non-decreasing starts the elapsed times start at 0 and never decrease; if the last track does not end before it starts, the final accumulator is at least the last elapsed time |
| Session.Rendered | serato2cue.py:105-109 | the concatenated blocks; the only exception rendering raises is ValueError, and a successful text has at least eight characters per track |
| Session.RenderedStep | serato2cue.py:108 | appending track i's block extends the output text, or raises that block's error |
| Session.RenderedPrefix | serato2cue.py:108 | once a block fails, the whole rendering fails with that error |
| Session.RenderedOkIff | serato2cue.py:105-109 | rendering succeeds exactly when every elapsed time is in [0, 86400) |
| Session.Output | serato2cue.py:65-112 | every sheet begins with the preamble; once ingestion has succeeded the only exception left is ValueError |
| Session.StandardOutput | serato2cue.py:112 | standard output is empty exactly when the run raises |
| Session.OutputOkIff | serato2cue.py:65-112 | a run produces a sheet exactly when ingestion succeeds and no track starts before the first one |
| Convert.ReadTracks | serato2cue.py:75-95 | the ingestion loop returns the tracks the ingestion specification gives, or its error, as distinct fresh objects, plus the recorded date of row 1 |
| Convert.CloseGaps | serato2cue.py:100-103 | the in-place loop leaves the objects holding the reconciled tracks |
| Convert.RenderTracks | serato2cue.py:105-109 | the accumulation loop's text is the rendering of the tracks with accumulated elapsed times, or its error, and the final accumulator is the sum of lengths. Every visited object holds its accumulated elapsed time; the rest are unchanged |
| Convert.Run | serato2cue.py:65-112 | main writes the preamble and the blocks followed by a newline, or nothing when a step raises |

## Left out

- Command-line and file handling (serato2cue.py:116-121): argv, open(), the usage message and exit(1). csv.reader is a library call, so the rows arrive already split.
- The DEBUG flag and every debug or pprint line (serato2cue.py:9, 27, 33-34, 40-44, 53-62, 66, 76-78, 97-98, 111, 113, 123-124). The model is the program with DEBUG off.
- Clock.TimeFromString: does not model strptime's leniency (one-digit fields, a leading space) or calendar validation (days per month, leap years). A date is well formed when it is DD/MM/YYYY with day 1-31, month 1-12 and year at least 1. A time must be exactly HH:MM:SS.
- Times carry no date: every track shares the session date, so a datetime is modelled as its second of the day. Sessions crossing midnight are therefore handled as the code handles them: with negative lengths, and then a failing formatted_time.
- CueTime.FormattedTime: str(timedelta) itself is not modelled. Negative durations and durations of a day or more, whose text has a "day" part that int() rejects, are a ValueError; FormattedTimeFoldsHours ties the result to the H:MM:SS fields. Microseconds cannot occur with whole-second times.
- Convert.CloseGaps, Convert.RenderTracks: require the Track objects to be distinct. The objects ReadTracks returns are, since each is freshly created.
- Convert.RenderTracks: after a failure it reports only how many objects it updated, as a ghost count, not a partial output text, because the half-built text is discarded when the exception propagates.
