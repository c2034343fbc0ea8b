# discogs2csv, modelled in Dafny

discogs2csv reads the Discogs releases dump, an XML document, from standard
input. It writes one CSV row per song. The header is
`id,title,album,artist,genre,country,released,duration,released-timestamp,duration-float`.

The program makes a single streaming pass over the reader's events and keeps
three pieces of state:

- **Scope.** The stack of open element names. A start tag always pushes its
  name. An end tag pops only when the innermost open element has the closing
  name.
- **Release.** The record being filled in:
  - A `release` start tag, at any depth, replaces the record with an empty one
    and captures the first `id` attribute.
  - Text at six exact element paths sets the album, genre, country, release
    date, artist, or appends a song. The last write wins.
  - Text at `track/duration` sets the duration of the last song, if there is
    one.
- **Output.** The rows written so far.

At a `release` end tag the record is taken, and an empty one is left behind:

- An incomplete record (no id, album or artist) writes nothing.
- Otherwise the id must parse as a `usize`; if it does not, the run stops.
- Each of the first 100 songs gives one row. Row i has id `id * 100 + i`.
  Absent optional fields become empty strings.
- Each row also has two derived columns:
  - `duration-float` is `"m:s"` rewritten to `"m.s"`, split at the first colon.
  - `released-timestamp` is the Unix time, in seconds, of midnight UTC on the
    release date.
- A year that is not an `i32`, or lies outside the `time` crate's range
  -9999..9999, stops the run.

The project has these modules:

- `Wrappers`: `Option` and `Result`.
- `Numeric`: Rust's `str::parse` for unsigned and signed integers of a given
  range, and `to_string` on integers.
- `Calendar`: the proleptic Gregorian day count.
- `Derive`: `split_once` and the two derived columns.
- `Events`: the reader's events, attribute lookup and the scope tracker.
- `Releases`: the record, how text fills it, and how it expands into rows.
- `Engine`:
  - the pure transition `Next` and its fold `Process`;
  - the class `Converter`, whose `Step`, `Flush` and `Run` methods update
    the scope, the record and the rows in place;
  - `Convert`, the whole program on an event stream.
- `Walkthrough`: a complete small document, followed event by event to its
  output.

Two consequences of how the code derives the timestamp:

- A bare year such as `"2001"` has no `-`, so `split_once` gives nothing and
  the row has no timestamp.
- An unparseable year reaches `unwrap()` and aborts the run.

## Model

| member | source | states |
|---|---|---|
| Engine.Converter.constructor | src/main.rs:36-52 | The converter starts with an empty scope and an empty record, and the header is the only row written. |
| Engine.Converter.Step | src/main.rs:54-190 | One event updates the scope, record and rows exactly as `Next` says. A fatal event returns its error and adds no row. |
| Engine.Converter.StartTag | src/main.rs:56-71 | A start tag updates the scope and record exactly as `Next` says. |
| Engine.Converter.EndTag | src/main.rs:72-143 | An end tag updates the state exactly as `Next` says. If it is fatal, it returns the error and adds no row. |
| Engine.Converter.TextEvent | src/main.rs:145-184 | A text event updates the record exactly as `Next` says. |
| Engine.Converter.Flush | src/main.rs:79-141 | At a `release` end the record is taken and an empty one is left. The scope is unchanged. Either exactly the record's expansion is appended, or the run turns fatal with the rows as they were. |
| Engine.Converter.Run | src/main.rs:54-190 | The loop over the whole stream reaches the rows and outcome of `Process`. It stops at the first fatal event. |
| Engine.Convert | src/main.rs:30-197 | The program's output and outcome on a stream are those of `Process` from the initial state. |
| Engine.Next | src/main.rs:54-190 | One event never removes a row, and only a `release` end tag can be fatal. An ignored event (a self-closing element, comment, CDATA, declaration, processing instruction or doctype) leaves the whole state unchanged. The other cases are stated by NextStart, NextEnd, NextReleaseEnd and NextText. |
| Engine.Process | src/main.rs:54-190 | A run is fatal only if the stream holds a `release` end tag. Its fold law is ProcessConcat, and ProcessAppendsRows, ProcessScope and ProcessKeepsRowWidth state what it preserves. |
| Engine.NextStart | src/main.rs:56-71 | A start tag pushes its name and writes nothing. A `release` start at any depth resets the record to one holding only the first `id` attribute. |
| Engine.NextEnd | src/main.rs:72-78 | An end tag pops the scope exactly when the innermost element has its name, and otherwise keeps it. A non-`release` end changes nothing else. |
| Engine.NextReleaseEnd | src/main.rs:79-141 | A `release` end succeeds exactly when the record's expansion does. It then leaves an empty record and appends the expansion. An incomplete record appends nothing. |
| Engine.NextText | src/main.rs:145-184 | A text event changes only the record, as `Captured` says for the current scope. |
| Engine.ProcessConcat | src/main.rs:54-190 | The pass is a left fold. A stream split in two is processed as the first part, then the second from where the first stopped, unless the first part was fatal. |
| Engine.ProcessTrace | src/main.rs:54-190 | If each successive step succeeds, the run ends in the last state reached. |
| Engine.ProcessAppendsRows | src/main.rs:128-139 | Rows are only ever appended. The rows before a run are a prefix of the rows after it. |
| Engine.ProcessScope | src/main.rs:57-77 | After a run that ends normally, the scope is what the scope tracker alone computes. |
| Engine.ProcessKeepsRowWidth | src/main.rs:128-139 | If every row so far has ten columns, every row written later has ten columns too. |
| Engine.ConvertOutputShape | src/main.rs:36-47 | The output starts with the header, and every row has its ten columns. |
| Engine.ConvertWellNestedScope | src/main.rs:73-77 | On well-nested input that ends normally, the scope ends empty. |
| Events.Lookup | src/main.rs:62-64 | Gives None exactly when no attribute is named `id`. Otherwise gives the value of the first attribute with that name. |
| Events.ScopeStep | src/main.rs:57-77 | A start tag pushes its name. An end tag either leaves the scope as it was or removes exactly its own name from the top. Other events leave the scope alone. |
| Events.UnmatchedEndKeepsScope | src/main.rs:73-77 | An end tag that does not name the innermost open element leaves the scope alone. |
| Events.MatchedEndPops | src/main.rs:73-77 | An end tag naming the innermost open element removes exactly that element. |
| Events.WellNestedRestoresScope | src/main.rs:57-77 | Over properly nested events every end tag pops, and the scope returns to where it began. |
| Releases.Captured | src/main.rs:145-184 | Text never changes the id or any song title. It adds a song exactly on the track-title path. The field-by-field behaviour is stated by CapturedScalars, CapturedTrackTitle and CapturedTrackDuration. |
| Releases.CapturedScalars | src/main.rs:150-169 | Text sets album, genre, country, released or artist exactly when the scope is that field's full path. The id never changes. Songs change only on the two track paths. |
| Releases.CapturedTrackTitle | src/main.rs:171-177 | A track title appends the song `(title, None)` and changes nothing else. |
| Releases.CapturedTrackDuration | src/main.rs:179-183 | A track duration sets the duration of the last song only. With no song yet it changes nothing. |
| Releases.LastWriteWins | src/main.rs:150-169 | Of two texts at the same scalar path, the later one is kept. |
| Releases.Expand | src/main.rs:79-141 | At most 100 rows, and never more rows than songs. Any row, and any error, comes only from a complete release. The cases are stated by ExpandIncomplete, ExpandInvalidId, ExpandInvalidDate and ExpandRows. |
| Releases.ExpandIncomplete | src/main.rs:82-90 | A release without id, album or artist writes no row and is not an error. |
| Releases.ExpandInvalidId | src/main.rs:92 | A complete release whose id is not a `usize` is fatal, even when it has no songs. |
| Releases.ExpandInvalidDate | src/main.rs:102-126 | A complete release that has songs and an unconvertible date is fatal, with that date error. |
| Releases.ExpandRows | src/main.rs:92-141 | A complete release with a valid id and k songs gives min(k, 100) rows. Row i is the row of song i. |
| Releases.SongRow | src/main.rs:95-139 | A song's row has as many columns as the header. SongRowColumns states each column. |
| Releases.SongRowColumns | src/main.rs:95-139 | Row i has ten columns in header order: the id `id * 100 + i`, the title, the album, the artist, the optional fields or "", the timestamp and the derived duration. |
| Releases.SongRows | src/main.rs:94-139 | The first `count` rows are the song rows in song order. |
| Releases.ExpandRowWidth | src/main.rs:128-139 | Every row of a release has as many columns as the header. |
| Releases.ExpandIdsDistinct | src/main.rs:94-96 | The rows of one release carry pairwise distinct ids. |
| Releases.RowIdsUnique | src/main.rs:94-96 | Two different (release id, song index) pairs with indexes below 100 give different id columns. |
| Derive.SplitOnce | src/main.rs:99 | Gives None exactly when the separator is absent. Otherwise gives the parts before and after its first occurrence. |
| Derive.SplitOnceJoin | src/main.rs:103-105 | Splitting `a + [c] + b` where `a` has no `c` gives back `(a, b)`. |
| Derive.DurationFloat | src/main.rs:98-100 | Defined exactly when the duration contains a colon. The first colon is replaced by a period, the length is the same, and everything else is untouched. |
| Derive.DurationFloatMinutesSeconds | src/main.rs:98-100 | "3:45" gives "3.45". |
| Derive.DurationFloatFirstColonOnly | src/main.rs:98-100 | "1:2:3" gives "1.2:3". Only the first colon is replaced. |
| Derive.DurationFloatNoColon | src/main.rs:98-100 | A duration without a colon, or no duration, gives no derived duration. |
| Derive.MonthOrJanuary | src/main.rs:107-109 | The month is always 1..12. A parsed value in 1..12 is kept. Anything else is January: unparseable text, 0, or 13..255. |
| Derive.DayClamped | src/main.rs:110-112 | The day is always 1..27. Unparseable text or a parsed 0 gives 1, and a value above 27 gives 27. Anything else is kept. |
| Derive.ReleasedDate | src/main.rs:102-120 | No date exactly when there is no `-`. Any date produced is valid, within the year range, with a day of at most 27. Its error cases are stated by InvalidYearAborts and YearOutOfRangeAborts. |
| Derive.ReleasedTimestamp | src/main.rs:102-126 | No release date, or a date text without `-`, gives no timestamp. A date error is passed on unchanged. Otherwise the timestamp is the date's day count from 1970-01-01 times 86400, which is midnight UTC of that date: see UnixDaysEpoch and UnixDaysNextDay. |
| Derive.YearMonthIsJanuaryFirst | src/main.rs:116 | "Y-M" ignores the month and gives 1 January of Y. |
| Derive.YearMonthDay | src/main.rs:106-114 | "Y-M-D" gives year Y, the month rule and the day clamp. |
| Derive.InvalidYearAborts | src/main.rs:104 | A year that is not an `i32` aborts, whatever follows it. |
| Derive.YearOutOfRangeAborts | src/main.rs:113-119 | A year that parses as an `i32` but lies outside -9999..9999 is refused by `from_calendar_date` in both branches, and the run aborts at `unwrap()`, whatever follows the year. |
| Derive.ReleasedTimestampFullDate | src/main.rs:102-126 | "2001-02-15" gives 982195200. |
| Derive.ReleasedTimestampClampedDay | src/main.rs:110-112 | "2001-02-99" is clamped to 27 February 2001 and gives 983232000. |
| Derive.ReleasedTimestampBadMonth | src/main.rs:107-109 | "2001-13-05" falls back to January, giving 5 January 2001, and gives 978652800. |
| Derive.ReleasedTimestampYearMonth | src/main.rs:102-117 | "2001-07" gives 1 January 2001, which is 978307200. |
| Derive.ReleasedTimestampYearOnly | src/main.rs:102-103 | A bare "2001" gives no timestamp. |
| Numeric.ParseUnsigned | src/main.rs:92 | Rust's unsigned `parse`. The text parses only if it is digits or `+` then digits, and the value is then those digits' value. Both forms are accepted exactly when the value is at most the type's maximum. Anything else, including `-` and the empty text, is refused. |
| Numeric.ParseSigned | src/main.rs:104 | Rust's signed `parse`. The text parses only if it is digits, `+` then digits, or `-` then digits, and the value is then the digits' value, negated after `-`. Each form is accepted exactly when that value lies in the type's range. |
| Numeric.NatToString | src/main.rs:96 | Non-empty decimal digits, with no leading zero except for 0 itself. |
| Numeric.IntToString | src/main.rs:125 | Decimal text: a `-` exactly when the number is negative, then a non-empty run of digits with no leading zero unless the number is 0. ParseIntToString fixes the value. |
| Numeric.DigitsValueOfNatToString | src/main.rs:96 | The digits written for n read back as n. |
| Numeric.ParseNatToString | src/main.rs:92 | Parsing the text of any n up to the maximum gives back n. |
| Numeric.ParseIntToString | src/main.rs:104 | Parsing the text of any i in range gives back i. |
| Numeric.NatToStringInjective | src/main.rs:96 | Different numbers are written as different texts. |
| Calendar.UnixDays | src/main.rs:114-125 | A valid date's day number lies within its own year, counted from 1 January of that year. UnixDaysEpoch and UnixDaysNextDay pin down the value. |
| Calendar.DaysInMonth | src/main.rs:114 | Every month has 28 to 31 days. |
| Calendar.NextDay | src/main.rs:114 | The successor of a valid date is a valid date. |
| Calendar.LeapYearsStep | src/main.rs:121-125 | The leap-year count grows by one at year y exactly when y is a Gregorian leap year. |
| Calendar.DaysBeforeMonthStep | src/main.rs:121-125 | The day of the year at month m + 1 is that at month m plus the length of month m. |
| Calendar.UnixDaysEpoch | src/main.rs:121-122 | 1970-01-01 is day 0 of the Unix count. |
| Calendar.UnixDaysNextDay | src/main.rs:121-125 | Consecutive calendar days have consecutive Unix day numbers, so the count is the true calendar distance from the epoch. |
| Walkthrough.LeafRun | src/main.rs:57-77 | A leaf element other than `release` records its text at its own path. It then closes back to the scope it opened in, with no rows written. |
| Walkthrough.ElementRun | src/main.rs:57-77 | An element other than `release`, around a run that ends normally, has that run's effect on the record. It then returns to the scope it opened in. |
| Walkthrough.ReleaseEndRun | src/main.rs:72-141 | Closing a `release` whose record expands to some rows appends exactly those rows and leaves an empty record. |
| Walkthrough.OpeningRun | src/main.rs:56-71 | Opening `releases` and `release id="7"` gives the scope `releases/release` and a record holding only id "7". |
| Walkthrough.AlbumRun | src/main.rs:150-152 | A `title` element directly under `release` sets the album. |
| Walkthrough.ArtistRun | src/main.rs:167-169 | `artists/artist/name` sets the artist and closes back to the release scope. |
| Walkthrough.TracklistRun | src/main.rs:171-183 | `tracklist/track` holding `title` then `duration` gives one song with that title and duration. |
| Walkthrough.FinishedRows | src/main.rs:92-139 | The finished release expands to the single row `700,Song,Album,Band,,,,3:45,,3.45`. |
| Walkthrough.ClosingRun | src/main.rs:79-141 | Closing the release writes that row, and closing `releases` leaves an empty scope. |
| Walkthrough.DocumentOutput | src/main.rs:30-197 | The whole document gives the header and exactly that one row, and ends normally. |

## Left out

- The XML reader (quick_xml) is not modelled. This covers tokenising, text trimming, entity unescaping, decoding, and the reader's own errors. The model starts from a finite sequence of events, and the end of that sequence stands for `Eof`. Element names and text are already unescaped and decoded. `Attribute.value` stands for the raw attribute text, because the source does not unescape it: `id="&#55;"` is an id that fails to parse, not id 7.
- Attribute errors are not modelled. Malformed attributes are skipped by the `find` in the source. An `id` value that is not valid UTF-8 is fatal in the source.
- CSV quoting, writing to standard output and write errors are not modelled. A row is the sequence of its ten field strings.
- The progress counter and its messages on standard error are left out. They do not affect the output.
- `SmallString` and `SmallVec` are left out. They are storage optimisations, so strings are plain sequences and songs a plain sequence.
- Panics (`unwrap`) and `?` error returns are not told apart. Both become a fatal `Outcome` that carries the cause and stops the run. The exit status is not modelled.
- The `time` crate is replaced by a closed-form proleptic Gregorian day count. It is proved to advance by one per calendar day from the 1970-01-01 epoch. Its year range is the crate's default, -9999..9999 without the large-dates feature.
- Releases.SongRow: computes `id * 100 + i` on unbounded integers. It does not model the overflow of a 64-bit `usize` for ids above 184467440737095515, where the source would panic in a debug build or wrap in a release build.
- Numeric.ParseUnsigned: `usize` is taken to be 64 bits wide.
