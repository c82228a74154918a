# go-tissue text decoders, in Dafny

go-tissue is a Go client for the Tissue check-in site (shikorism.net). It scrapes HTML pages and
turns the texts it finds into numbers. This project models that decoding and proves what it does:

- **Duration texts** such as `3日 4時間 5分`. Unit runes are trimmed from each token
  (`trimDurationFunc`) and thousands separators are deleted (`toRawNumberString`). The three tokens
  are then read as days, hours and minutes (`elemToDuration`). Any malformed token makes the whole
  duration 0.
- **Tag counts** on the tag list page (`ListTags`). One `(` and one `)` are stripped, then the rest
  is parsed, with -1 when it does not parse. The loop fills a slice allocated with one entry per tag
  node; the model keeps that loop.
- **The new check-in's ID** (`CheckIn`). It is the last `/`-separated segment of the redirect's
  `Location` header, parsed as a base-10 int64. An empty header gives -1 with no error.
- **The profile status** (`GetStatus`). A `Status` starts with every duration and the count at -1
  and the reset time at the Unix epoch. Each row of the statistics table then overwrites the one
  field its label names. Unknown labels change nothing, and the count changes only when its text
  parses. As written, `User.ID` gets the display-name text and `User.DisplayName` gets the `@`
  handle without the `@`; the model keeps that assignment.
- **The login flag** of a client (`httpClient`). It is set by the first login `POST` answered with
  `200`, and every later call skips the login.

The Go library functions these rely on are modelled in their own modules, each with its partner
properties:

- `strings.TrimFunc`, `Trim`, `TrimSpace`, `TrimPrefix`, `ReplaceAll` of one rune, `Split` and
  `Join`, in `GoStrings`.
- `strconv.Atoi`/`ParseInt`, with `FormatInt` as their inverse, in `GoStrconv`.

Strings are sequences of runes. `time.Duration` is an unbounded count of nanoseconds.

The HTML is already taken apart: a page is given as the texts its CSS selectors would extract
(`TagNode`, `TableRow`, `ProfileCard`). Network outcomes are parameters: whether the status page
could be fetched (`Result<ProfileCard, FetchError>`), and how the login request went
(`LoginResponse`). Go's `time.Parse` with the layout `2006/01/02 15:04` is the parameter
`parseTime: string -> Option<int>`, returning Unix seconds.

## Model

| member | source | states |
|---|---|---|
| DurationText.IsDurationUnit | tissue.go:421-423 | a rune is trimmed exactly when it is one of 日 時 間 分 経 過 |
| DurationText.ToRawNumberString | tissue.go:425-427 | the raw number text holds no comma and is no longer than the token |
| DurationText.RawNumberKeepsOtherRunes | tissue.go:425-427 | every rune of the trimmed token other than the comma is kept as often as it occurs |
| DurationText.RawNumberOfDigits | tissue.go:425-427 | a comma-free run of digits passes through unchanged |
| DurationText.RawNumberStripsUnits | tissue.go:425-427 | unit runes on either side of a comma-free number are removed and the number is kept as is |
| DurationText.RawNumberDropsGrouping | tissue.go:425-427 | `high,low` followed by units reads as the digits `high` then `low` |
| DurationText.ElemToDuration | tissue.go:429-439 | 0 unless there are exactly three tokens; 0 if any one token fails to parse (never a partial sum); otherwise days·Day + hours·Hour + minutes·Minute |
| DurationText.TokenValueOfRendered | tissue.go:431-433 | a printed 64-bit number followed by unit runes decodes back to that number |
| DurationText.ElemToDurationOfRendered | tissue.go:429-439 | decoding the tokens the site renders for d days, h hours, m minutes gives d·Day + h·Hour + m·Minute |
| DurationText.ElemToDurationExample | tissue.go:429-439 | `["3日","4時間","5分"]` decodes to 76 hours 5 minutes |
| DurationText.ElemToDurationWholeMinutes | tissue.go:429-439 | every decoded duration is a whole number of minutes, so it is never the sentinel -1 |
| TagList.StripCountParens | tissue.go:317-323 | a leading `(` and a trailing `)` are each removed exactly when present, one at most on each side; text without either is unchanged |
| TagList.TagCount | tissue.go:324-327 | the parsed value of the stripped text when it parses, and -1 when it does not (a parsed -1 looks the same as the failure) |
| TagList.TagCountOfRendered | tissue.go:317-327 | `(n)` and `n` both decode to n for every 64-bit n |
| TagList.TagCountAtMostOneParen | tissue.go:317-327 | `((n))` does not decode: only one parenthesis is removed on each side |
| TagList.TagCountExamples | tissue.go:317-327 | `(12)` and `12` both give 12 |
| TagList.ListTags | tissue.go:313-328 | the result has one entry per tag node, and entry i holds node i's name and decoded count |
| CheckInLocation.LastSegment | tissue.go:288-289 | the last `/`-separated segment contains no `/` |
| CheckInLocation.CheckInId | tissue.go:284-289 | an empty location gives -1 with no error; otherwise success exactly when the last segment parses as an int64, and that value is the ID; on failure the error carries the segment and the value `ParseInt` returns beside it (`ParseErrorValue`) |
| CheckInLocation.CheckInIdAfterLastSlash | tissue.go:288-289 | whatever follows the last `/` is the text parsed |
| CheckInLocation.CheckInIdOfRedirect | tissue.go:284-289 | a redirect to `<prefix>/<id>` yields `id`, for every 64-bit id |
| CheckInLocation.CheckInIdBeyondInt64 | tissue.go:288-289 | an id printed beyond the int64 range is an error, returned with the nearer int64 bound |
| CheckInLocation.CheckInIdOverflowBeforeJunk | tissue.go:288-289 | digits worth more than a uint64 followed by a non-digit are an error returned with the int64 maximum, not 0 |
| CheckInLocation.CheckInIdNonNumeric | tissue.go:288-289 | a last segment that is empty, or holds a rune other than a digit or sign, is an error |
| CheckInLocation.CheckInIdExamples | tissue.go:284-289 | `…/checkin/42` gives 42, a trailing `/` gives an error, and an empty location gives -1 |
| StatusPage.LabelField | tissue.go:500-511 | a heading selects a field only when it is that field's label, and selects nothing when it is no field's label |
| StatusPage.LabelFieldExact | tissue.go:500-511 | a label selects a field exactly when it is that field's label |
| StatusPage.UpdateOverview | tissue.go:500-515 | a row changes no field other than the one its label selects; an unknown label changes nothing; a duration field takes the decoded duration; the count changes only to a parsed count |
| StatusPage.DecodeRowsAt | tissue.go:496-498 | each decoded row is the decoding of the row at the same position |
| StatusPage.RowsOverviewUntouched | tissue.go:496-516 | a field that no row selects keeps its value through the whole table |
| StatusPage.RowsOverviewLastRowDecides | tissue.go:496-516 | a duration field holds the duration of the last row that selects it |
| StatusPage.UnparsedIffUnselected | tissue.go:496-516 | with no decoded duration equal to -1, a duration field ends at -1 exactly when no row selects it |
| StatusPage.DurationUnparsedIffAbsent | tissue.go:444-457 | after the table, a duration field is still -1 exactly when no row carries its label |
| StatusPage.RowCount | tissue.go:512 | the count is present exactly when the row's first token, with `回` trimmed from both ends, parses as an int64, and it is that value |
| StatusPage.RowCountOfRendered | tissue.go:497-513 | a cell printed as `<n>回` carries the count n, for every 64-bit n |
| StatusPage.CountOnlyFromCountRows | tissue.go:511-514 | the count changes only through a `通算回数` row whose first token parses once `回` is trimmed |
| StatusPage.CardSession | tissue.go:483-493 | the current session is the decoded session text; a reset time other than the epoch needs a three-token session text |
| StatusPage.Status.constructor | tissue.go:444-457 | every duration and the count start at -1, the reset time at the epoch, the user names empty |
| StatusPage.Status.ReadRow | tissue.go:497-515 | one row updates the overview by the `switch` on its label, and nothing else |
| StatusPage.Status.ReadUser | tissue.go:479-481 | the user is the trimmed display-name text and the trimmed handle without `@` |
| StatusPage.Status.ReadSession | tissue.go:483-493 | the session is set from the session and reset texts |
| StatusPage.Status.ReadRows | tissue.go:495-516 | after the `Each`, the overview is the row-by-row fold of the table in document order |
| StatusPage.GetStatus | tissue.go:441-518 | on a failed login, request, status or parse, the sentinel result comes back with the error; otherwise no error, and the user, session and overview as the card gives them |
| Login.LoginOutcome | tissue.go:153-173 | no error when already logged in; otherwise no error exactly when the login `POST` is answered with `200`; a transport error is reported as such, and any other status as unauthorized |
| Login.LoggedInAfterAllIff | tissue.go:153-173 | after a series of calls the client is logged in exactly when it started so or some call got `200` |
| Login.Client.constructor | tissue.go:137-145 | an empty base URL in the caller's own options becomes `https://shikorism.net`, the client keeps those options by reference, and a new client is not logged in |
| Login.Client.HttpClient | tissue.go:148-174 | the error is `LoginOutcome` of the old flag, and the flag is set exactly when there is no error |
| GoStrconv.ParseDecimal | tissue.go:324 | `Atoi`/`ParseInt` succeed exactly on an optional sign and one or more digits whose value is in the int64 range, and return that value |
| GoStrconv.ParseErrorValue | tissue.go:289 | beside its error, `ParseInt` returns the int64 bound on the side of the sign for well-formed text out of range and for text whose leading digits overflow a uint64 before any junk; otherwise 0 |
| GoStrconv.ParseUintSpec | tissue.go:289 | `ParseUint`'s left-to-right digit loop ends in a range error exactly when a leading run of digits overflows a uint64, in a syntax error exactly when it does not and the text is empty or holds a non-digit, and otherwise returns the digits' value |
| GoStrconv.FormatInt | tissue.go:293 | `strconv.Itoa` prints well-formed decimal text denoting the number, so it is the inverse of the parse at tissue.go:289 |
| GoStrconv.ParseFormatInt | tissue.go:289 | parsing a printed int64 gives it back |
| GoStrconv.ParseRejectsForeignRune | tissue.go:324 | a rune other than a digit or sign anywhere in the text makes parsing fail, so no whitespace is accepted |
| GoStrconv.NatDigitsValue | tissue.go:289 | the printed digits of n have the value n |
| GoStrings.TrimLeftFuncSpec | tissue.go:426 | the kept text is a suffix of the input, everything dropped satisfies the predicate, and the first kept rune does not |
| GoStrings.TrimRightFuncSpec | tissue.go:426 | the kept text is a prefix of the input, everything dropped satisfies the predicate, and the last kept rune does not |
| GoStrings.TrimFuncSpec | tissue.go:426 | `TrimFunc` keeps one contiguous slice, drops only runes satisfying the predicate, and keeps no such rune at either end |
| GoStrings.TrimFuncExact | tissue.go:426 | for any trimmable prefix, a core with kept end runes and a trimmable suffix, `TrimFunc` returns the core |
| GoStrings.TrimFuncIdempotent | tissue.go:426 | trimming twice equals trimming once |
| GoStrings.TrimCutset | tissue.go:512 | `strings.Trim` keeps one contiguous slice, drops only cutset runes, and keeps no cutset rune at either end |
| GoStrings.IsSpace | tissue.go:479-498 | a rune is white space exactly when it has Unicode's White_Space property |
| GoStrings.TrimSpace | tissue.go:479-498 | `strings.TrimSpace` keeps one contiguous slice, drops only white space, and keeps no white space at either end |
| GoStrings.TrimPrefix | tissue.go:481 | the prefix is removed once when present, and otherwise the text is unchanged |
| GoStrings.DeleteRuneSpec | tissue.go:426 | deleting a rune leaves none of it, keeps every other rune as often as it occurs, and changes nothing when the rune is absent |
| GoStrings.DeleteRuneAppend | tissue.go:426 | deletion distributes over concatenation, so the order of the other runes is kept |
| GoStrings.SplitPartsSeparatorFree | tissue.go:288 | no piece of a split holds the separator |
| GoStrings.SplitAppend | tissue.go:288 | a separator cuts the input into two independently split halves |
| GoStrings.SplitLast | tissue.go:288-289 | the last piece of a split is what follows the last separator |
| GoStrings.JoinSplit | tissue.go:489 | joining the pieces of a split gives back the input |
| GoStrings.SplitJoin | tissue.go:489 | splitting a join of separator-free pieces gives back the pieces |

## Left out

- The HTTP requests, the cookie jar, `fetchToken`, `initHttpRequest`, `httpRequest` and `jsonRequest`: network I/O. Their outcomes are parameters.
- The collection methods and the check-in form building: they only assemble requests and JSON around the decoders modelled here.
- `parseChackIn`, which `Search` and `PublicTimeline` use to decode timeline HTML. It reads each check-in's ID from its trimmed `href` with a -1 sentinel, its date with an epoch fallback, and its user, tags, link and note. Every step is a goquery query or a `time.Parse`, so it falls outside the decoding core modelled here.
- The goquery CSS-selector queries: a foreign HTML library. The model starts from the texts they extract.
- Date formatting, and `time.Parse` with its zone handling: the Go `time` package. The reset-time parse is the parameter `parseTime`.
- `api/tissue.go`: URL joining, one webhook `POST` and a JSON decode, with no decoding logic of its own.
- JSON marshalling of the record types.
- DurationText.ElemToDuration: does not model the int64 wrap-around of `time.Duration`, because durations are unbounded integers; a token large enough to overflow the nanosecond product wraps in Go but not here.
- GoStrconv.ParseDecimal: returns `None` with no value for an error; the value Go returns beside it is `ParseErrorValue`, which `CheckInId` passes on, while `ListTags` and `GetStatus` discard it.
- StatusPage.GetStatus: requires the reset text to have at least two tokens whenever the session text has three, because the source slices `[0:2]` without a check and panics otherwise.
- StatusPage.Status.ReadSession: requires the reset time to still be the epoch, as it is on the freshly initialised result, because the method keeps the old value when the reset text does not parse.
- Login.Client.HttpClient: the login-form token is not an input, because its fetch error is overwritten before it is checked and its value only fills the form.
- Strings are rune sequences. `ListTags` slices bytes in Go, which is the same thing for the ASCII parentheses it strips.
