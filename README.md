# Reading-challenge leaderboard: a Dafny model of its data pipeline

The library reading-challenge leaderboard reads a Google Sheet exported as CSV,
keeps the rows marked for publication, groups them by participant email into a
leaderboard with one book per row, collects the well-rated reviews, and keeps the
latest good result in two module variables. The page then orders participants by
the number of books they have read, shows totals and an average, and picks a cover
image for each review.

This project models that core and proves what it computes:

- `js_string.dfy` (`JsString`): the JavaScript string built-ins the pipeline relies on.
  These are `trim`, ASCII case mapping, `startsWith`, `includes`, `split('\n')`,
  `parseInt` and the decimal rendering of a number.
- `csv_row.dfy` (`CsvRow`): `parseCSVRow`, as the imperative loop it is.
  It is proved equal to a left fold of one loop step. The lemmas describe the fields
  by separating commas (commas preceded by an even number of quotes).
- `challenge.dfy` (`Challenge`): `expandChallenge`.
- `cover_url.dfy` (`CoverUrl`): `extractOLIDFromCoverURL` and `extractISBNFromCoverURL`.
  Each regular expression is spelled out as a leftmost-match scan.
- `leaderboard.dfy` (`Leaderboard`): `parseCSVToLeaderboard`, as a loop over the data
  lines. It is proved equal to a fold (`AggregateEntries`) of one row step over the
  published rows.
- `leaderboard_facts.dfy` (`LeaderboardFacts`): a reference description of the parse
  result that does not use the grouping loop. It has one participant per distinct
  email, in first-appearance order, built from that email's rows alone. The module
  proves that the loop agrees with it.
- `data_store.dfy` (`DataStore`): the module state `allData`/`reviewsData` and the
  operations on it: `fetchLatestData`, `setData` and `getData`. The HTTP outcome is
  an input.
- `ui_rules.dfy` (`UiRules`): the decision rules of `ui.js`:
  - `getReviewCoverUrl`;
  - the stable descending sort by `booksRead`;
  - `updateStats`;
  - the wording of the participant label.
- `wrappers.dfy` (`Wrappers`): `Option` and `Result`.

JavaScript values are modelled as follows:

- A missing array element or property is `None` or an error path.
- A thrown exception is `Err`.
- `NaN` from `parseInt` is `None`.
- Strings are sequences of Dafny `char`, which are Unicode scalar values, where JavaScript strings are sequences of UTF-16 code units. A character outside the Basic Multilingual Plane is one `char` here and a surrogate pair there, and a lone surrogate cannot be written at all. No modelled result depends on the difference: no modelled operation tests for surrogates, and every character the code tests for (whitespace, quotes, commas, newlines, digits, ASCII letters, `-`, `.`, `/`) lies in the Basic Multilingual Plane, so a surrogate pair and the one `char` that stands for it fail every test alike. The one loop over a string's length, in `parseCSVRow`, appends every code unit it does not test for (anything but `"` and `,`) to the current field, in order, so a surrogate pair ends up in the field exactly as the single `char` that stands for it.

## Model

| member | source | states |
|---|---|---|
| JsString.Trim | data.js:164 | the result has no whitespace at either end |
| JsString.TrimParts | data.js:208 | `trim` cuts the text into leading whitespace, the result and trailing whitespace |
| JsString.TrimKeeps | data.js:255 | the trimmed text is drawn from the input; it is empty exactly when the input is all whitespace (the `review.trim()` test) |
| JsString.TrimOfTrimmed | data.js:164 | trimming text with no whitespace at either end changes nothing |
| JsString.ToLower | data.js:131 | same length, and every character is mapped to lower case |
| JsString.ToLowerIdempotent | data.js:131 | lower-casing twice is lower-casing once |
| JsString.ToUpper | data.js:220 | same length, and every character is mapped to upper case |
| JsString.ContainsIsOccurrence | ui.js:20-21 | `includes` holds exactly when the pattern occurs at some position |
| JsString.Split | data.js:208 | `split` never returns an empty list |
| JsString.SplitCount | data.js:208 | there is one more line than there are newline characters |
| JsString.SplitPartsHaveNoSeparator | data.js:208 | no line holds a newline |
| JsString.JoinSplit | data.js:208 | joining the lines with the separator gives back the text |
| JsString.NatToString | data.js:260 | the rendering of a count is a non-empty run of digits, with no leading zero |
| JsString.DecimalOfNatToString | data.js:260 | the digits of `${n}` denote `n` |
| JsString.DigitPrefixIsLongest | data.js:228 | `parseInt` reads the longest run of digits after the sign and radix prefix |
| JsString.ParseInt | data.js:228 | `parseInt` is NaN exactly when no digit follows the whitespace, sign and `0x` prefix |
| JsString.ParseIntOfNatToString | data.js:228 | `parseInt` reads back any non-negative count written in decimal |
| JsString.ParseIntOfNatToStringThen | data.js:228 | `parseInt` reads back a rendered count followed by any text that does not start with a digit or `x` |
| CsvRow.ParseCsvRow | data.js:153-173 | the loop's result is the fold of its step over the whole line |
| CsvRow.ScanQuoteParity | data.js:161-162 | the quote flag is the parity of the quotes read so far |
| CsvRow.FieldCount | data.js:163-171 | a line has one field more than it has separating commas, so never zero fields |
| CsvRow.NoQuoteInFields | data.js:161-171 | no field contains a double quote, and every field is trimmed |
| CsvRow.EmptyLine | data.js:171 | an empty line gives one empty field |
| CsvRow.DoubledQuoteVanishes | data.js:161-162 | a doubled quote toggles twice and leaves no trace: it is not an escaped quote |
| CsvRow.FieldsSplitAtSeparator | data.js:163-165 | splitting a line at a separating comma splits its field list there |
| CsvRow.FieldsWithoutSeparator | data.js:158-171 | a line with no separating comma is one field: the line without quotes, trimmed |
| CsvRow.QuotedCommaExample | data.js:151-173 | `a,"b,c",d` gives the three fields `a`, `b,c` and `d` |
| Challenge.ExpandChallenge | data.js:127-148 | empty text is returned unchanged; other text becomes "Read a book " plus its lower-case form when that starts with one of the five phrases, and "Read a " plus its lower-case form otherwise |
| Challenge.SpecialCaseIsPlain | data.js:134-136 | the three special cases take the same branch as the general rule would give them |
| Challenge.CaseInsensitive | data.js:131-147 | the result depends only on the lower-cased text |
| Challenge.NeverUnchanged | data.js:128-147 | non-empty text is never returned as it is; the result is strictly longer |
| Challenge.FullSentenceExpandedAgain | data.js:138-147 | an already expanded sentence is prefixed again with "Read a " |
| CoverUrl.RunLength | data.js:183 | the length of the maximal run of class characters |
| CoverUrl.MatchUnique | data.js:183 | a match position fixes the captured token, because `-` ends the greedy run |
| CoverUrl.TokenAtIsExact | data.js:183 | the scan at one position finds the match there exactly when one exists |
| CoverUrl.FirstMatchIsLeftmost | data.js:183 | the search returns the leftmost match, or none when no position matches |
| CoverUrl.ExtractOlid | data.js:178-190 | the result is a non-empty run of letters and digits |
| CoverUrl.OlidWithoutMatch | data.js:179-189 | an empty URL, or one with no OLID match, gives the placeholder `OL12345678M` |
| CoverUrl.OlidFromLeftmostMatch | data.js:183-186 | the capture group of the leftmost match is the result |
| CoverUrl.OlidExample | data.js:183 | `/OLID/ol1m-m.JPG` gives `ol1m`: an upper-case tag and extension still match |
| CoverUrl.ExtractIsbn | data.js:195-202 | the result consists of digits only |
| CoverUrl.IsbnEmptyIffNoMatch | data.js:196-201 | the ISBN is empty exactly when the URL has no ISBN match |
| CoverUrl.IsbnFromLeftmostMatch | data.js:200-201 | the capture group of the leftmost match is the result |
| Leaderboard.BookOf | data.js:246-252 | the book keeps the title and cover URL; its OLID is what `extractOLIDFromCoverURL` gives for the cover URL (never empty) and its challenge what `expandChallenge` gives; the catalog URL is kept exactly when it starts with `http` |
| Leaderboard.ReviewOf | data.js:255-261 | the review keeps the title and author; its ISBN is what `extractISBNFromCoverURL` gives for the cover URL (digits only); its description is the `Description` of the row |
| Leaderboard.WithBook | data.js:245-246 | one more book at the end, the count up by one, name and status unchanged |
| Leaderboard.AddEntry | data.js:235-252 | a row throws exactly when its email names an inherited `Object.prototype` property |
| Leaderboard.AddEntryKeepsWellFormed | data.js:235-246 | after a row, every email appears once in insertion order, and each count equals its number of books |
| Leaderboard.AggregateEntries | data.js:216-263 | the grouping loop keeps that invariant |
| Leaderboard.FieldsOfLines | data.js:216-217 | each data line is parsed into its row |
| Leaderboard.PublishedIffFlagIsTrue | data.js:220 | a row is published exactly when its column L is `true` in any mix of case, with nothing around it |
| Leaderboard.StarsOfRating | data.js:228 | a rating written in digits counts as that number, whatever non-numeric text follows it |
| Leaderboard.StarsOfNonNumber | data.js:228 | a rating with no digit in it (empty, a word, a lone sign), which `parseInt` reads as NaN, counts as 0 stars |
| Leaderboard.QualifiesIffNotBlank | data.js:255 | a row gives a review exactly when it has at least 4 stars and its review is not all whitespace |
| Leaderboard.DescriptionReadsBack | data.js:260 | the description starts with the trimmed review followed by ` - `, ends with the name, and `parseInt` reads the rating back from the text after ` - ` |
| Leaderboard.ParticipantsOf | data.js:266 | position i holds the participant of the i-th email in insertion order, one per email, each count equal to its number of books |
| Leaderboard.LeaderboardOf | data.js:207-269 | every participant's `booksRead` equals the length of its `books` |
| Leaderboard.PublishedEntriesAppend | data.js:216-221 | the published rows of two blocks of lines are those of each block, in order |
| Leaderboard.UnpublishedRowIgnored | data.js:220-221 | an unpublished row has no effect, wherever it stands |
| Leaderboard.ErrPersists | data.js:216-263 | once a row throws, later rows do not change the outcome |
| Leaderboard.AggregateStep | data.js:216-221 | one more line: a published row runs the row step, any other row changes nothing |
| Leaderboard.ErrAtRow | data.js:216-263 | a throw at some row is the throw of the whole parse |
| Leaderboard.AddPublishedRow | data.js:223-262 | the loop body on a published row is the row step on that row's entry |
| Leaderboard.ProcessRow | data.js:217-221 | one loop iteration is the row step for a published row and the identity otherwise |
| Leaderboard.AggregateDataLines | data.js:216-263 | the loop over the data lines ends in the fold's tally, or stops at the first row that throws with the fold's error |
| Leaderboard.ParseCsvToLeaderboard | data.js:207-269 | the result is the fold's outcome over the published rows: its error, or the board of its participants in first-seen order and its reviews |
| LeaderboardFacts.PublishedRowEntry | data.js:223-262 | a published row contributes, column by column: email, name and status; a book with its title, cover URL, extracted OLID, expanded challenge and checked catalog URL; and a review exactly when it has at least 4 stars and a non-blank review, with the extracted ISBN and the description text |
| LeaderboardFacts.EmailsAreTheEmailsWithEntries | data.js:235-242 | the listed emails are exactly those with a published row |
| LeaderboardFacts.EmailsAreDistinct | data.js:235-242 | no email is listed twice |
| LeaderboardFacts.GroupsPartitionEntries | data.js:235-246 | the email groups together hold every published row exactly once |
| LeaderboardFacts.ErrIffInheritedKey | data.js:235-246 | the parse throws exactly when some published email names an inherited property |
| LeaderboardFacts.ErrIsFirstInheritedKey | data.js:235-246 | the reported email is that of the first such row |
| LeaderboardFacts.AddEntryAgrees | data.js:235-262 | after one more row, the loop's dictionary, order and reviews are the reference ones for the longer prefix |
| LeaderboardFacts.AggregateAgrees | data.js:216-263 | the loop's state is the reference state for all published rows |
| LeaderboardFacts.ReferenceParticipants | data.js:266 | one reference participant per distinct email |
| LeaderboardFacts.LeaderboardIsReference | data.js:207-269 | the parse throws exactly when some published email is an inherited key; otherwise it returns the reference participants and reviews |
| LeaderboardFacts.BooksReadSumsToPublishedRows | data.js:245 | the counts add up to the number of published rows |
| DataStore.Attempt | data.js:280-296 | a fetch yields a board exactly when the response is ok and its text parses |
| DataStore.FetchStep | data.js:274-310 | with no URL nothing is stored and the sample is returned; otherwise the call returns what it leaves held: the parsed board, or on failure the held data when it has participants and the sample when not |
| DataStore.UnconfiguredReturnsSample | data.js:275-278 | with no sheet URL the sample data is returned and nothing is stored |
| DataStore.SuccessReplaces | data.js:286-291 | a successful parse replaces both variables, even when it has no participants |
| DataStore.FailureKeepsHeldData | data.js:297-308 | a failure never discards participants that are held |
| DataStore.FailureOnEmptyInstallsSample | data.js:300-304 | a failure while no participants are held installs the sample data |
| DataStore.ConfiguredReturnsHeld | data.js:280-309 | once a URL is configured, the call resolves to exactly what it leaves held |
| DataStore.HeldChangesOnlyBySuccessOrFallback | data.js:274-310 | the held data changes only through a successful parse or the empty-data fallback |
| DataStore.EmptySuccessThenFailureShowsSample | data.js:300 | a successful fetch with no published rows, then a failed one, shows the sample data |
| DataStore.SuccessThenFailureKeepsSuccess | data.js:290-308 | after a success with participants, a failure leaves that success's data held |
| DataStore.Store.constructor | data.js:121-122 | both variables start empty |
| DataStore.Store.GetData | data.js:341-343 | returns the two variables |
| DataStore.Store.SetData | data.js:333-336 | `getData` afterwards returns exactly the given arrays |
| DataStore.Store.FetchLatestData | data.js:274-310 | the new state and the result are those of the transition `FetchStep` |
| DataStore.Store.Fallback | data.js:297-309 | installs the sample data only when no participants are held, and returns what is held |
| UiRules.ReviewCoverUrl | ui.js:9-46 | the cover is empty exactly when neither the URL, the OLID nor the ISBN is usable; otherwise it starts with `http` |
| UiRules.UsableCoverUrlWins | ui.js:16-28 | a provided URL that passes the test is returned verbatim |
| UiRules.RejectedCoverUrlIgnored | ui.js:16-46 | a rejected URL plays no part in the result |
| UiRules.OlidBeforeIsbn | ui.js:31-35 | a usable OLID wins over any ISBN |
| UiRules.IsbnLast | ui.js:38-42 | the ISBN is used only when neither the URL nor the OLID is usable |
| UiRules.UsableCoverUrl | ui.js:16-24 | of the seven tests, only the `http` prefix and the words `error`/`failed` decide; an absent URL is never usable |
| UiRules.DigitsBlankOnlyWhenEmpty | ui.js:38 | a digit string is blank only when it is empty |
| UiRules.ParsedReviewCover | ui.js:9-46 | a parsed review shows the ISBN cover when its URL gave an ISBN, and no cover otherwise |
| UiRules.ParsedRowCover | ui.js:38-45 | the card of a review parsed from a row shows the ISBN cover of the row's cover URL exactly when that URL has an ISBN match, and no cover otherwise |
| UiRules.SortByBooksRead | ui.js:122 | the order is non-increasing in books read, a permutation of the input, and keeps the participants of each count in input order |
| UiRules.SortIsTheStableSort | ui.js:122 | any non-increasing order that keeps ties in input order is that order |
| UiRules.StableOrderIsUnique | ui.js:122 | two such orders of the same participants are equal |
| UiRules.RoundedAverage | ui.js:165 | `Math.round(total / n)`: the nearest integer, halves rounded up |
| UiRules.StatsOf | ui.js:162-165 | the counts are the number of participants and the sum of their books; the average is 0 for no participants and otherwise the total divided by the count, rounded to the nearest integer with halves up |
| UiRules.StatsIgnoreOrder | ui.js:147 | the statistics of the sorted list equal those of the list as given |
| UiRules.StatsOfParsedSheet | ui.js:162-164 | on a parsed sheet: one participant per distinct published email, one book per published row |
| UiRules.LabelOf | ui.js:132-133 | "challenge" exactly when one book was read; the status is shown exactly when it is non-empty |
| UiRules.LabelOfParsedParticipant | ui.js:132-133 | on a parsed sheet, "challenge" exactly when the email has one published row; the status is shown exactly when that email's first row has one |

## Left out

- Network I/O, `response.status`, logging and the polling timer (`startPolling`, `setInterval`, `document.hidden`) are not modelled. The HTTP outcome is an input of `FetchLatestData`.
- Two async calls can overlap. `fetchLatestData` has no retry and no in-flight guard, and the model treats one call as one atomic step.
- The HTML rendering is not modelled: `renderReviews`, `renderLeaderboard`, `escapeHtml`, `animateNumber`, `showStats`, and the carousel, event, utility and entry modules. Only the decisions they make on the data are modelled.
- `sampleData`, `sampleReviewsData` and `CONFIG` are left opaque. The sample board and the sheet URL are parameters of the store.
- JsString.ToLower and JsString.ToUpper: map ASCII letters only. For the tests the code makes this is exact: `toUpperCase() === 'TRUE'`, `includes('error')`/`includes('failed')` and the regular expressions with the `i` flag.
- Challenge.ExpandChallenge: lower-cases only ASCII letters, so non-ASCII challenge text is not lower-cased as JavaScript would do it.
- Leaderboard.ParticipantsOf: gives participants in insertion order. `Object.values` puts integer-like keys first, in ascending numeric order, so a sheet whose emails look like array indices would be ordered differently.
- Leaderboard.AddEntry: models a row whose email names an `Object.prototype` property as a thrown error. The side effects before the throw are not modelled, such as setting `Object.prototype.booksRead` to `NaN` for the email `__proto__`.
- JsString.ParseInt: returns an exact integer. JavaScript's `parseInt` returns a double, so very long digit runs lose precision.
- JsString.NatToString: renders every count in plain decimal. For values of `1e21` and above JavaScript prints an exponent form, which a star rating never reaches in practice.
- UiRules.RoundedAverage: exact rational rounding; the floating-point division before `Math.round` is not modelled.
- `lines[0].split(',')` (the unused headers), the header comment and the column-name documentation play no part in the result and are not modelled.
- The code behaves as follows where a reader might expect otherwise, and the model does the same:
  - `expandChallenge` never passes a full sentence through;
  - the OLID placeholder is also returned when a non-empty URL has no match;
  - published rows are not checked for required fields and are not skipped;
  - an email naming an inherited property makes the whole parse throw;
  - the fallback test is `allData.length === 0`, not "no fetch has succeeded yet", so an earlier successful but empty sheet still falls back to the sample data (`DataStore.EmptySuccessThenFailureShowsSample`).
