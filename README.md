# gcalsync: the org-mode renderer

gcalsync reads Google Calendar events and writes them out as one Emacs org-mode
document. This project models the renderer in `cmd/org.go` and proves facts about it:

- `cleanString` escapes free text.
- `printOrgDate` writes an event's org timestamp.
- `printOrg` builds one event's entry and appends it to a `strings.Builder`.
- `printCalendars` writes the document header, then one block per configured
  calendar: a heading, then that calendar's events. To get the events it
  follows page tokens, sorts by event id and drops events whose title matches
  a filter.

The Google Calendar service is an input value. `Service` holds the calendar
listing and, for each calendar id, the answers to its event requests in order.
A `log.Fatalf` stop comes out as `None`. The parsed dates and local times of
events are inputs too: each `EventDateTime` carries the all-day flag, the
parsed calendar date and the local wall-clock stamp with its weekday.

Modules, one per file:

| file | module | models |
|---|---|---|
| `wrappers.dfy` | `Wrappers` | `Option` |
| `go_strings.dfy` | `GoStrings` | `strings.Replace(s, old, new, -1)`, `strings.Contains`, Go's string `<`, `strings.Builder` (a class with an append-only `text` field) |
| `stable_sort.dfy` | `StableSort` | `sort.SliceStable` with a string key comparator |
| `text_lines.dfy` | `TextLines` | text written one piece per list element |
| `civil.dfy` | `Civil` | Gregorian dates, the day before and after, local wall-clock stamps |
| `calendar_api.dfy` | `CalendarApi` | the Calendar API v3 records the renderer reads |
| `org_date.dfy` | `OrgDate` | `printOrgDate`, and a reader for the timestamps it writes |
| `org_text.dfy` | `OrgText` | `cleanString` |
| `org_entry.dfy` | `OrgEntry` | `printOrg`, including `canonical_id` and the response glyphs |
| `org_calendars.dfy` | `OrgCalendars` | `printCalendars` |

Form of the model:

- The pure Go functions are Dafny functions: `CleanString` and `PrintOrgDate`.
- The imperative ones are methods with loops, each proved equal to a
  specification function, and that function's properties are proved as lemmas.
  - `OrgEntry.BuildEntry` and `OrgEntry.PrintOrg` are specified by `Entry` and `Rendered`.
  - `OrgCalendars.PrintCalendars` and its loops are specified by `Document`,
    `Blocks`, `Collect` and `EventsText`.
- Each loop in the Go code is its own method:
  - the configuration loop;
  - the listing loop;
  - the calendar loop;
  - the pagination loop;
  - the `itemloop`;
  - the title-filter loop;
  - the attendee and attachment loops of `printOrg`.

Where the written behaviour and the code differ, the model follows `cmd/org.go`:
- The summary goes into the heading unescaped (line 103), so "[Q1]" stays "[Q1]". `SummaryKeptVerbatim` shows this.
- The status and response strings compared are literally "tenative" and "cancelled" (lines 89, 154). A correctly spelt "tentative" gets no note and a blank glyph.
- The same-day test for timed events compares only the day of the month (line 68). An event running from 5 January 2024, 10:00, to 5 February 2024, 11:30, is written as a same-day timestamp ending at 11:30, and the February date is lost. `OrgDate.MonthApartReadsAsSameDay` shows this, and `OrgDate.ShownIsIntendedUnlessSameDayOfMonth` says exactly when the shape the code chooses (`ShownSpan`) differs from the intended one (`IntendedSpan`).
- The self-declined test runs only inside the attendee loop, so an event with over twenty attendees is never dropped (lines 133-177).
- The configuration is not deduplicated (lines 205-207, 235-242). A calendar id configured twice is written twice, both times under the tag of its last entry, so its events appear twice. `OrgCalendars.DuplicateCalendarWrittenTwice` shows this.
- Events are not deduplicated either (lines 270-292). Two events with the same id are both kept by the sort, which keeps every element, and both are written. `OrgCalendars.DuplicateEventWrittenTwice` shows this for an event held twice.

## Model

| member | source | states |
|---|---|---|
| GoStrings.ContainsAt | cmd/org.go:287 | `strings.Contains(s, sub)` holds exactly when `sub` occurs at some position of `s`. The empty needle is contained in every string. |
| GoStrings.Contains | cmd/org.go:287 | `strings.Contains` itself. It has no contract of its own; `ContainsAt` equates it with "occurs at some position". |
| GoStrings.ReplaceAll | cmd/org.go:79-81 | `strings.Replace(s, pat, rep, -1)`: leftmost, non-overlapping replacement. It has no contract of its own; `ReplaceCharPointwise` specifies the one-character passes and `StarsEscaped` the "\n*" pass. |
| GoStrings.Less | cmd/org.go:128 | Go's `<` on strings. It has no contract of its own; `LessTotal`, `LessTransitive` and `LessIrreflexive` state that it is a strict total order. |
| GoStrings.ReplaceCharPointwise | cmd/org.go:79-80 | Replacing every occurrence of one character by another keeps the length and rewrites each position independently. |
| GoStrings.LessTotal | cmd/org.go:128 | Go's string order is total: two strings are equal or one is less. |
| GoStrings.LessTransitive | cmd/org.go:274 | Go's string order is transitive. |
| GoStrings.LessIrreflexive | cmd/org.go:274 | No string is less than itself. |
| GoStrings.Builder.constructor | cmd/org.go:231 | A new `strings.Builder` holds no text. |
| GoStrings.Builder.WriteString | cmd/org.go:196 | `WriteString(s)` keeps what the buffer held and appends `s`. |
| StableSort.InsertBy | cmd/org.go:127-129 | Inserting one element grows the sequence by one and adds exactly that element. The element goes after every element with the same key. |
| StableSort.InsertByKeepsOrder | cmd/org.go:127-129 | Inserting into a key-ordered sequence keeps it key-ordered. |
| StableSort.SortBy | cmd/org.go:274 | `sort.SliceStable` by a string key. The result is ordered by key and is a permutation of the input. Elements with equal keys keep their input order. |
| StableSort.StableOrderIsUnique | cmd/org.go:127-129 | Two key-ordered sequences that agree on the order within every key are equal. |
| StableSort.SortByIsTheStableSort | cmd/org.go:274 | `SortBy`'s result is the only key-ordered rearrangement that keeps ties in input order. Any stable sort produces it. |
| StableSort.WithKeyEmpty | cmd/org.go:127-129 | An input has no element with key `k` exactly when its key-`k` subsequence is empty. |
| Civil.DaysIn | cmd/org.go:46 | Months have 28 to 31 days, and only February of a leap year has 29. |
| Civil.DayBefore | cmd/org.go:46 | `AddDate(0, 0, -1)` on a date gives a valid date before it, and no valid date lies between the two. |
| Civil.DayAfter | cmd/org.go:46 | The next day is a valid date after the given one, and no valid date lies between the two. |
| Civil.DayBeforeUndoesDayAfter | cmd/org.go:46 | Going back a day and going forward a day undo each other. |
| OrgDate.Digit | cmd/org.go:39 | A digit character reads back as its value. |
| OrgDate.Dec | cmd/org.go:39 | The zero-padded decimal of the layouts. It has no contract of its own; `DecReadsBack` gives its width and reads it back. |
| OrgDate.FormatYear | cmd/org.go:39 | The layout element "2006". It has no contract of its own; `DateReadsBack` reads it back for four-digit years. |
| OrgDate.FormatDate | cmd/org.go:39 | The layout "2006-01-02". It has no contract of its own; `DateReadsBack` reads it back. |
| OrgDate.WeekdayName | cmd/org.go:59 | The layout element "Mon". It has no contract of its own; `WeekdayReadsBack` reads it back. |
| OrgDate.FormatClock | cmd/org.go:72 | The layout "15:04". It has no contract of its own; `ClockReadsBack` reads it back. |
| OrgDate.FormatStamp | cmd/org.go:59 | The layout "2006-01-02 Mon 15:04", also used at line 69. It has no contract of its own; `StampReadsBack` reads it back. |
| OrgDate.PrintOrgDate | cmd/org.go:31-74 | With no start, the result is exactly "\n". Otherwise it is an angle-bracketed timestamp. |
| OrgDate.PrintOrgDateReadsBack | cmd/org.go:31-74 | What `printOrgDate` writes reads back as the timestamp shape the code chooses (`ShownSpan`), when the years it prints have four digits. <br>All-day events:<ul><li>The start date alone when there is no end or the day before the exclusive end is the start.</li><li>Otherwise the range from the start to the day before the end.</li></ul>Timed events:<ul><li>The start stamp alone when there is no end.</li><li>Start stamp and end clock when the day of the month is the same, whatever the month and year.</li><li>Otherwise both full stamps.</li></ul> |
| OrgDate.ShownIsIntendedUnlessSameDayOfMonth | cmd/org.go:68 | The shape the code chooses differs from the intended one exactly for a timed event that ends on another date with the same day of the month. |
| OrgDate.MonthApartReadsAsSameDay | cmd/org.go:66-73 | A timed event from 5 January 2024, 10:00, to 5 February 2024, 11:30, reads back as a start with an end clock of 11:30 and not as the span between the two moments. |
| OrgDate.DecReadsBack | cmd/org.go:39 | A number written zero-padded to a width at least its digit count has exactly that width and reads back as the number. |
| OrgDate.DateReadsBack | cmd/org.go:39 | A date written with layout "2006-01-02" is ten characters long and reads back as that date. |
| OrgDate.WeekdayReadsBack | cmd/org.go:59 | The layout element "Mon" reads back as the weekday. |
| OrgDate.ClockReadsBack | cmd/org.go:72 | A time written with "15:04" reads back as the hour and minute. |
| OrgDate.StampReadsBack | cmd/org.go:59 | A stamp written with "2006-01-02 Mon 15:04" is twenty characters long and reads back as date, weekday, hour and minute. |
| OrgDate.OnDayReadsBack | cmd/org.go:40-43 | `<date>` reads back as that single day. |
| OrgDate.DayRangeReadsBack | cmd/org.go:53-54 | `<first>--<last>` reads back as that day range. |
| OrgDate.AtReadsBack | cmd/org.go:59-64 | `<stamp>` reads back as that moment. |
| OrgDate.AtUntilReadsBack | cmd/org.go:72-73 | `<stamp-HH:MM>` reads back as the start and the end's clock. |
| OrgDate.BetweenReadsBack | cmd/org.go:68-70 | `<stamp>--<stamp>` reads back as both moments. |
| OrgText.CleanString | cmd/org.go:78-83 | `cleanString` itself: the three replacements in turn. It has no contract of its own; `CleanStringIsEscaped` equates it with the per-character `Escaped`, and `CleanStringEscapes`, `CleanStringContainsNone`, `CleanStringIdempotent` and `CleanStringEmpty` state its properties. |
| OrgText.CleanStringIsEscaped | cmd/org.go:78-83 | The three replacements, applied in turn, equal escaping each character in place. "[" and "]" become braces, and a comma follows every newline that comes before "*". |
| OrgText.StarsEscaped | cmd/org.go:81 | After the bracket swaps, replacing "\n*" by "\n,*" completes the per-character escaping. |
| OrgText.CleanStringEscapes | cmd/org.go:78-83 | The result has no "[", no "]" and no newline followed by "*". The input is unchanged exactly when it already had none of these. |
| OrgText.CleanStringContainsNone | cmd/org.go:78-83 | In Go's terms: `strings.Contains` finds none of "[", "]" and "\n*" in the result. |
| OrgText.CleanStringIdempotent | cmd/org.go:78-83 | Cleaning twice gives the same text as cleaning once. |
| OrgText.CleanStringEmpty | cmd/org.go:78-83 | Exactly the empty string cleans to the empty string. |
| OrgEntry.StatusNote | cmd/org.go:89-91 | The heading has a "(status) " note exactly for "tenative" and "cancelled". |
| OrgEntry.Heading | cmd/org.go:88-103 | The heading line. It has no contract of its own; `EntryStartsWithHeading`, `SummaryKeptVerbatim` and `EmptySummaryIsBusy` state its properties, and `StatusNote` its note. |
| OrgEntry.MailLine | cmd/org.go:108 | The creator and organizer lines (also line 111). It has no contract of its own; `BuildEntry` proves that the entry holds it, and its name goes through `CleanString`. |
| OrgEntry.Properties | cmd/org.go:104-113 | The property drawer. It has no contract of its own; `BuildEntry` proves that `fullentry` holds it after the heading. |
| OrgEntry.CanonicalId | cmd/org.go:116-125 | The attendee sort key never is empty. It is the id if that is set, else the email, else the cleaned display name, else "sadness". |
| OrgEntry.Glyph | cmd/org.go:148-158 | The glyph is "✗" exactly for "declined", "☐" exactly for "tenative" and "✓" exactly for "accepted". Every other response status, "" and "NeedsAction" included, gets a space. |
| OrgEntry.LinkName | cmd/org.go:160-163 | The link text is the cleaned display name, or the email when the display name is empty. |
| OrgEntry.AttendeeLine | cmd/org.go:164 | One attendee's line. It has no contract of its own; `ListAttendees` proves that the loop writes it for each attendee, with `Glyph` and `LinkName` for its parts. |
| OrgEntry.ListAttendees | cmd/org.go:136-176 | The attendee loop writes one line per attendee, in the order given. It clears the print flag exactly when some attendee is the user and declined. |
| OrgEntry.AttendeeSection | cmd/org.go:130-177 | The label appears when there is any attendee. Over twenty attendees give "... Many" and keep the flag set. Otherwise the loop's lines and flag. |
| OrgEntry.ListAttachments | cmd/org.go:184-191 | The attachment loop writes one line per attachment that is not nil, in input order. |
| OrgEntry.AttachmentLine | cmd/org.go:189-190 | One attachment's line. It has no contract of its own; `ListAttachments` proves that the loop writes it for each attachment that is not nil. |
| OrgEntry.AttachmentSection | cmd/org.go:182-194 | The "Attachments:" title is written exactly above a non-empty list of attachment lines. |
| OrgEntry.BuildEntry | cmd/org.go:86-194 | `fullentry` is the whole entry: heading, drawer, timestamp, attendee block, escaped description, attachments. The print flag is false exactly when the entry is suppressed. |
| OrgEntry.PrintOrg | cmd/org.go:85-198 | `printOrg` keeps what `out` held and appends the rendering of the event: either nothing or the whole entry. |
| OrgEntry.RenderedAllOrNothing | cmd/org.go:133-177 | Nothing is appended exactly when there are at most twenty attendees and one of them is the user who declined. Otherwise exactly the entry is appended. |
| OrgEntry.ManyAttendeesAlwaysShown | cmd/org.go:133-134 | With over twenty attendees the entry is always written. Its attendee block is "Attendees:\n... Many\n" and has no per-attendee lines. |
| OrgEntry.AttendeesInKeyOrder | cmd/org.go:127-164 | With one to twenty attendees the block is the label, then one line per attendee. The lines are ordered by canonical id, are a permutation of the attendees, and keep ties in input order. |
| OrgEntry.SelfDeclinedAmongSame | cmd/org.go:127-129 | Sorting the attendees does not change whether one of them is the user and declined. |
| OrgEntry.DeclinedAmongStep | cmd/org.go:171-173 | One more attendee sets the "declined" finding exactly when it is the user and declined. |
| OrgEntry.PresentStep | cmd/org.go:184-191 | One more attachment adds its line when it is not nil. A nil one adds nothing. |
| OrgEntry.EntryStartsWithHeading | cmd/org.go:88-103 | Every entry starts with its heading, which starts with "** ". |
| OrgEntry.PresentConcat | cmd/org.go:184-191 | The attachments that are not nil, across a split of the list, are those of each part in order. |
| OrgEntry.PresentMembers | cmd/org.go:184-191 | An attachment is listed exactly when it occurs, not nil, in the input. |
| OrgEntry.AttachmentBlockShape | cmd/org.go:182-194 | The attachment block is non-empty exactly when some attachment is not nil. It is then the title followed by one line per such attachment. |
| OrgEntry.DescriptionIsClean | cmd/org.go:179-181 | The description is wrapped in newlines and then escaped, so it cannot start a heading or break a link. The text with its closing newline holds no bracket and no newline followed by "*". |
| OrgEntry.SummaryKeptVerbatim | cmd/org.go:92-103 | A summary "[Q1]" appears as is in the heading "** [Q1]". |
| OrgEntry.EmptySummaryIsBusy | cmd/org.go:89-95 | An empty summary of a cancelled event gives the heading "** (cancelled) busy". |
| OrgCalendars.Approved | cmd/org.go:204-206 | `approvedCals` holds the configured calendar ids in configuration order. |
| OrgCalendars.Tags | cmd/org.go:202-207 | `calendarMap` has exactly the configured ids as keys. |
| OrgCalendars.TagsLastWins | cmd/org.go:207 | The last configuration entry for an id decides its tag. |
| OrgCalendars.ApprovedAreTagged | cmd/org.go:242 | Every approved calendar has a tag, so `calendarMap[approvedCal]` is always defined. |
| OrgCalendars.ReadConfig | cmd/org.go:202-208 | The configuration loop builds exactly `approvedCals` and `calendarMap`. |
| OrgCalendars.Received | cmd/org.go:226-229 | Every listed calendar's id is a key, and every key maps to an entry with that id. |
| OrgCalendars.ReceivedKeys | cmd/org.go:226-229 | An id is a key of `receivedCals` exactly when the listing has a calendar with that id. |
| OrgCalendars.ReceivedLastWins | cmd/org.go:228 | A later listing entry with the same id replaces an earlier one. |
| OrgCalendars.IndexListing | cmd/org.go:226-229 | The listing loop builds exactly `receivedCals`. |
| OrgCalendars.FetchEvents | cmd/org.go:248-271 | The pagination loop returns the collected items of the answers up to the first answer without a next-page token. It fails on a failed request. |
| OrgCalendars.CollectAtLastPage | cmd/org.go:248-271 | When answers 0..n all succeed and n is the first without a token, the events are all items of answers 0..n, in order. |
| OrgCalendars.CollectFindsLastPage | cmd/org.go:248-271 | Pagination succeeds only if some answer is the last page, reached with every earlier request succeeding. |
| OrgCalendars.HitsTitleFilter | cmd/org.go:286-290 | The filter loop finds a hit exactly when the summary contains one of the title filters. |
| OrgCalendars.WriteEvents | cmd/org.go:276-292 | The `itemloop` keeps what the builder held and appends the rendering of each event not filtered out, in order. |
| OrgCalendars.EventsTextStep | cmd/org.go:286-291 | One more event adds its rendering, or nothing when its summary contains a title filter. |
| OrgCalendars.EventsTextIsRetained | cmd/org.go:276-292 | The `itemloop` writes the retained events' renderings one after the other. |
| OrgCalendars.RetainedMembers | cmd/org.go:286-291 | An event reaches `printOrg` exactly when it was fetched and its summary contains no title filter. |
| OrgCalendars.RetainedSorted | cmd/org.go:274-292 | Skipping filtered events keeps the rest in id order. |
| OrgCalendars.CalendarEventsInOrder | cmd/org.go:273-292 | The events written for a calendar are in id order. They are exactly those fetched whose summary contains no title filter. Sorting and then filtering, as the code does, gives the stable sort by id of the events that pass the filters. |
| OrgCalendars.RetainedWithKey | cmd/org.go:273-292 | Dropping filtered events and picking the events with one id give the same result in either order. |
| OrgCalendars.EmptyFilterHidesAll | cmd/org.go:286-288 | An empty title filter is contained in every summary, so nothing is written for the events. |
| OrgCalendars.SortsById | cmd/org.go:273-274 | Events fetched with ids "b" then "a" are written "a" first. |
| OrgCalendars.CalendarHeading | cmd/org.go:242-246 | A calendar's heading, drawer and description. It has no contract of its own; `WriteCalendarHeading` proves that the five writes append exactly it. |
| OrgCalendars.WriteCalendarHeading | cmd/org.go:242-246 | The five writes append exactly the calendar heading, its drawer and its description. |
| OrgCalendars.WriteCalendar | cmd/org.go:237-292 | A calendar missing from the listing adds nothing. A listed one adds its heading and its sorted, filtered events, and fails exactly when fetching fails. |
| OrgCalendars.WriteCalendars | cmd/org.go:235-293 | The calendar loop appends the blocks of the approved calendars in order. It fails exactly when one of them fails. |
| OrgCalendars.BlocksStep | cmd/org.go:235-293 | One more approved calendar appends its block, or makes the result fatal. |
| OrgCalendars.BlocksStayFatal | cmd/org.go:262 | Once one calendar's fetch is fatal, the whole document is. |
| OrgCalendars.BlocksAppend | cmd/org.go:235-293 | The blocks of a split list of calendars are the blocks of each part, in order. |
| OrgCalendars.BlocksOne | cmd/org.go:235-293 | A single approved calendar contributes exactly its block. |
| OrgCalendars.DuplicateCalendarWrittenTwice | cmd/org.go:204-246 | A calendar id configured twice under two tags is approved twice, gets the later tag, and its block is written twice. |
| OrgCalendars.DuplicateEventWrittenTwice | cmd/org.go:270-292 | An event held twice by the pages survives the sort twice and is written twice, unless a title filter hides it. |
| OrgCalendars.UnlistedCalendarContributesNothing | cmd/org.go:237-240 | An approved calendar that the listing does not have adds nothing to the document. |
| OrgCalendars.Header | cmd/org.go:233-234 | The two header lines. It has no contract of its own; `PrintCalendars` proves that the document starts with them. |
| OrgCalendars.PrintCalendars | cmd/org.go:200-297 | `printCalendars` returns the two header lines and then the blocks of the approved calendars. It gives no document when the listing or an event request fails. |

## Left out

- The Google API calls (`calendar.New`, `CalendarList.List`, `Events.List(...).Do()`) are inputs: the listing and, per calendar id, the answers to successive event requests.
  - A failed `calendar.New` is not modelled.
  - Request options are not modelled: hidden or deleted calendars, single events, the 250-result limit, the time window.
- The page token sent with a request is not modelled. The k-th request for a calendar id gets the k-th answer for that id. Every pass over the same id makes the same requests and sees the same answers, so a calendar configured twice gets the same events both times. Running out of answers before a page without a token counts as a failed request.
- `log.Fatalf` stops the program. The model returns `None` instead, and the text already written is dropped with it.
- `time.Now`, the nine-months-back / one-year-ahead window, RFC 3339 and "2006-01-02" parsing, and the conversion to the local zone are inputs. Each `EventDateTime` carries the parsed date and the local stamp with its weekday, and a value that fails to parse is some valid date, standing for Go's zero time.
- `OrgDate.PrintOrgDateReadsBack` is proved only when the years it prints are between 0 and 9999, where the layout "2006" writes exactly four digits. Other years are still written, by `FormatYear`.
- `OrgEntry.BuildEntry` sorts a copy of the attendee list. Go sorts the event's own slice in place, and that change to the caller's event is not modelled.
- `OrgEntry.ListAttendees` has no nil check, because the attendee type has no nil. With two or more attendees, `canonical_id` would dereference a nil attendee during the sort, before the check at line 137 is reached, and the program would panic. The panic is not modelled. A lone nil attendee is not modelled either: the sort makes no comparison, so Go would write "Attendees:" with no line under it.
- `OrgEntry.PrintOrg` takes `tagname` and does not use it: the code that used it is commented out.
- `OrgCalendars.WriteEvents` writes `continue itemloop` as a call to `HitsTitleFilter` followed by `continue`.
- `OrgCalendars.PrintCalendars` returns the finished text rather than the builder itself.
- `cmd/fetch.go` (configuration loading, the command and writing the output) is not part of this model. Neither is the HTTP client.
