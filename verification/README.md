# chatapp-skel: the event dispatcher and timestamp reader, in Dafny

This project models the two pure pieces of the long-polling chat client in
`js/chatapp.js`:

- **The event dispatcher**, `Connection.parseEvents`. One poll response is a
  JSON array of events. The dispatcher walks it in array order. For each event
  it overwrites the cursor `lastSequence` with the event's `sequence`, then
  switches on the event's `type`:
  - `message` appends `{message, nickName, dateTime, gravatar}` to the message
    collection;
  - `join` appends `{nickName, gravatar}` to the user collection;
  - `part` removes the first user with that nickname;
  - any other type changes nothing else.

  The model is a left fold (`Events.ParseEvents`) over an `Event` datatype and
  a `State` of the cursor and two sequences. Next to it is a loop method
  (`Events.ParseEventsLoop`) written the way the source writes it.
- **The timestamp reader**, `ChatApp.parseISO8601`. It reads
  `YYYY-MM-DDTHH:MM:SS[.fff]Z` by splitting on `T`, `-`, `Z`, `:` and `.` in
  that order. It converts each piece with `Number()` and writes the pieces
  into a UTC `Date`. The model (`Iso8601.ParseISO8601`) returns a record of
  the fields written: the zero-based month, and milliseconds only when a
  non-empty fraction is present. It also covers the reader's failures:
  - the TypeError thrown when the `T`, or the third `:`-separated piece, is
    missing;
  - the invalid Date left behind when a piece is not a number.
- **The poll address** built by `listen` from the cursor, and the fallback
  server address of the constructor (module `Connection`).

The building blocks are in module `Text`:
- JavaScript's `split` with a one-character separator, proved to be the
  inverse of joining;
- `Number()` on decimal digit strings;
- integer printing.

Behaviours of the code that are easy to miss:

- The cursor is **overwritten**, not advanced, so it can move back: a batch
  whose last sequence is lower than the cursor moves it back
  (`Events.CursorCanMoveBack`).
- The reader **never checks the trailing `Z`**. Without it, or with any text
  after it, the result is the same (`Iso8601.ParseWellFormed`,
  `suffix` parameter). A numeric offset such as `+02:00` still yields an invalid
  Date, because it lands in the seconds piece, or in the fraction piece when there
  is one (`Iso8601.ZoneOffsetIsInvalid`).
- A `message` event whose `dateTime` makes the reader throw **aborts the rest
  of the batch**:
  - the cursor has already moved to that event's sequence;
  - the message is not added;
  - later events in the array are not processed.

  The model's `Outcome.Threw` carries the state at that point.
- A `join` followed by a `part` of the same nickname **restores the user list
  whenever nobody had that nickname before** (`Events.JoinThenPart`). When
  someone did, the `part` removes the oldest entry with that nickname and the
  new entry stays at the end of the list.
- Fractional seconds are taken **unscaled**: `.5` gives 5 milliseconds and
  `.789` gives 789.
- The date fields are written **one setter at a time** into a Date that holds
  the current time, so the day the Date ends up on depends on the clock (see
  "## Findings"). `Iso8601.Date` records the values handed to the setters.
  `Iso8601.CalendarDay` gives the calendar day the Date ends up on for a
  given clock day; `Iso8601.IntendedCalendarDay` gives the day the fields
  name.

## Model

| member | source | states |
|---|---|---|
| Text.Split | js/chatapp.js:211-215 | `split` on one character: at least one piece; no piece holds the separator; joining the pieces gives back the input; exactly one piece iff the separator does not occur |
| Text.SplitJoin | js/chatapp.js:211-215 | splitting text joined from separator-free pieces gives back exactly those pieces, so the pieces `split` returns are the only possible ones |
| Text.NumberOfReadsNatToDecimal | js/chatapp.js:216-226 | `Number()` reads back exactly the number that printing produced |
| Text.NumberOfIgnoresLeadingZeros | js/chatapp.js:216-226 | `Number()` ignores zeros in front of the digits, so a field such as "05" reads as 5 |
| Text.NatToDecimal | js/chatapp.js:120 | the printed form of a safe integer is a non-empty digit string with no leading zero, and reading it back gives the number |
| Text.IntToDecimalRoundTrip | js/chatapp.js:120 | the text `'since=' + this.lastSequence` produces for a safe integer cursor, sign included, reads back as the same integer |
| Iso8601.ParseISO8601 | js/chatapp.js:210-231 | the reader throws "no time part" exactly when the input has no 'T'; any date it yields has a zero-based month of at least -1 |
| Iso8601.ParseWellFormed | js/chatapp.js:210-227 | on `Y-M-DTh:m:s[.f]Z` with digit fields: year Y, month M-1, day D, hours h, minutes m, seconds s, milliseconds the unscaled value of f when f is present and non-empty and otherwise unset; the trailing Z is optional and any text after it is ignored |
| Iso8601.FormatRoundTrip | js/chatapp.js:210-227 | every date the reader can produce is read back from its own formatted timestamp: the reader loses no field |
| Iso8601.NoSecondsPartThrows | js/chatapp.js:213-215 | a time part with a single ':', with or without a trailing Z and text after it, throws (`timeSubParts[2]` is undefined) |
| Iso8601.ZoneOffsetIsInvalid | js/chatapp.js:214-226 | a `+hh:mm` or `-hh:mm` offset in place of Z, after the seconds or after a fraction, makes the seconds or fraction piece non-numeric, so the Date is invalid |
| Iso8601.ExampleWithFraction | js/chatapp.js:210-227 | "2013-05-01T12:34:56.789Z" reads as 2013, month 4 (May), day 1, 12:34:56 and 789 ms |
| Iso8601.ExampleWithoutFraction | js/chatapp.js:210-227 | "2013-05-01T12:34:56Z" reads as the same instant with the milliseconds unset |
| Iso8601.CalendarDay | js/chatapp.js:217-226 | the Date the reader builds on a clock day `now` ends up on a valid calendar day whenever month, day, hours, minutes, seconds and milliseconds are in range (the time setters then cannot move the day), and on the day the fields name whenever that day is valid and the clock's day of the month fits the named month |
| Iso8601.IntendedCalendarDay | js/chatapp.js:219-226 | the corrected reading: a date with in-range time fields whose year, month and day name a valid day stands for exactly that day, with no clock involved |
| Iso8601.CalendarDayMatchesIntendedIff | js/chatapp.js:217-226 | for a valid named day with in-range time fields and a clock day that survives the year change, the reader lands on the named day if and only if the clock's day of the month exists in the named month |
| UtcCalendar.MakeDay | js/chatapp.js:219-221 | the day a setter lands on is a valid calendar day, `date - 1` days after the first of the named month, as ECMAScript's `MakeDay` counts days |
| UtcCalendar.SetDateFieldsAsWritten | js/chatapp.js:217-221 | the year, month and day setters applied in turn to the clock's day give a valid day, and the named day whenever the clock's day of the month fits the named month |
| UtcCalendar.AsWrittenDependsOnClock | js/chatapp.js:217-221 | when the year change alone keeps the clock's day, the setters as written give the named day if and only if the clock's day of the month exists in the named month |
| UtcCalendar.JuneFirstReadOnThe31st | js/chatapp.js:217-221 | read on the 31st of a month, 2013-06-01 becomes 1 July 2013 as written, and stays 1 June 2013 when the date is set in one call |
| UtcCalendar.SetDateFieldsIntended | js/chatapp.js:219-221 | setting year, month and day in one call gives exactly the named day for every valid date, counted as `MakeDay` counts |
| Events.FirstIndex | js/chatapp.js:182-186 | `find` returns the first position whose nickname matches, or nothing exactly when no user matches |
| Events.RemoveFirst | js/chatapp.js:182-186 | `remove(find(...))` drops only the first matching user and keeps the rest in order; with no match the list is unchanged |
| Events.Step | js/chatapp.js:158-193 | one loop iteration: cursor overwritten, then dispatch on `type`; its effect per type is stated by `Events.MessageEventAppends`, `Events.JoinEventAppends`, `Events.PartEventRemovesFirst`, `Events.OtherEventMovesOnlyCursor` and `Events.UnreadableMessageThrows` |
| Events.ParseEvents | js/chatapp.js:157-194 | the loop over the response array as a left fold that stops at a throwing timestamp; its properties are stated by `Events.FoldComposition`, `Events.CompletesIffDatesReadable`, `Events.CursorIsLastSequence`, `Events.ThrowStopsAtEvent` and `Events.MessagesAppendInOrder` |
| Events.ParseEventsLoop | js/chatapp.js:155-196 | the counted loop that mutates the state in place computes exactly the left fold, stopping where a timestamp throws |
| Events.EmptyBatch | js/chatapp.js:157 | an empty response leaves the cursor and both collections unchanged |
| Events.FoldComposition | js/chatapp.js:157-194 | processing `a + b` equals processing `a` and then, unless it threw, `b` from the resulting state |
| Events.CompletesIffDatesReadable | js/chatapp.js:157-170 | the batch runs to the end if and only if no `message` event carries a timestamp that makes the reader throw |
| Events.CursorIsLastSequence | js/chatapp.js:157-159 | after a non-empty batch that runs to the end, the cursor equals the last event's sequence, whatever its type |
| Events.ThrowStopsAtEvent | js/chatapp.js:157-170 | a throwing batch stops at the first unreadable message: earlier events applied, cursor at its sequence, later events ignored |
| Events.MessagesAppendInOrder | js/chatapp.js:162-170 | the message list only grows: a completed batch appends one record per `message` event, in event order, after every earlier message |
| Events.UsersChangeOnlyOnJoinOrPart | js/chatapp.js:160-191 | a batch with no `join` or `part` event leaves the user list unchanged |
| Events.MessageEventAppends | js/chatapp.js:162-170 | a `message` event appends exactly one record carrying its message, nickname, gravatar and parsed dateTime at the end; users unchanged; cursor is its sequence |
| Events.JoinEventAppends | js/chatapp.js:172-178 | a `join` event appends `{nickName, gravatar}` at the end of the user list, with no duplicate check; messages unchanged |
| Events.PartEventRemovesFirst | js/chatapp.js:180-187 | a `part` event removes only the first user with its nickname, keeping the others' order, and changes nothing if none matches; messages unchanged |
| Events.OtherEventMovesOnlyCursor | js/chatapp.js:189-191 | an event of any other type changes only the cursor |
| Events.UnreadableMessageThrows | js/chatapp.js:159-167 | a `message` event with an unreadable timestamp moves the cursor, adds nothing, and aborts the rest of the batch |
| Events.DoubleJoinAddsTwo | js/chatapp.js:172-178 | two joins with the same nickname grow the user list, and that nickname's count, by two: join is not idempotent |
| Events.JoinThenPart | js/chatapp.js:172-187 | join N then part N keeps N's count; the user list is restored whenever nobody had N before |
| Events.PartOfUnknownNickIsNoop | js/chatapp.js:180-187 | a `part` for a nickname nobody has changes only the cursor |
| Events.CursorCanMoveBack | js/chatapp.js:159 | the cursor is overwritten, so a lower sequence moves it back |
| Events.AliceJoins | js/chatapp.js:172-178 | a fresh connection receiving one `join` for alice holds exactly that user, with the cursor at 1 |
| Connection.PollUrl | js/chatapp.js:120 | the long-poll address `serverUri + 'eventpoll?since=' + lastSequence + '&nickName=' + nickName + '&email=' + email`; `Connection.PollUrlCarriesCursor` states that the cursor is read back from it exactly |
| Connection.ServerUriOrDefault | js/chatapp.js:89-92 | the server address is never empty: a supplied non-empty address is kept, and an absent or empty one becomes `http://localhost:8080/` |
| Connection.PollUrlCarriesCursor | js/chatapp.js:120 | reading `since` back from the poll address gives the cursor exactly, whatever the nickname and email |
| Connection.NextPollResumesAfterBatch | js/chatapp.js:120 | after a completed batch, the next poll asks for events since the last event's sequence |
| Connection.BobSaysHi | js/chatapp.js:157-170 | bob's "hi" at 2013-01-01T00:00:00Z with sequence 5 adds that one message, leaves users unchanged, and the next poll asks for since=5 |

## Left out

- The Backbone `Model`, `Collection` and `View` classes: `UserListView` rendering, `WelcomeView` and the `Application` wiring (js/chatapp.js:26-66, 233-393). These are UI and framework glue; the collections are plain sequences here.
- The `$.ajax` requests in `listen`, `join` and `message` (js/chatapp.js:120-146), including the re-poll from the `complete` callback, which repeats without end. This is network I/O with an unbounded asynchronous loop. Only the poll address is modelled. The join and message addresses are plain concatenations sent to the network.
- The constructor's join-then-listen callback ordering (js/chatapp.js:95-97). It is asynchronous sequencing, not sequential logic.
- `console.log` calls, and URL encoding of query values: the source does none.
- JavaScript `Date` semantics beyond the calendar day. `Iso8601.Date` records the arguments handed to the setters, not the instant the Date ends up holding. Even in-range fields can name a different instant: the Date starts as the current time, and a date in a 30-day month or in February can land in the following month, depending on the clock's day (see "## Findings"). `Iso8601.CalendarDay` resolves only months from 0 to 11, days from 1 to 31, hours below 24, minutes and seconds below 60 and milliseconds below 1000, and gives None otherwise; it does not follow `setUTCDate(0)` back to the previous month or `setUTCHours(24)` on to the next day. Years beyond the Date range give an invalid Date. With no fraction, the milliseconds of the current time survive; the model records them as unset.
- Text.NatToDecimal: prints the exact digits of every number. JavaScript does so only for safe integers (magnitude at most 2^53). Above that it prints the shortest digits that round-trip the double, padded with zeros, and from 10^21 on it uses exponent form (`1e+21`). Floating point is not modelled.
- Text.IntToDecimalRoundTrip: holds for the text JavaScript prints only while the cursor is a safe integer, for the same reason; larger sequence numbers would not be sent back exactly in `since`.
- Iso8601.ParseISO8601: `Number()` is modelled only on plain decimal digit strings. The empty string gives 0, as in JavaScript. Any other piece is treated as NaN, although JavaScript converts some of them: surrounding whitespace, a sign, an exponent, a hexadecimal prefix, a decimal point. Digit strings too long for a double are read exactly, because floating point is not modelled.
- Events.ParseEventsLoop: JSON fields that are absent (`undefined`) or are not strings are not modelled. Neither are sequences that are not integers, or inputs that are not arrays.
- Connection.ServerUriOrDefault: of JavaScript's falsy values, only an absent address and the empty string are modelled, not `null`, `0` or `false`.

## Findings

| source | as written | input that shows it | evidently intended | confidence | as-written member | corrected member |
|---|---|---|---|---|---|---|
| js/chatapp.js:217-221 | `setUTCFullYear`, `setUTCMonth` and `setUTCDate` are called one after the other on a Date holding the current time, so the month is changed while the clock's day of the month is still in place | "2013-06-01T00:00:00Z" read on any 31st: June 31 rolls to 1 July, then `setUTCDate(1)` leaves 1 July 2013 | the calendar day the text names, whatever the clock shows, as one `setUTCFullYear(year, month, day)` call gives | high (not executed) | UtcCalendar.SetDateFieldsAsWritten, UtcCalendar.JuneFirstReadOnThe31st, Iso8601.CalendarDay | UtcCalendar.SetDateFieldsIntended, Iso8601.IntendedCalendarDay |
