# Timecard work-status core in Dafny

This project models the core of a single-user timecard widget. The `useWorkStatus` hook keeps
the current work status (`free` or `working`) and today's list of work sessions. It offers
two operations. `startWork` opens a session and `endWork` closes it. A validator rejects
impossible times. The hook also builds the text that "copy" places on the clipboard, in a
simple one-line format or as a tab-separated spreadsheet row.

Everything is a pure function. The clock is an explicit parameter `now`, in integer
milliseconds. The state is the value `State(status, records)`. Each `Record` holds a `start`
and an optional `end`, where `None` means the session is still in progress.

Modules, one per concern:

- `WorkStatus` (`work_status.dfy`): the status, record and state datatypes, the validator,
  and the two transitions.
- `Sessions` (`sessions.dfy`): what runs of button presses keep. For any clock, only the last
  record can be open, and `Working` has it open. When the clock never goes backwards, the
  full invariant holds as well.
- `TimeOfDay` (`time_of_day.dfy`): `formatTime`, which gives the zero-padded 24-hour `HH:mm`
  of a timestamp, and its strict decoder, which accepts only hours 00-23 and minutes 00-59.
- `CopyText` (`copy_text.dfy`): the simple and spreadsheet texts and the break total. Each
  format has a decoder, and a round-trip lemma says what information the text carries.
- `Text` (`text.dfy`) and `Wrappers` (`wrappers.dfy`): helpers. `Text` holds decimal
  printing as in `Number.prototype.toString`, `padStart(2, '0')`, `join`, splitting and digit
  parsing. `Wrappers` holds `Option`.

Points where the code's behaviour is easy to miss:

- The code reads the clock twice during `startWork`: once for the new start time and once
  inside the validator. The model uses one value `now`, so a start from `Free` always passes
  validation. `endWork` also reads the clock twice: `new Date()` for the end time and
  `Date.now()` inside the validator. The model uses one `now` there as well. The two readings
  would differ in effect only if the clock stepped back within a single call.
- `endWork` only checks that some record exists. If the status is `Working` and the last
  record is already closed, a state no run reaches, `endWork` overwrites that record's end.
  The model does the same.
- If the clock reads earlier than the open record's start, the validator rejects the end.
  `endWork` still sets the status to `Free`, so a free state is left with an open last
  record. From then on `startWork` refuses to start, as `RejectedEndStrandsOpenRecord` shows.
  `endWork` does nothing from `Free`, so no sequence of presses ever leaves that state
  (`StrandedForever`).
  This is the only way runs break "open exactly while working". Whatever the clock does,
  only the last record can be open and `Working` has it open (`AnyRunShape`).
- Copy formats: `src/types.ts` declares `'simple' | 'detailed'`, but the hook branches on
  `'simple'` and `'spreadsheet'`. All three are modelled. Any format other than those two
  produces the empty string.
- Break minutes use `Math.floor`, which rounds down, so it equals Dafny's `/` with a positive
  divisor. The minutes field of the break uses JavaScript's `%`, which truncates. `JsRem`
  writes that out, so a negative total renders exactly as the source would print it: five
  minutes early prints as `-1:-5`. That rendering still determines the total, and the
  spreadsheet decoder undoes it.

## Model

| member | source | states |
|---|---|---|
| `WorkStatus.ValidateTimeRecord` | src/hooks/useWorkStatus.ts:12-45 | The record is accepted iff its start is not after `now` and its end, when present, is not before its start. A future start is reported as such. The long-session flag is set iff the end is more than 24 h after the start. |
| `WorkStatus.LongSessionAccepted` | src/hooks/useWorkStatus.ts:33-44 | A session longer than 24 h with a start not in the future is accepted; its length only raises the advisory. |
| `WorkStatus.StartWork` | src/hooks/useWorkStatus.ts:47-82 | From `Working`, the state is unchanged. From `Free` with the last record open, the state is unchanged. Otherwise exactly one open record starting at `now` is appended, earlier records are kept, and the status becomes `Working`; the number of existing records does not matter. |
| `WorkStatus.EndWork` | src/hooks/useWorkStatus.ts:84-110 | From `Free`, the state is unchanged. From `Working`, the status becomes `Free` and the record count is kept. Every record but the last is unchanged. The last gets end `now` when its start is not after `now`; otherwise it is left as it was. |
| `WorkStatus.RejectedEndStrandsOpenRecord` | src/hooks/useWorkStatus.ts:84-106 | If `endWork` runs with a clock earlier than the open record's start, the records are kept but the status becomes `Free`, and every later `startWork` leaves that state unchanged. |
| `Sessions.StrandedForever` | src/hooks/useWorkStatus.ts:47-110 | From a `Free` state whose last record is open, every sequence of presses leaves the state unchanged. The guard at line 53 refuses to start, and `endWork` does nothing unless working. |
| `Sessions.StepConsistent` | src/hooks/useWorkStatus.ts:47-110 | One `startWork` or `endWork` at a time not before the last one preserves the invariant. Only the last record may be open. It is open iff the status is `Working`. Starts never decrease, each session ends no later than the next starts, and no timestamp lies after the clock. |
| `Sessions.RunConsistent` | src/hooks/useWorkStatus.ts:47-110 | The invariant holds after any sequence of presses whose clock readings never decrease. |
| `Sessions.RunShaped` | src/hooks/useWorkStatus.ts:47-110 | Any sequence of presses, whatever the clock reads, keeps two facts. Only the last record may be open, since `startWork` refuses while it is open. `Working` has the last record open, since `working` is only set together with appending an open record. |
| `Sessions.AnyRunShape` | src/hooks/useWorkStatus.ts:47-110 | Every state reached from the empty `Free` state, with no assumption on the clock, has at most its last record open and has it open while `Working`. |
| `Sessions.ReachableShape` | src/hooks/useWorkStatus.ts:47-110 | Every state reached from the empty `Free` state with a non-decreasing clock has only its last record open. That record is open iff the status is `Working`, and starts are non-decreasing. |
| `TimeOfDay.FormatTime` | src/hooks/useWorkStatus.ts:113-119 | No contract of its own. `ClockRoundTrip`, `ClockTextUnique` and `HourMinute` state what it prints. |
| `TimeOfDay.HourMinute` | src/hooks/useWorkStatus.ts:113-119 | The hour field times 60 plus the minute field is the minute of the day of the timestamp. |
| `TimeOfDay.ClockRoundTrip` | src/hooks/useWorkStatus.ts:113-119 | `formatTime` yields five characters `HH:mm`, with the hour 00-23 and the minute 00-59, that read back as the timestamp's minute of the day. |
| `TimeOfDay.ClockTextUnique` | src/hooks/useWorkStatus.ts:113-119 | A text that reads back as a timestamp's minute of the day is exactly `formatTime` of it, so the round trip fixes the printed text. |
| `Text.NatToDecimal` | src/hooks/useWorkStatus.ts:165 | `toString` of a non-negative integer. Its contract says the text is non-empty and all digits. `DecimalRoundTrip` and `DecimalShortest` state the rest. |
| `Text.DecimalRoundTrip` | src/hooks/useWorkStatus.ts:165 | Reading the decimal printing of a non-negative integer gives the integer back. |
| `Text.DecimalShortest` | src/hooks/useWorkStatus.ts:165 | Decimal printing has one digit exactly below ten and never a leading zero. |
| `Text.PadStart2` | src/hooks/useWorkStatus.ts:165 | No contract of its own. `PadStart2Spec` states what it returns. |
| `Text.PadStart2Spec` | src/hooks/useWorkStatus.ts:165 | `padStart(2, '0')` puts zeros in front up to width two and keeps the input as the tail. |
| `Text.PaddedValue` | src/hooks/useWorkStatus.ts:165 | A padded non-negative number is all digits, reads back as the number, and is two characters wide below 100. |
| `Text.IntToDecimal` | src/hooks/useWorkStatus.ts:165 | No contract of its own. `PaddedIntValue` states what it prints. |
| `Text.PaddedIntValue` | src/hooks/useWorkStatus.ts:165 | `n.toString().padStart(2, '0')` reads back as `n` for every integer, negative ones included. It holds no colon or tab, and for `n >= 0` it is the two-digit padding. |
| `CopyText.SimpleText` | src/hooks/useWorkStatus.ts:130-138 | The simple text starts with the date followed by `": "`. It is exactly that header iff there are no records. |
| `CopyText.Entry` | src/hooks/useWorkStatus.ts:133-136 | No contract of its own. `EntryRoundTrip` states what it prints. |
| `CopyText.EntryRoundTrip` | src/hooks/useWorkStatus.ts:133-137 | One record prints as `start-end`, or `start-進行中` while open. The entry holds no comma, and it reads back as the start and end minutes of the day. |
| `Text.Join` | src/hooks/useWorkStatus.ts:138 | No contract of its own. `UnjoinJoin` and `EntriesJoined` state what it builds. |
| `CopyText.UnjoinJoin` | src/hooks/useWorkStatus.ts:132-138 | Entries joined by `", "` are recovered, in order, by cutting at the commas. |
| `CopyText.SimpleRoundTrip` | src/hooks/useWorkStatus.ts:130-138 | Decoding the simple text for its date gives one reading per record, in record order: the start and end minutes of the day, or in progress. |
| `CopyText.Gap` | src/hooks/useWorkStatus.ts:154-158 | No contract of its own. `BreakNonNegative` and `BreakBounds` state what the gaps add up to. |
| `CopyText.BreakMinutes` | src/hooks/useWorkStatus.ts:152-160 | No contract of its own. `TotalBreakMinutes` ties it to the loop, and `BreakBounds` and `BreakNonNegative` state what it computes. |
| `CopyText.TotalBreakMinutes` | src/hooks/useWorkStatus.ts:152-160 | The loop over consecutive pairs computes the sum of the whole-minute gaps between each closed record's end and the next start. |
| `CopyText.BreakNonNegative` | src/hooks/useWorkStatus.ts:153-160 | If sessions do not overlap, the break total is not negative. |
| `CopyText.BreakBounds` | src/hooks/useWorkStatus.ts:153-160 | With every record but the last closed, 60000 times the break total is at most the idle time. The idle time is the span from the first start to the last start, less the earlier sessions' work. It exceeds 60000 times the total by under a minute per gap. |
| `CopyText.JsRem` | src/hooks/useWorkStatus.ts:164 | JavaScript's `%` by a positive number: the result differs from the dividend by a multiple of the divisor. It lies in `[0, b)` for a non-negative dividend and in `(-b, 0]` for a negative one, which fixes it uniquely. |
| `CopyText.RenderBreak` | src/hooks/useWorkStatus.ts:163-165 | No contract of its own. `BreakRoundTrip`, `BreakSplit` and `NegativeBreakRendering` state what it prints. |
| `CopyText.BreakSplit` | src/hooks/useWorkStatus.ts:163-164 | Floored hours times 60 plus the truncated remainder give back the total, except when the remainder is negative. In that case the hours were rounded down by one. |
| `CopyText.BreakRoundTrip` | src/hooks/useWorkStatus.ts:162-165 | Every break total, negative ones included, renders without a tab and reads back as the total. A total from 0 up to 100 hours takes five characters. |
| `CopyText.NegativeBreakRendering` | src/hooks/useWorkStatus.ts:163-165 | A total of minus five minutes renders `-1:-5`: floored hours with a truncated remainder. |
| `CopyText.SpreadsheetText` | src/hooks/useWorkStatus.ts:139-168 | The spreadsheet text is empty iff there are no records. |
| `CopyText.LastEnd` | src/hooks/useWorkStatus.ts:146-149 | No contract of its own. `SpreadsheetRoundTrip` states where it shows up. |
| `CopyText.SpreadsheetRoundTrip` | src/hooks/useWorkStatus.ts:141-167 | For any non-empty records the text splits at its tabs into exactly three fields: the first start's `formatTime`, the last end's (or `now`'s while open), and the rendered break. These read back as the first start's clock, the last end's clock (or `now` while open), and the break total. |
| `CopyText.ClipboardText` | src/hooks/useWorkStatus.ts:122-169 | No contract of its own. `ClipboardContents` states what each format copies. |
| `CopyText.ClipboardContents` | src/hooks/useWorkStatus.ts:122-169 | `simple` text decodes to the records' readings. `spreadsheet` text is empty for no records and otherwise carries the three fields. Any other format gives `""`. |
| `CopyText.ReachableSpreadsheet` | src/hooks/useWorkStatus.ts:141-165 | In every state reached with a non-decreasing clock, the break total is not negative, so its field prints as plain zero-padded hours and minutes. |

## Left out

- React plumbing is not modelled: `useState`, `useCallback` and the functional updater of
  `setTodayRecords`. Each operation is a function from the old state to the new one.
- The in-place assignment to the shared record object in `endWork` is not modelled. The new
  state is built as a new value.
- Logging through `console.*` is left out because it does not affect the state. The
  more-than-24-hours advisory is kept as a flag in the validator's verdict. The 10-or-more
  records warning has no counterpart.
- The clipboard write (`navigator.clipboard.writeText`) and its error path are left out
  because they are foreign asynchronous I/O.
- Locale formatting is not modelled. `toLocaleDateString` becomes an opaque `date` string
  parameter. `toLocaleTimeString` becomes the zero-padded 24-hour `HH:mm` of an integer
  timestamp that already holds local time, so time zones are not modelled.
- Floating-point effects of `Math.floor(x / 60000)` are not modelled. The model uses exact
  integer floor division, which matches for any realistic timestamp.
- Persistence, storage keys and day rollover are not present in the hook's code, so they are
  not modelled. `src/hooks/useWorkStatus.ts` keeps state only in memory.
- The UI components (`src/components/ActionButtons.tsx`, `src/components/WorkStatusDisplay.tsx`
  with its one-second timer, `src/App.tsx`) are left out as presentation only.
