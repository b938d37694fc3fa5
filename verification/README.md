# Clinic day planner — a Dafny model

This project models `planner.js`, the browser script behind a one-page
clinic day planner. The page shows one date at a time. Each patient of that
date gets a column, cut into time slots between `startHour` and `endHour`.
Scheduled events sit in those columns. Staff members and event templates are
global lists in a sidebar.

The model covers these parts of the script:

- the date-partitioned persistence in `localStorage`;
- the navigation window around today;
- the `HH:MM` time texts;
- the slot and pixel arithmetic of the grid;
- every handler that changes the working set: the patient, staff and event
  forms, renames, the deletion cascades, template and reassign drops, staff
  chips, the edit form, and the drag and resize gestures;
- the whole page as a state machine of working set and storage (`Session`),
  run either with the drop handlers as written or with the two corrections
  listed under Findings.

Modules follow the script's concerns:

| module | file | what it holds |
|---|---|---|
| `Optional` | optional.dfy | `Option` |
| `Js` | js.dfy | the JavaScript primitives the script relies on: integer-or-NaN numbers, `String(n)`, `padStart`, `trim`, `Number`, `split`, truncating `%`, `Math.round` of a quotient |
| `Time` | time.dfy | `minutesToTime` and `timeToMinutes`, and their round trip |
| `Grid` | grid.dfy | the configuration, slots and pixels |
| `Horizon` | horizon.dfy | `clampDateToHorizon` on day numbers |
| `Seqs` | seqs.dfy | `find`/`findIndex`/`filter` |
| `Entities` | entities.dfy | patients, staff, templates, scheduled events, the gesture state and the working set |
| `Store` | store.dfy | the four storage keys, `loadLS`, `loadAllForDate`, `saveAll` |
| `Events` | events.dfy | drops, the event and edit forms, event delete, staff chips |
| `Registry` | registry.dfy | the sidebar lists and their deletion cascades |
| `Gestures` | gestures.dfy | drag and resize |
| `Session` | session.dfy | every handler followed by its save and reload, navigation, and whole-step invariants |

These modelling choices apply throughout:

- **Numbers.** A number is `Fin(v)` for an integer `v`, or `NaN`.
- **Dates.** A date is a whole day number, which also serves as the storage
  key.
- **Storage.** Each storage key holds `Missing`, `Unparsable` or the decoded
  value.
- **Early returns.** A handler that returns before saving yields `None` or an
  effect with nothing saved.
- **Outside inputs.** The page's own inputs (today's date, fresh ids from
  `crypto.randomUUID`, the grid metrics, typed form text, mouse offsets) are
  parameters.

## Model

| member | source | states |
|---|---|---|
| Js.Rem | planner.js:405 | JavaScript's `%` by a positive divisor: the remainder has the sign of the dividend, lies strictly within one divisor of zero, and completes the truncating division |
| Js.RoundDiv | planner.js:661 | `Math.round(a / b)`: the unique integer whose half-open bracket around `a/b` rounds halves upward |
| Js.OrElseText | planner.js:156 | `s \|\| fallback` on a string: a non-empty text is kept, and the empty text gives the fallback |
| Js.DecimalFacts | planner.js:405 | `String(n)` of a non-negative integer is a non-empty digit run worth `n` without a leading zero |
| Js.PadStart2Facts | planner.js:405 | `padStart(2, "0")` keeps a text of two or more characters and otherwise fills it up to two characters with leading zeros |
| Js.TrimStartFacts | planner.js:109 | trimming the front drops exactly a whitespace prefix and stops at a non-space character |
| Js.TrimEndFacts | planner.js:109 | trimming the back drops exactly a whitespace suffix and stops at a non-space character |
| Js.TrimEdges | planner.js:109 | the result of `trim()` neither starts nor ends with ECMAScript whitespace |
| Js.TrimInfix | planner.js:109 | the result of `trim()` is the infix of the input left after removing only whitespace at both ends |
| Js.TrimNoop | planner.js:109 | a text without whitespace at either end is its own trim |
| Js.NumberOfPadded | planner.js:404-412 | `Number` reads back every integer printed by `String` and zero-padded by `padStart(2, "0")` |
| Js.NumberOfDigits | planner.js:410 | `Number` reads a digit run as its decimal value |
| Js.NumberOfNegative | planner.js:410 | `Number` reads a minus sign followed by digits as the negated value |
| Js.JoinSplit | planner.js:410 | `split` by one character loses nothing: joining the pieces gives back the text |
| Js.SplitPair | planner.js:404-412 | two separator-free pieces around one separator split into exactly those two pieces |
| Time.TimeToMinutes | planner.js:408-412 | an empty text reads as 0; any other text reads as a number only when it has at least two colon-separated fields |
| Time.Fields | planner.js:404-412 | a printed time splits at the colon into the padded hour field and the padded minute field |
| Time.ReadBack | planner.js:404-412 | reading a printed time gives 60 times the floored hours plus the truncated remainder |
| Time.MinuteFieldInRange | planner.js:405 | for a non-negative count the minute field is two digits worth `m % 60`, and the hour field is worth the whole hours |
| Time.RoundTrip | planner.js:404-412 | printing and then reading a minute count gives it back exactly when it is non-negative or a whole number of hours |
| Time.TimeRoundTrip | planner.js:404-412 | NaN and every non-negative count survive printing and reading |
| Time.PrintedIsCanonical | planner.js:404-406 | every non-negative count prints as a text that reads back to it and prints the same again |
| Grid.SlotStartInDay | planner.js:339 | the start of every slot of the grid lies on a slot boundary inside the visible day, with a whole slot before the day's end |
| Grid.SlotRoundTrip | planner.js:693-694 | slot index to start minute and back is the identity |
| Grid.SlotOfAligned | planner.js:693-694 | minute to slot and back is the identity exactly on slot boundaries |
| Grid.PixelToSlot | planner.js:693 | `Math.round(top / slotH)` is the slot whose boundary is nearest, halves going down the grid |
| Grid.Snap | planner.js:661 | snapping gives a multiple of the slot height within half a slot of the input |
| Grid.SnapAligned | planner.js:661 | snapping leaves a multiple of the slot height where it is |
| Grid.TopOf | planner.js:425 | the drawn top of a minute count is the whole pixel at or above its exact position: within one pixel of the rational top, never below it |
| Grid.PixelRoundTrip | planner.js:693 | the top at which slot `i` is drawn rounds back to slot `i` |
| Horizon.ClampDate | planner.js:39-49 | with a non-empty window the result is the day of the window nearest to the input; a day inside the window is kept |
| Horizon.ClampIdempotent | planner.js:39-49 | with a non-empty window, clamping twice is clamping once |
| Horizon.ClampMonotone | planner.js:39-49 | clamping keeps the order of days |
| Horizon.EmptyWindowNotIdempotent | planner.js:43-47 | with an empty window (`pastDays + horizonDays < 1`) a second clamp moves the day again |
| Seqs.IndexOf | planner.js:677 | `find` by id: absent exactly when no element matches, otherwise the first match |
| Seqs.FilterMembership | planner.js:121 | an element survives `filter` exactly when it was in the list and is accepted |
| Seqs.FilterAppend | planner.js:121 | `filter` distributes over concatenation, so survivors keep their relative order |
| Seqs.FilterKeepsAll | planner.js:121 | a filter that accepts every element changes nothing |
| Seqs.RemoveAll | planner.js:501 | `filter(id => id !== x)`: `x` is gone, every other element stays, nothing is added |
| Seqs.RemoveAllAppend | planner.js:501 | removing distributes over concatenation |
| Seqs.RemoveAbsent | planner.js:501 | removing an absent value changes nothing |
| Store.WriteDay | planner.js:79-81 | the day's entry becomes the new list, every other day loads as before, and an unreadable map is replaced by a one-day map |
| Store.LoadAllForDate | planner.js:52-66 | each list is the decoded value of its key (the date's entry for the two date-keyed maps), and is empty when the key or the entry is missing or unreadable |
| Store.SaveAll | planner.js:68-82 | the global lists are written whole and the date's entry is replaced in both date-keyed maps |
| Store.LoadAfterSave | planner.js:52-82 | loading the saved date gives back exactly the saved working set |
| Store.SaveIsolation | planner.js:68-82 | saving one date never changes the patients or events another date loads |
| Store.SaveAllTwice | planner.js:119-122 | of two saves of the same date, the second wins completely |
| Store.SaveOneKey | planner.js:846-863 | a single-key save of the patient or staff form (and of the template form) loads back as the saved list, leaves the other three lists as they were, and leaves other dates' patients alone |
| Events.Instantiate | planner.js:339-351 | the event a template drop creates: the template's fields with their fallbacks and a copy of its staff, starting at the slot and lasting its duration |
| Events.TemplateDrop | planner.js:336-354 | an unknown template changes nothing; a known one appends exactly one event, in the column's patient, starting on the dropped slot inside the day |
| Events.MovedAsWritten | planner.js:360-362 | as written, the reassigned event gets the new start while a canonical end stays where it was |
| Events.ReassignDropAsWritten | planner.js:355-364 | as written: an unknown event changes nothing; otherwise only the first event with the id moves, with its end unchanged |
| Events.ReassignAsWrittenEndsBeforeStart | planner.js:360-362 | an event dropped on a slot after its own end ends up ending before it starts |
| Events.MovedKeepingLength | planner.js:355-362 | the corrected move: new patient and start, with `end - start` kept (and NaN when the old length was NaN) |
| Events.ReassignDrop | planner.js:355-364 | the corrected reassign drop: an unknown event changes nothing; otherwise only the first event with the id moves, keeping its length |
| Events.QuickTargetAt | planner.js:372-380 | a double-click records the column's patient and a slot-aligned start inside the day |
| Events.FormDuration | planner.js:877 | `Math.max(15, Number(text) \|\| fallback)`: a typed non-zero number is taken, raised to 15; 0 and NaN take the fallback, raised to 15 |
| Events.SubmitEventForm | planner.js:870-928 | a blank title is refused; with a quick-create target one staff-less event is appended, starting and ending as recorded; otherwise one template is appended |
| Events.Edited | planner.js:982-987 | the edit keeps id, patient, date and staff; an empty title keeps the old one; the end follows the typed start and the new duration, or is NaN |
| Events.SubmitEditor | planner.js:978-994 | without an event being edited nothing happens; otherwise only that event changes |
| Events.DeleteEvent | planner.js:550-556 | the remaining events are exactly those without the deleted id, in their order; the other lists are unchanged |
| Events.DeleteEventKeepsInvariants | planner.js:550-556 | deleting an event keeps every remaining event in a patient's column and its staff ids pointing at staff members |
| Events.DeleteEventExact | planner.js:550-556 | with unique event ids, Delete removes exactly the event its menu was opened on and keeps the others in order |
| Events.AddStaffToEvent | planner.js:579-592 | a staff drop appends the id when absent and does nothing when present, so an event's staff list never gets a duplicate |
| Events.RemoveStaffChip | planner.js:498-504 | the clicked staff id leaves the event's list, every other id stays, and no other event changes |
| Events.AddThenRemoveStaff | planner.js:583-587 | a staff drop followed by a click on the new chip gives back the original working set |
| Events.AddStaffIdempotent | planner.js:585-586 | a second drop of the same staff member does nothing |
| Registry.AddPatient | planner.js:831-854 | a blank name or a date with 15 patients is refused; otherwise exactly one patient with the trimmed name is appended |
| Registry.AddPatientKeepsCap | planner.js:837-840 | the patient form never takes a date past 15 patients |
| Registry.RenamePatient | planner.js:108-113 | the trimmed text becomes the name even when empty; ids and other patients are unchanged |
| Registry.DeletePatient | planner.js:118-125 | the patient leaves the list, and the remaining events are exactly those outside that patient's column, in their order |
| Registry.DeletePatientNoOrphans | planner.js:118-125 | if every event had a patient column before the delete, every remaining one still has one |
| Registry.AddStaff | planner.js:856-868 | a blank name is refused; otherwise exactly one member with the trimmed name and the chosen color is appended |
| Registry.RenameStaff | planner.js:155-159 | a text that trims to nothing keeps the old name; any other becomes the name; other members are unchanged |
| Registry.PruneStaff | planner.js:177 | the id leaves every event's staff list, every other id stays, and nothing else about the events changes |
| Registry.PruneAbsent | planner.js:177 | pruning an id no event carries changes nothing |
| Registry.RemoveStaffFromEvents | planner.js:175-181 | the member leaves every event of the date, keeps their place in the staff list, and no event is added or removed |
| Registry.DeleteStaff | planner.js:188-197 | the member leaves every event, and the staff list keeps exactly the entries with another id, in their order |
| Registry.DeleteStaffKeepsRefs | planner.js:188-197 | deleting a member keeps every event's staff ids pointing at existing members |
| Registry.DeleteTemplate | planner.js:230-235 | the template list keeps exactly the templates with another id, in their order, and events already made from it stay |
| Registry.DeleteTemplateIdempotent | planner.js:230-235 | deleting a template twice is deleting it once |
| Registry.DeleteTemplateAbsent | planner.js:230-235 | deleting changes the page exactly when some template has that id |
| Gestures.RenderTop | planner.js:420-432 | an event is drawn at the whole pixel at or above its start's exact position in the column; a start that does not parse reads back as top 0 |
| Gestures.RenderHeight | planner.js:420-433 | an element is at least 24 pixels tall, or has no usable height exactly when a time does not parse |
| Gestures.RenderTopOfSlot | planner.js:420-432 | an event starting on slot `i` is drawn at that slot's top |
| Gestures.RenderOfSlots | planner.js:420-433 | an event from slot `i` to slot `i + n` is drawn at that slot's top, `n` slots tall less the 4-pixel gap, never under 24 pixels |
| Gestures.RenderedHasColumn | planner.js:417-418 | an event element exists only when its patient has a column |
| Gestures.StartDrag | planner.js:631-651 | a press starts a drag of the pressed event from its drawn top and its patient's column; nothing else changes |
| Gestures.DragTo | planner.js:659-668 | the dragged element sits on a slot boundary within half a slot of the mouse position, never above the grid, and in the nearest column kept on the grid |
| Gestures.OnDrag | planner.js:653-671 | without a drag or its element nothing happens; otherwise only the element's place changes, staying on the grid |
| Gestures.OnDragLastWins | planner.js:659-667 | offsets are measured from the press, so only the last mouse move of a drag counts |
| Gestures.ClampTopAsWritten | planner.js:690-691 | as written, a top inside the column, its bottom included, is kept, a negative top becomes 0, and only a top past the column's height is pulled back to the last slot, so a top of exactly one column height passes |
| Gestures.ClampTop | planner.js:689-691 | the corrected clamp keeps a top between 0 and the last slot's top, makes a negative top 0 and pulls a top past the last slot back to it |
| Gestures.Moved | planner.js:696-702 | the dropped event starts at the slot and keeps its stored duration, or its old length when none is stored |
| Gestures.CommitDrag | planner.js:693-702 | only the dragged event changes: its start follows the slot and its patient follows the column |
| Gestures.EndDragAsWritten | planner.js:673-710 | as written: no drag means no change; a missing element or event drops the drag unsaved; otherwise the event moves to a slot up to one past the last, and the page saves |
| Gestures.EndDragAsWrittenLeavesDay | planner.js:690-694 | an element released exactly one column height down starts its event at the end of the visible day |
| Gestures.EndDrag | planner.js:673-710 | the corrected release: the event lands on a slot inside the visible day and the page saves |
| Gestures.EndDragKeepsDuration | planner.js:696-698 | a drag keeps the event's id, duration, date and staff, and with a stored duration the new end is that far after the new start |
| Gestures.ExactTop | planner.js:425-432 | the top a handle press reads back, in sub-pixels, is the exact offset of the start from the day's start, and the drawn top is its floor |
| Gestures.ExactHeight | planner.js:426-433 | the height a handle press reads back, in sub-pixels, is empty exactly when a time is unreadable, otherwise at least 24 pixels, and the drawn height is its floor |
| Gestures.ResizeFromSlots | planner.js:713-737 | pressing a handle of an event from slot `i` to slot `i + n` starts the resize from the exact top of that slot and `n` slots less the 4-pixel gap, never under 24 pixels |
| Gestures.ResizeBox | planner.js:747-759 | the top edge snaps and stays off the negative, the bottom edge keeps the top, and the height is a whole number of slots, at least one, nearest the dragged height |
| Gestures.SnapTop | planner.js:752-753 | the top is a non-negative multiple of the slot height within half a slot of the mouse position |
| Gestures.SnapHeight | planner.js:759 | the height is at least one slot, a multiple of the slot height, and nearest the dragged height otherwise |
| Gestures.TopEdgeKeepsBottom | planner.js:747-759 | dragging the top edge of a box on whole slots less a gap of at most half a slot moves only the top: the bottom lands back on its slot boundary, unless the one-slot minimum applies |
| Gestures.TopEdgeSpan | planner.js:747-773 | in minutes, the event a top-edge drag leaves ends where it ended, unless it was cut down to one slot |
| Gestures.TopEdgeKeepsEnd | planner.js:713-773 | pressing the top handle of an event on whole slots and dragging it keeps the event's end, unless the event is cut down to one slot |
| Gestures.ResizeSpan | planner.js:765-773 | the duration is the box's whole number of slots in minutes, the end is that far after the start, a box on the grid starts inside the day, and a top on a whole minute or slot converts back to exactly that minute or slot |
| Gestures.SpanArithmetic | planner.js:769-773 | rounding the box's bottom in minutes is rounding its top plus the exact duration |
| Gestures.Resized | planner.js:771-773 | only the event's start, end and duration change, and they read back as the span's |
| Gestures.ResizeMove | planner.js:739-775 | without a resize or its element nothing happens; otherwise only the first event with the id takes the box's times |
| Gestures.ResizeMoveWholeSlots | planner.js:764-773 | a resize leaves the event a whole positive number of slots long, ending that far after it starts |
| Gestures.ResizedWhole | planner.js:764-773 | a box of whole slots gives an event that long, ending that far after it starts |
| Gestures.ResizeMoveLastWins | planner.js:745-773 | offsets are measured from the press, so only the last mouse move of a resize counts |
| Gestures.ResizeMoveTwice | planner.js:745-773 | on a resize whose element is on the grid, a second move overwrites the first completely |
| Gestures.ResizedTwice | planner.js:771-773 | a later resize step overwrites everything an earlier one set |
| Gestures.BottomEdgeKeepsStart | planner.js:726-773 | dragging the bottom edge of an event keeps its start, whatever minute of the day it starts on |
| Gestures.ResizeLeavesDay | planner.js:739-773 | no resize clamp keeps the event inside the visible day: the bottom edge can end it after the day and the top edge can start it at the day's end |
| Gestures.EndResize | planner.js:777-784 | the release saves exactly when a resize was under way, ends it, and changes no list |
| Session.Commit | planner.js:68-82 | `saveAll(); refresh()` writes the working set, and the reload shows exactly what was written |
| Session.Init | planner.js:85-91 | the page opens on today clamped into the window, with its lists loaded, and writes nothing |
| Session.Navigate | planner.js:789-815 | the requested day is clamped into the window (kept when inside it), its lists are loaded, and nothing is written |
| Session.HandleLists | planner.js:99-235 | each sidebar handler keeps the date, writes only the key matching the list it changed, and keeps patients within the cap |
| Session.HandleEvents | planner.js:332-592 | each grid, form and chip handler, in either build, keeps the date, and an early return changes no list |
| Session.HandleGesture | planner.js:631-784 | in either build, press and move handlers save nothing and change no list (except a resize move); a drag release saves exactly when a drag of an event on the grid was under way, and a resize release saves exactly when a resize was under way |
| Session.Handle | planner.js:99-994 | in either build, every handler keeps the date, writes only what it changed, and never adds a patient past the cap |
| Session.Apply | planner.js:68-82 | the page shows the handler's working set, and storage holds exactly the keys the handler wrote |
| Session.SecondSaveWins | planner.js:119-122 | of two saves at the same date, the second determines storage |
| Session.Step | planner.js:789-815 | commands keep the date, and the date picker and the previous/next buttons navigate to the clamped day |
| Session.StepIsolation | planner.js:68-82 | no action changes the patients or events another date loads |
| Session.StepKeepsSync | planner.js:949-953 | every action but a resize move leaves the working set equal to what storage holds for its date |
| Session.ReleaseResizeResyncs | planner.js:777-781 | releasing a resize writes the moved event to storage, and the page agrees with storage again |
| Session.StepKeepsCap | planner.js:837-840 | no action puts more than 15 patients on any date, in the working set or in storage |
| Session.StepKeepsWindow | planner.js:787-815 | with a non-empty window the page's date never leaves it |
| Session.DeletePatientSavesOnce | planner.js:118-125 | the patient delete's two saves come to one save of the final working set |

## Left out

- The DOM, the rendering of the sidebar, header and grid, modals, `confirm`/`alert` dialogs, and `pdf.js`. Handlers behind a `confirm` are modelled as confirmed; pressing Cancel changes nothing.
- The template double-click editor (planner.js:248-259) is not part of this model.
- The modal close handlers (planner.js:931-944) only hide dialogs. Hiding a dialog is not modelled.
- The edit form's Cancel (planner.js:972-975) hides its dialog and also forgets the event being edited. The event being edited is a parameter of the edit submit (`Events.SubmitEditor`), so a submit after a Cancel is the submit with no event, which changes nothing.
- A quick-create target left behind by a cancelled double-click is not modelled. The source can then create a scheduled event from the "New event" button. The model takes the target as a parameter of the submit.
- Floating point. Element tops and heights are drawn as exact fractions of a pixel. The model keeps the drawn values as floors (`Grid.TopOf`, `Gestures.RenderHeight`). A resize reads back the exact values (`Gestures.ExactTop`, `Gestures.ExactHeight`, in sub-pixels of 1/slotMinutes of a pixel), so its times are computed exactly before `Math.round`.
- Gestures.StartDrag: a drag starts from the floored top, where the source reads back the fractional one. The release snaps to a slot either way. With an odd `slotH` the floor can fall just under a half-slot rounding boundary that the exact top is past. Under the as-written clamp, a top less than a pixel past the column's height is clamped by the source but not by the floor.
- Js.Number: accepts only an empty text or an optionally signed run of digits after trimming. Fractions, exponents, hexadecimal and `Infinity` all read as NaN. The times the planner prints never contain them. Typed durations can: JavaScript reads "22.5" as 22.5 and "1e2" as 100, while the model reads both as NaN.
- Events.FormDuration: a typed fraction or exponent ("22.5", "1e2") takes the fallback here, where the source takes the typed value. Non-integer durations are not modelled.
- Js.DecimalFacts: `String(n)` is modelled without the exponent notation JavaScript uses from 1e21 on, which the planner's minute counts never reach.
- Dates are day numbers and `ymd` is taken as an injective key. Time zones are not modelled. This includes the `toISOString` shift that can key a date under the previous calendar day east of UTC.
- Stored JSON whose shape differs from the records the planner writes is not modelled. A slot holds what was decoded, or is Missing or Unparsable.
- The configuration is assumed valid (`Grid.Config.Valid`): a non-empty day cut into whole slots. The grid metrics are assumed positive. Other configurations are not modelled. There the source behaves differently:
  - a slot length that does not divide the day gives a fractional `totalSlots`, and the cell loop (planner.js:324) then draws a last, partial slot;
  - a slot length of 0 with a non-empty day makes `totalSlots` infinite, and that loop never ends;
  - an empty or inverted day draws no cells.
- `maxPatients` from the configuration is only displayed by the source. The patient form's limit of 15 is written into the handler and is modelled as `Registry.PatientCap`.
- Elements are found by id in document order and events in list order. With duplicate event ids the two can differ; the model uses the first event in the list with that id (`Seqs.IndexOf`).
- Events.SubmitEditor: the event being edited is named by its position. The source holds an object reference, which a reload in between can detach from the list. Its edit is then lost, while the unchanged list is still saved. The model treats that case as no edit and no save.
- Session.HandleEvents: a handler that returns early changes no list, but the contract does not say which list each completed handler changed. Those facts are stated by the Events members each case calls.
- Gestures.ResizeMove: like the source, the model does not keep a resized event inside the visible day (`Gestures.ResizeLeavesDay`). The drag's "keep on same day" clamp has no counterpart in the resize handlers. No corrected resize is modelled, because the source states no intent for it.

## Findings

| source | as written | input that shows it | evidently intended | confidence | as-written member | corrected member |
|---|---|---|---|---|---|---|
| planner.js:360-362 | `sched.start` is overwritten before `end` is computed from `timeToMinutes(sched.end) - timeToMinutes(sched.start)`, so the end is recomputed to its old value | an event 09:00–10:00 dropped on the 11:00 slot becomes 11:00–10:00 | the event moves with its length: 11:00–12:00 | not executed | Events.ReassignDropAsWritten (shown by Events.ReassignAsWrittenEndsBeforeStart) | Events.ReassignDrop |
| planner.js:690-691 | the clamp tests `newTop > totalSlots * slotH`, so a top of exactly one column height passes and rounds to slot `totalSlots` | with 08:00–18:00 in 30-minute slots and `slotH` 28, an element released at top 560 starts at 18:00, below the last slot | the event lands on the last slot, 17:30 ("keep on same day") | not executed | Gestures.EndDragAsWritten (shown by Gestures.EndDragAsWrittenLeavesDay) | Gestures.EndDrag |

`Session` runs either build. With `Env.build == AsWritten` it calls the as-written members above. With `Corrected` it calls the corrected ones. Every whole-step lemma holds for both builds.
