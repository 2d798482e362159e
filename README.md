# Growatt TOU schedule card, modelled in Dafny

The Growatt time-of-use schedule card is a dashboard widget. It shows the inverter's
time-of-use segments on a 24-hour timeline and lets the user edit one segment at a
time. It talks to the host through two remote calls: `read_time_segments` and
`update_time_segment`. This project models the widget's logic, which lives in the
single file `dist/growatt-tou-schedule-card.js`:

- **Clock** (`clock.dfy`): reading an `"HH:MM"` text as minutes since midnight
  (`timeToMinutes`). It is proved against a reference formatter, in both round-trip
  directions.
- **Schedule** (`schedule.dfy`): the segment record, the spare-slot test, the
  first-match search (`Array.prototype.find`), the five-minute save gate, and the
  unsaved-changes check that chooses the "Discard" or "Close" label. It also holds the
  pure parts of reconciling a finished fetch or save: the new list and the error and
  status texts.
- **Timeline** (`timeline.dfy`): the blocks `_renderTimeline` draws. They are integer
  minute intervals `[start, end)` of the 1440-minute day, tagged with the segment id.
  They are proved against a reference predicate `Occupies` saying which minutes a
  segment schedules on the 24-hour ring.
- **Card** (`card.dfy`): the component as a class with the source's state fields. Each
  handler is a method whose postcondition gives the whole new state in terms of the
  old one. Each asynchronous operation is split at the `await` of its remote call. A
  Begin method runs up to the remote call and returns whether a call is made, and
  with which arguments. A Finish method takes the call's result as a parameter.
  `_saveSegment` awaits twice: first the update call, then `_loadSegments`. The
  model splits it only at the first. `FinishSave` takes the refetch's result as a
  second parameter and runs `BeginLoad` and `FinishLoad` inside itself.

The host's configuration (`device_id`) and the presence of the host connection
(`hass`) are constructor parameters. They never change afterwards. The two remote
calls are not executed. Their results are the parameters `FetchOutcome` (a segment
list or a failure message) and `UpdateOutcome` (success or a failure message).

Notes on how the model reads the code:

- `_editValues` is either the empty object `{}` or a full copy of a segment. The model
  uses `None` and `Some(segment)`.
- The guard `!this._editValues` in `_saveSegment` never fires, because `{}` is truthy.
  The save button and the field inputs exist only while the edit form is drawn, and
  the form is drawn only when the working copy has a segment id. So these methods
  require `editValues.Some?`.
- The code treats a missing selection and a segment id of 0 alike (JavaScript
  truthiness). `getCardSize` and the edit-form guard are modelled that way.
- An empty failure message falls back to the default text, as `e.message || ...`
  does.
- An overnight segment that ends at `00:00` gets a second block `[0, 0)` of zero
  width, exactly as the code pushes it. That is why blocks are only known to satisfy
  `start <= end`.

## Model

| member | source | states |
|---|---|---|
| `Clock.TimeToMinutes` | dist/growatt-tou-schedule-card.js:21-24 | a well-formed clock text reads as a minute of the day, in [0, 1439] |
| `Clock.MinutesOfClockText` | dist/growatt-tou-schedule-card.js:21-24 | hour h and minute m read back as 60*h + m |
| `Clock.FormatThenParse` | dist/growatt-tou-schedule-card.js:21-24 | reading the formatted text of a minute gives that minute back |
| `Clock.ParseThenFormat` | dist/growatt-tou-schedule-card.js:21-24 | every well-formed text is the formatting of its minute count, so the conversion loses nothing |
| `Clock.SameMinutesIffSameText` | dist/growatt-tou-schedule-card.js:21-24 | on well-formed texts, equal minute counts and equal strings coincide |
| `Clock.ZeroMinutesIffMidnight` | dist/growatt-tou-schedule-card.js:21-24 | "00:00" is the only well-formed text worth 0 minutes |
| `Schedule.IsSpareSlot` | dist/growatt-tou-schedule-card.js:153-155 | a slot is spare when both times are the text "00:00"; a spare slot is well-formed and both its ends are minute 0 |
| `Schedule.SpareIffZeroMinutes` | dist/growatt-tou-schedule-card.js:153-155 | the textual spare-slot test holds exactly when both times convert to minute 0, the timeline's skip test |
| `Schedule.Find` | dist/growatt-tou-schedule-card.js:147 | returns the index of the first element satisfying the predicate, in list order, and None exactly when no element does |
| `Schedule.FirstWithId` | dist/growatt-tou-schedule-card.js:147 | the index of the first segment with the id, in list order, and None exactly when no segment has it (the same search is used at lines 198-200 and 285) |
| `Schedule.FirstSpare` | dist/growatt-tou-schedule-card.js:158 | the index of the first spare slot in list order, and None exactly when there is no spare slot |
| `Schedule.PassesValidation` | dist/growatt-tou-schedule-card.js:174-179 | the save check passes when end minus start, without wrap-around, is not below 5; a passing pair has start strictly before end |
| `Schedule.ValidationRejectsWrapAndEqual` | dist/growatt-tou-schedule-card.js:174-179 | the save gate passes exactly when end is at least 5 minutes after start, with no wrap-around, so equal times, overnight pairs and spare slots are refused |
| `Schedule.ThreeMinuteSlotRejected` | dist/growatt-tou-schedule-card.js:176-179 | 08:00 to 08:03 fails the gate |
| `Schedule.NewSlotDefaults` | dist/growatt-tou-schedule-card.js:163-169 | the working copy of a new slot carries the spare slot's id and well-formed times |
| `Schedule.NewSlotDefaultsPass` | dist/growatt-tou-schedule-card.js:163-169 | the defaults 08:00 to 08:05 pass the gate, with exactly 5 minutes |
| `Schedule.HasUnsavedChanges` | dist/growatt-tou-schedule-card.js:285-293 | true when the first segment with the working copy's id differs from it in start, end, mode or enabled by strict equality; false when there is no such segment; a change implies some segment with that id differs from the copy, and a copy equal to no segment of an existing id always counts as changed |
| `Schedule.CloseLabel` | dist/growatt-tou-schedule-card.js:285-294 | "Discard" exactly when the first segment with the working copy's id differs in start, end, mode or enabled, otherwise "Close" |
| `Schedule.CopyHasNoChanges` | dist/growatt-tou-schedule-card.js:285-294 | a working copy freshly taken from the list shows "Close" |
| `Schedule.NewSlotHasChanges` | dist/growatt-tou-schedule-card.js:285-294 | with distinct ids, a new slot opened on the first spare slot shows "Discard" |
| `Schedule.SegmentsAfterFetch` | dist/growatt-tou-schedule-card.js:115 | a fetched list replaces the old one wholesale, an absent list reads as empty, and a failure keeps the old list |
| `Schedule.FetchErrorText` | dist/growatt-tou-schedule-card.js:127 | a failed fetch leaves a non-empty error, which is its message when the message is non-empty |
| `Schedule.SaveErrorStatus` | dist/growatt-tou-schedule-card.js:206 | a failed save's status starts with "error: " and carries the message when there is one |
| `Timeline.SegmentBlocks` | dist/growatt-tou-schedule-card.js:212-263 | start < end gives one block, start > end gives two blocks ([start, 1440) then [0, end)), equal times give none; blocks carry the segment's id, lie in the day and do not overlap |
| `Timeline.SegmentBlocksCover` | dist/growatt-tou-schedule-card.js:223-262 | a minute is covered by one of a segment's blocks exactly when the segment occupies it on the 24-hour ring |
| `Timeline.SegmentCoveredBy` | dist/growatt-tou-schedule-card.js:219-262 | a segment's blocks cover a minute under a given id exactly when the segment has that id and occupies the minute |
| `Timeline.SpareSlotHasNoBlocks` | dist/growatt-tou-schedule-card.js:216-217 | a spare slot contributes no block |
| `Timeline.ValidatedSegmentIsOneBlock` | dist/growatt-tou-schedule-card.js:176 | a segment that passes the save gate is drawn as a single block of at least 5 minutes |
| `Timeline.Layout` | dist/growatt-tou-schedule-card.js:210-264 | the timeline's blocks, segment by segment in list order, each within the day, at most two per segment |
| `Timeline.LayoutAppend` | dist/growatt-tou-schedule-card.js:212 | laying out two lists one after the other gives their blocks one after the other |
| `Timeline.SpareSlotsInvisible` | dist/growatt-tou-schedule-card.js:216-217 | removing a spare slot from anywhere in the list leaves the timeline unchanged |
| `Timeline.LayoutCover` | dist/growatt-tou-schedule-card.js:210-264 | a minute is covered by a block tagged id exactly when some segment with that id occupies it |
| `Timeline.OvernightExample` | dist/growatt-tou-schedule-card.js:238-262 | 22:00 to 02:00 is drawn as the blocks 1320 to 1440 and 0 to 120 |
| `Card.Closed` | dist/growatt-tou-schedule-card.js:132-137 | closing clears selection, working copy, save status and validation error, and keeps the list, loading flag, error and refresh status |
| `Card.TouScheduleCard.constructor` | dist/growatt-tou-schedule-card.js:70-80 | empty list, no selection, empty working copy, no statuses, not loading |
| `Card.TouScheduleCard.CardSize` | dist/growatt-tou-schedule-card.js:86-88 | 5 rows exactly when a (truthy) segment is selected, otherwise 3; 5 whenever the edit form is drawn |
| `Card.TouScheduleCard.EditFormShown` | dist/growatt-tou-schedule-card.js:281-283 | the edit form is drawn only with a truthy selected id and a working copy whose segment id is truthy, so while it is drawn the inputs and the save button have the working copy that `SetStartTime`, `SetEndTime`, `SetBattMode`, `SetEnabled` and `BeginSave` require; `SelectSegment` and `AddSegment` open it (for a non-zero id with a segment in the list), and `CloseEditForm`, `BackgroundClick`, a toggling `SelectSegment` and a user refresh in `FinishLoad` close it |
| `Card.TouScheduleCard.AddSlotShown` | dist/growatt-tou-schedule-card.js:403 | the "Add Slot" button is drawn exactly when the search for a spare slot finds one, so exactly when AddSegment finds a spare slot (otherwise AddSegment is a no-op) |
| `Card.TouScheduleCard.RenderTimeline` | dist/growatt-tou-schedule-card.js:210-264 | the loop builds exactly the blocks of Layout over the current list |
| `Card.TouScheduleCard.CloseEditForm` | dist/growatt-tou-schedule-card.js:132-137 | selection, working copy, save status and validation error are cleared; nothing else changes; the edit form is no longer drawn |
| `Card.TouScheduleCard.BackgroundClick` | dist/growatt-tou-schedule-card.js:398 | a background click closes the form exactly when a truthy segment id is selected, and otherwise changes nothing (a stale save status stays); either way the edit form is not drawn afterwards |
| `Card.TouScheduleCard.SelectSegment` | dist/growatt-tou-schedule-card.js:139-151 | selecting the selected id is exactly a close; another id becomes the selection, statuses clear, and the working copy becomes the first segment with that id (or stays when there is none), which then shows "Close"; the list never changes; the toggle hides the edit form, and a new non-zero id with a segment in the list shows it |
| `Card.TouScheduleCard.AddSegment` | dist/growatt-tou-schedule-card.js:157-170 | with no spare slot nothing changes; otherwise the first spare slot is selected with the defaults {id, load_first, enabled, 08:00, 08:05}, statuses clear, and the copy passes the save gate; when the spare slot's id is non-zero the edit form is drawn |
| `Card.TouScheduleCard.SetStartTime` | dist/growatt-tou-schedule-card.js:306-309 | only the working copy's start time changes, and the validation error clears |
| `Card.TouScheduleCard.SetEndTime` | dist/growatt-tou-schedule-card.js:317-320 | only the working copy's end time changes, and the validation error clears |
| `Card.TouScheduleCard.SetBattMode` | dist/growatt-tou-schedule-card.js:330-332 | only the working copy's mode changes |
| `Card.TouScheduleCard.SetEnabled` | dist/growatt-tou-schedule-card.js:343-345 | only the working copy's enabled flag changes |
| `Card.TouScheduleCard.BeginLoad` | dist/growatt-tou-schedule-card.js:102-105 | without a device id or a connection, nothing changes and no call is made; otherwise loading starts and the error clears |
| `Card.TouScheduleCard.FinishLoad` | dist/growatt-tou-schedule-card.js:115-129 | a failure keeps the list and records the error; a success replaces the list and, for a user refresh, also closes the form (it is no longer drawn) and sets the "done" status; loading ends |
| `Card.TouScheduleCard.BeginSave` | dist/growatt-tou-schedule-card.js:172-194 | without a connection nothing happens; a copy failing the gate sets the validation message, keeps the save status and makes no call; otherwise the status becomes "saving" and the call carries the device id and the copy's five fields, with end at least 5 minutes after start |
| `Card.TouScheduleCard.FinishSave` | dist/growatt-tou-schedule-card.js:195-207 | a failure sets "error: " and the message and keeps the user's edits; a success sets "success", refetches, and re-syncs the working copy from the refreshed segment with the still-selected id, which then shows "Close" |

## Left out

- HTML templates, CSS, the legend, and the colour and label tables are left out. They are presentation only. Block colour, opacity, hatching and the selection outline are therefore not part of `Block`.
- `minutesToPct` and the percentage positions are left out. Blocks are integer minutes instead of floating-point percentages.
- `hass.callService` is not executed. Its result is a parameter of `FinishLoad` and `FinishSave`, and `BeginSave` returns the update call's arguments instead of sending them.
- The two `setTimeout` timers are left out. They clear `refreshStatus` after 1.5 s and `saveStatus` after 2 s, and only reset display flags.
- The `hass` setter that triggers the first fetch, `setConfig` and its title default, `getConfigForm`, `getStubConfig`, `customElements.define`, the `window.customCards` registration and `console.info` are host plumbing. They are not modelled. The device id and the connection are fixed at construction.
- Overlapping fetch and save calls are left out. The code does not guard against them. Each Finish method models the continuation of its own call only.
- `Clock.TimeToMinutes`: defined only on well-formed `"HH:MM"` texts (two-digit hour below 24 and minute below 60). The code splits at every `:` and applies `Number` to each part, so it also reads texts outside that set. It reads `"8:00"` as 480, `"24:00"` as 1440, `"10:75"` as 675 and `"00:00:00"` as 0 (the third part is ignored). An empty text reads as `NaN`, because the missing minute part is `undefined`. Segments from a fetch (`FinishLoad`, `FinishSave`) and values from the time inputs (`SetStartTime`, `SetEndTime`) are required to be well-formed, so the model does not capture the consequences listed below.
- `Clock.TimeToMinutes`: the bound `[0, 1439]` holds only on well-formed texts. `"24:00"` reads as 1440, and as a start time it yields a zero-width block `[1440, 1440)` followed by `[0, end)`.
- `Clock.SameMinutesIffSameText`: holds only on well-formed texts. `"8:00"` and `"08:00"` are the same minute but different strings. `HasUnsavedChanges` and `CloseLabel` compare strings, so such an edit shows "Discard", and the update call sends the text as typed.
- `Schedule.SpareIffZeroMinutes`: holds only on well-formed texts. A segment with times `"00:00:00"` is skipped on the timeline by the minute test. The string test does not call it spare, so it neither shows the "Add Slot" button nor is picked by `_addSegment`.
- `Card.TouScheduleCard.SetStartTime`, `Card.TouScheduleCard.SetEndTime`: a cleared time input delivers `""`, which is not modelled because the value is required to be well-formed. In the code the working copy then holds `""`.
- `Card.TouScheduleCard.BeginSave`: when a time is `""` (or otherwise reads as `NaN`), `endMin - startMin < 5` compares `NaN` and is false. The save gate therefore passes, and the update call goes out with the empty time. The model's guarantee that every call carries well-formed times at least 5 minutes apart rests on the well-formedness requirement and does not cover this path.
- Battery modes other than the three known ones are not modelled. They only affect colour and label.
- The intermediate states (`loading` true, `saveStatus` "saving") are visible only between a Begin and a Finish call. The model does not interleave other handlers there.
