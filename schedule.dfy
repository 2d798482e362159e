/** Segment records, the first-match searches over the segment list, the save
    validation gate, the unsaved-changes label and the reconciliation of a
    finished fetch. */
module Schedule {
  import opened Clock

  datatype Option<T> = None | Some(value: T)

  /** The three battery modes a segment can run in (batt_mode). */
  datatype BattMode = LoadFirst | BatteryFirst | GridFirst

  /** One time-of-use rule as the remote integration reports it. */
  datatype Segment = Segment(
    segmentId: int,
    startTime: string,
    endTime: string,
    battMode: BattMode,
    enabled: bool)

  predicate WellFormedSegment(seg: Segment) {
    WellFormedTime(seg.startTime) && WellFormedTime(seg.endTime)
  }

  predicate AllWellFormed(segs: seq<Segment>) {
    forall i :: 0 <= i < |segs| ==> WellFormedSegment(segs[i])
  }

  /** A placeholder slot: both times are the text "00:00" (_isSpareSlot). */
  predicate IsSpareSlot(seg: Segment): (spare: bool)
    ensures spare ==> WellFormedSegment(seg)
    ensures spare ==> TimeToMinutes(seg.startTime) == 0 && TimeToMinutes(seg.endTime) == 0
  {
    assert WellFormedTime("00:00") && TimeToMinutes("00:00") == 0;
    seg.startTime == "00:00" && seg.endTime == "00:00"
  }

  /** For well-formed segments the textual spare-slot test and the timeline's
      "both ends at minute 0" test pick the same segments. */
  lemma SpareIffZeroMinutes(seg: Segment)
    requires WellFormedSegment(seg)
    ensures IsSpareSlot(seg) <==>
              TimeToMinutes(seg.startTime) == 0 && TimeToMinutes(seg.endTime) == 0
  {
    ZeroMinutesIffMidnight(seg.startTime);
    ZeroMinutesIffMidnight(seg.endTime);
  }

  /** Index of the first element satisfying p, in list order (Array.prototype.find). */
  function Find<T>(xs: seq<T>, p: T -> bool): (r: Option<nat>)
    ensures r.Some? ==> r.value < |xs| && p(xs[r.value])
    ensures r.Some? ==> forall j :: 0 <= j < r.value ==> !p(xs[j])
    ensures r.None? <==> forall j :: 0 <= j < |xs| ==> !p(xs[j])
  {
    if |xs| == 0 then None
    else if p(xs[0]) then Some(0)
    else match Find(xs[1..], p)
      case None => None
      case Some(k) => Some(k + 1)
  }

  function HasId(id: int): Segment -> bool {
    (seg: Segment) => seg.segmentId == id
  }

  /** The first segment carrying this id (`segments.find(s => s.segment_id === id)`). */
  function FirstWithId(segs: seq<Segment>, id: int): (r: Option<nat>)
    ensures r.Some? ==> r.value < |segs| && segs[r.value].segmentId == id
    ensures r.Some? ==> forall j :: 0 <= j < r.value ==> segs[j].segmentId != id
    ensures r.None? <==> forall j :: 0 <= j < |segs| ==> segs[j].segmentId != id
  {
    var r := Find(segs, HasId(id));
    assert forall j :: 0 <= j < |segs| ==> (HasId(id)(segs[j]) <==> segs[j].segmentId == id);
    r
  }

  /** The first spare slot in list order. */
  function FirstSpare(segs: seq<Segment>): (r: Option<nat>)
    ensures r.Some? ==> r.value < |segs| && IsSpareSlot(segs[r.value])
    ensures r.Some? ==> forall j :: 0 <= j < r.value ==> !IsSpareSlot(segs[j])
    ensures r.None? <==> forall j :: 0 <= j < |segs| ==> !IsSpareSlot(segs[j])
  {
    Find(segs, IsSpareSlot)
  }

  /** Finding a segment by the id of the segment just found gives it back. */
  lemma FirstWithOwnId(segs: seq<Segment>, id: int, k: nat)
    requires FirstWithId(segs, id) == Some(k)
    ensures FirstWithId(segs, segs[k].segmentId) == Some(k)
  {
  }

  // ---------------------------------------------------------------- validation

  /** Shortest slot the save accepts, in minutes. */
  const MinSlotMinutes: int := 5

  const ValidationMessage: string := "End time must be at least 5 minutes after start time"

  /** The gate at the start of _saveSegment: end minus start, without any
      wrap-around, must be at least 5 minutes. */
  predicate PassesValidation(ev: Segment): (ok: bool)
    requires WellFormedSegment(ev)
    ensures ok ==> TimeToMinutes(ev.startTime) < TimeToMinutes(ev.endTime)
  {
    !(TimeToMinutes(ev.endTime) - TimeToMinutes(ev.startTime) < MinSlotMinutes)
  }

  /** Equal times and overnight pairs are always rejected; every accepted pair
      lies in one day and spans at least 5 minutes. */
  lemma ValidationRejectsWrapAndEqual(ev: Segment)
    requires WellFormedSegment(ev)
    ensures PassesValidation(ev) <==>
              TimeToMinutes(ev.startTime) + MinSlotMinutes <= TimeToMinutes(ev.endTime)
    ensures ev.startTime == ev.endTime ==> !PassesValidation(ev)
    ensures TimeToMinutes(ev.startTime) > TimeToMinutes(ev.endTime) ==> !PassesValidation(ev)
    ensures PassesValidation(ev) ==> ev.startTime != ev.endTime && !IsSpareSlot(ev)
  {
  }

  /** The working copy a new slot is opened with. */
  function NewSlotDefaults(id: int): (ev: Segment)
    ensures ev.segmentId == id && WellFormedSegment(ev)
  {
    Segment(id, "08:00", "08:05", LoadFirst, true)
  }

  /** The defaults of a new slot pass validation with exactly 5 minutes. */
  lemma NewSlotDefaultsPass(id: int)
    ensures PassesValidation(NewSlotDefaults(id))
    ensures TimeToMinutes("08:05") - TimeToMinutes("08:00") == MinSlotMinutes
  {
  }

  /** 08:00 to 08:03 is three minutes and is refused. */
  lemma ThreeMinuteSlotRejected(id: int, mode: BattMode, enabled: bool)
    ensures !PassesValidation(Segment(id, "08:00", "08:03", mode, enabled))
  {
  }

  // ----------------------------------------------------- unsaved-changes label

  /** The working copy differs, by strict equality on one of the four editable
      fields, from the first segment of the list with the same id; false when
      the list has no such segment. */
  predicate HasUnsavedChanges(segs: seq<Segment>, ev: Segment): (changed: bool)
    ensures changed ==> exists k :: 0 <= k < |segs| && segs[k].segmentId == ev.segmentId && segs[k] != ev
    ensures (forall k :: 0 <= k < |segs| ==> segs[k] != ev) && FirstWithId(segs, ev.segmentId).Some? ==> changed
  {
    match FirstWithId(segs, ev.segmentId)
    case None => false
    case Some(k) =>
      || ev.startTime != segs[k].startTime
      || ev.endTime != segs[k].endTime
      || ev.battMode != segs[k].battMode
      || ev.enabled != segs[k].enabled
  }

  /** Label of the close button of the edit form. */
  function CloseLabel(segs: seq<Segment>, ev: Segment): (caption: string)
    ensures caption == "Discard" || caption == "Close"
    ensures caption == "Discard" <==>
              exists k :: 0 <= k < |segs| && segs[k].segmentId == ev.segmentId
                && (forall j :: 0 <= j < k ==> segs[j].segmentId != ev.segmentId)
                && (ev.startTime, ev.endTime, ev.battMode, ev.enabled)
                   != (segs[k].startTime, segs[k].endTime, segs[k].battMode, segs[k].enabled)
  {
    if HasUnsavedChanges(segs, ev) then "Discard" else "Close"
  }

  /** A fresh copy of the segment it was taken from shows "Close". */
  lemma CopyHasNoChanges(segs: seq<Segment>, id: int, k: nat)
    requires FirstWithId(segs, id) == Some(k)
    ensures CloseLabel(segs, segs[k]) == "Close"
  {
    FirstWithOwnId(segs, id, k);
  }

  /** A new slot opened on the first spare slot shows "Discard": its defaults
      differ from the spare slot's 00:00 times. */
  lemma NewSlotHasChanges(segs: seq<Segment>, k: nat)
    requires FirstSpare(segs) == Some(k)
    requires forall i, j :: 0 <= i < j < |segs| ==> segs[i].segmentId != segs[j].segmentId
    ensures CloseLabel(segs, NewSlotDefaults(segs[k].segmentId)) == "Discard"
  {
    var id := segs[k].segmentId;
    var f := FirstWithId(segs, id);
    assert f.Some? && f.value == k by {
      assert HasId(id)(segs[k]);
    }
    assert segs[k].startTime == "00:00";
    assert NewSlotDefaults(id).startTime == "08:00";
    assert "08:00" != "00:00" by { assert "08:00"[1] != "00:00"[1]; }
  }

  // ------------------------------------------------------------- remote calls

  /** What the read_time_segments call returned: the response's time_segments,
      absent when the response carries none, or a failure with its message. */
  datatype FetchOutcome = Fetched(timeSegments: Option<seq<Segment>>) | FetchFailed(message: string)

  /** What the update_time_segment call returned. */
  datatype UpdateOutcome = Updated | UpdateFailed(message: string)

  /** The arguments of one update_time_segment call. */
  datatype UpdateCall = UpdateCall(
    deviceId: string,
    segmentId: int,
    battMode: BattMode,
    startTime: string,
    endTime: string,
    enabled: bool)

  predicate WellFormedOutcome(outcome: FetchOutcome) {
    outcome.Fetched? && outcome.timeSegments.Some? ==> AllWellFormed(outcome.timeSegments.value)
  }

  /** The segment list after a fetch: the response's list replaces the old one
      wholesale (an absent list reads as empty); a failure keeps the old one. */
  function SegmentsAfterFetch(previous: seq<Segment>, outcome: FetchOutcome): (segs: seq<Segment>)
    ensures outcome.FetchFailed? ==> segs == previous
    ensures outcome.Fetched? && outcome.timeSegments.None? ==> segs == []
    ensures outcome.Fetched? && outcome.timeSegments.Some? ==> segs == outcome.timeSegments.value
  {
    match outcome
    case Fetched(ts) => (match ts case Some(list) => list case None => [])
    case FetchFailed(_) => previous
  }

  /** A failure message, or the fallback when the message is empty (falsy). */
  function MessageOr(message: string, fallback: string): (text: string)
    requires fallback != []
    ensures text != []
    ensures text == message || text == fallback
    ensures message != [] ==> text == message
  {
    if message == [] then fallback else message
  }

  /** The error a failed fetch leaves: its message, or the fallback text. */
  function FetchErrorText(message: string): (text: string)
    ensures text != []
    ensures message != [] ==> text == message
  {
    MessageOr(message, "Failed to load segments")
  }

  /** The save status a failed update leaves: "error: " and the message. */
  function SaveErrorStatus(message: string): (status: string)
    ensures |status| > 7 && status[..7] == "error: "
    ensures message != [] ==> status == "error: " + message
  {
    "error: " + MessageOr(message, "Save failed")
  }
}
