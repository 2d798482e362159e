/** The card component: its fields and the handlers that change them. The two
    remote calls are split at their awaits: a Begin method runs up to the call
    and says whether (and with what) it is made, a Finish method takes the
    call's result as a parameter and runs the rest. */
module Card {
  import opened Clock
  import opened Schedule
  import opened Timeline

  /** The component's state fields at one moment. */
  datatype Fields = Fields(
    segments: seq<Segment>,
    selectedId: Option<int>,
    loading: bool,
    error: Option<string>,
    saveStatus: Option<string>,
    editValues: Option<Segment>,
    validationError: Option<string>,
    refreshStatus: Option<string>)

  /** The fields after the edit form is closed (_closeEditForm): no selection,
      an empty working copy, no save or validation status. */
  function Closed(f: Fields): (g: Fields)
    ensures g.selectedId.None? && g.editValues.None? && g.saveStatus.None? && g.validationError.None?
    ensures g.segments == f.segments && g.loading == f.loading
    ensures g.error == f.error && g.refreshStatus == f.refreshStatus
  {
    f.(selectedId := None, editValues := None, saveStatus := None, validationError := None)
  }

  const SavingStatus: string := "saving"
  const SuccessStatus: string := "success"
  const RefreshedStatus: string := "done"

  class TouScheduleCard {
    /** The configured device_id; empty when the configuration has none. */
    const deviceId: string
    /** Whether the host connection (hass) is present. */
    const connected: bool

    var segments: seq<Segment>
    var selectedId: Option<int>
    var loading: bool
    var error: Option<string>
    var saveStatus: Option<string>
    /** The working copy; None stands for the empty object {}. */
    var editValues: Option<Segment>
    var validationError: Option<string>
    var refreshStatus: Option<string>

    function Current(): Fields
      reads this
    {
      Fields(segments, selectedId, loading, error, saveStatus, editValues, validationError, refreshStatus)
    }

    /** Every time text the card holds is a well-formed "HH:MM". */
    ghost predicate Valid()
      reads this
    {
      AllWellFormed(segments) && (editValues.Some? ==> WellFormedSegment(editValues.value))
    }

    constructor (deviceId: string, connected: bool)
      ensures Valid()
      ensures this.deviceId == deviceId && this.connected == connected
      ensures Current() == Fields([], None, false, None, None, None, None, None)
    {
      this.deviceId := deviceId;
      this.connected := connected;
      segments := [];
      selectedId := None;
      loading := false;
      error := None;
      saveStatus := None;
      editValues := None;
      validationError := None;
      refreshStatus := None;
    }

    /** A selection the component treats as present: a null id and id 0 are falsy. */
    predicate HasSelection()
      reads this
    {
      selectedId.Some? && selectedId.value != 0
    }

    /** Whether _renderEditForm draws the form: a selection and a working copy
        with a (truthy) segment id. While it is drawn its inputs and its save
        button have a working copy to act on (the precondition of SetStartTime,
        SetEndTime, SetBattMode, SetEnabled and BeginSave). */
    predicate EditFormShown(): (shown: bool)
      reads this
      ensures shown ==> selectedId.Some? && editValues.Some?
      ensures shown ==> selectedId.value != 0 && editValues.value.segmentId != 0
    {
      HasSelection() && editValues.Some? && editValues.value.segmentId != 0
    }

    /** Whether the "Add Slot" button is drawn: some segment is a spare slot. */
    predicate AddSlotShown(): (shown: bool)
      reads this
      ensures shown <==> FirstSpare(segments).Some?
    {
      exists i :: 0 <= i < |segments| && IsSpareSlot(segments[i])
    }

    /** Rows the card asks the dashboard for (getCardSize). */
    function CardSize(): (rows: int)
      reads this
      ensures rows == 3 || rows == 5
      ensures rows == 5 <==> HasSelection()
      ensures EditFormShown() ==> rows == 5
    {
      if HasSelection() then 5 else 3
    }

    /** The blocks of the timeline (_renderTimeline), built segment by segment. */
    method RenderTimeline() returns (blocks: seq<Block>)
      requires Valid()
      ensures blocks == Layout(segments)
    {
      blocks := [];
      var i := 0;
      while i < |segments|
        invariant 0 <= i <= |segments|
        invariant blocks == Layout(segments[..i])
      {
        var seg := segments[i];
        var start := TimeToMinutes(seg.startTime);
        var end := TimeToMinutes(seg.endTime);
        if start == 0 && end == 0 {
          // spare slots are not drawn
        } else if start < end {
          blocks := blocks + [Block(seg.segmentId, start, end)];
        } else if start > end {
          blocks := blocks + [Block(seg.segmentId, start, TotalMinutes), Block(seg.segmentId, 0, end)];
        }
        assert segments[..i + 1][..i] == segments[..i];
        i := i + 1;
      }
      assert segments[..i] == segments;
    }

    method CloseEditForm()
      requires Valid()
      modifies this
      ensures Valid()
      ensures Current() == Closed(old(Current()))
      ensures !EditFormShown()
    {
      selectedId := None;
      editValues := None;
      saveStatus := None;
      validationError := None;
    }

    /** A click on the card's background closes the form, but only when a
        (truthy) segment is selected; otherwise nothing changes. */
    method BackgroundClick()
      requires Valid()
      modifies this
      ensures Valid()
      ensures old(HasSelection()) ==> Current() == Closed(old(Current()))
      ensures !old(HasSelection()) ==> Current() == old(Current())
      ensures !EditFormShown()
    {
      if HasSelection() {
        CloseEditForm();
      }
    }

    /** Clicking a block: the selected one closes the form, another one opens it. */
    method SelectSegment(id: int)
      requires Valid()
      modifies this
      ensures Valid()
      ensures old(selectedId) == Some(id) ==> Current() == Closed(old(Current()))
      ensures old(selectedId) != Some(id) ==>
        Current() == old(Current()).(
          selectedId := Some(id),
          saveStatus := None,
          validationError := None,
          editValues :=
            var found := FirstWithId(old(segments), id);
            if found.Some? then Some(old(segments)[found.value]) else old(editValues))
      ensures old(selectedId) != Some(id) && FirstWithId(old(segments), id).Some? ==>
        editValues.Some? && CloseLabel(segments, editValues.value) == "Close"
      ensures old(selectedId) == Some(id) ==> !EditFormShown()
      ensures old(selectedId) != Some(id) && id != 0 && FirstWithId(old(segments), id).Some? ==>
        EditFormShown()
    {
      if selectedId == Some(id) {
        CloseEditForm();
        return;
      }
      selectedId := Some(id);
      saveStatus := None;
      validationError := None;
      var found := FirstWithId(segments, id);
      if found.Some? {
        editValues := Some(segments[found.value]);
        CopyHasNoChanges(segments, id, found.value);
      }
    }

    /** Opens a new rule on the first spare slot, with the defaults; nothing
        changes when there is no spare slot. */
    method AddSegment()
      requires Valid()
      modifies this
      ensures Valid()
      ensures !old(AddSlotShown()) ==> Current() == old(Current())
      ensures old(AddSlotShown()) ==>
        var k := FirstSpare(old(segments)).value;
        && k < |old(segments)| && IsSpareSlot(old(segments)[k])
        && (forall j :: 0 <= j < k ==> !IsSpareSlot(old(segments)[j]))
        && Current() == old(Current()).(
             selectedId := Some(old(segments)[k].segmentId),
             saveStatus := None,
             validationError := None,
             editValues := Some(NewSlotDefaults(old(segments)[k].segmentId)))
      ensures old(AddSlotShown()) ==> PassesValidation(editValues.value)
      ensures old(AddSlotShown()) && old(segments)[FirstSpare(old(segments)).value].segmentId != 0 ==>
        EditFormShown()
    {
      var found := FirstSpare(segments);
      if found.None? {
        return;
      }
      var spare := segments[found.value];
      selectedId := Some(spare.segmentId);
      saveStatus := None;
      validationError := None;
      editValues := Some(NewSlotDefaults(spare.segmentId));
      NewSlotDefaultsPass(spare.segmentId);
    }

    /** The start-time input of the form; an edit clears the validation error. */
    method SetStartTime(value: string)
      requires Valid() && editValues.Some? && WellFormedTime(value)
      modifies this
      ensures Valid()
      ensures Current() == old(Current()).(
        editValues := Some(old(editValues).value.(startTime := value)),
        validationError := None)
    {
      editValues := Some(editValues.value.(startTime := value));
      validationError := None;
    }

    /** The end-time input of the form; an edit clears the validation error. */
    method SetEndTime(value: string)
      requires Valid() && editValues.Some? && WellFormedTime(value)
      modifies this
      ensures Valid()
      ensures Current() == old(Current()).(
        editValues := Some(old(editValues).value.(endTime := value)),
        validationError := None)
    {
      editValues := Some(editValues.value.(endTime := value));
      validationError := None;
    }

    /** The mode selector of the form; the validation error stays. */
    method SetBattMode(mode: BattMode)
      requires Valid() && editValues.Some?
      modifies this
      ensures Valid()
      ensures Current() == old(Current()).(editValues := Some(old(editValues).value.(battMode := mode)))
    {
      editValues := Some(editValues.value.(battMode := mode));
    }

    /** The enabled switch of the form; the validation error stays. */
    method SetEnabled(enabled: bool)
      requires Valid() && editValues.Some?
      modifies this
      ensures Valid()
      ensures Current() == old(Current()).(editValues := Some(old(editValues).value.(enabled := enabled)))
    {
      editValues := Some(editValues.value.(enabled := enabled));
    }

    /** Whether _loadSegments gets past its guard: a device id and a connection. */
    predicate CanLoad() {
      deviceId != [] && connected
    }

    /** _loadSegments up to its remote call: returns whether the call is made. */
    method BeginLoad() returns (issued: bool)
      requires Valid()
      modifies this
      ensures Valid()
      ensures issued == CanLoad()
      ensures issued ==> Current() == old(Current()).(loading := true, error := None)
      ensures !issued ==> Current() == old(Current())
    {
      if !CanLoad() {
        return false;
      }
      loading := true;
      error := None;
      return true;
    }

    /** _loadSegments after its remote call returned outcome. A failure keeps
        the list and records the message; a success replaces the list
        wholesale and, for a user refresh, also closes the form and raises the
        "done" status. */
    method FinishLoad(showRefreshStatus: bool, outcome: FetchOutcome)
      requires Valid() && CanLoad() && WellFormedOutcome(outcome)
      modifies this
      ensures Valid()
      ensures outcome.FetchFailed? ==>
        Current() == old(Current()).(loading := false, error := Some(FetchErrorText(outcome.message)))
      ensures outcome.Fetched? && !showRefreshStatus ==>
        Current() == old(Current()).(loading := false, segments := SegmentsAfterFetch(old(segments), outcome))
      ensures outcome.Fetched? && showRefreshStatus ==>
        Current() == Closed(old(Current())).(
          loading := false,
          segments := SegmentsAfterFetch(old(segments), outcome),
          refreshStatus := Some(RefreshedStatus))
      ensures outcome.Fetched? && showRefreshStatus ==> !EditFormShown()
    {
      match outcome {
        case Fetched(_) =>
          segments := SegmentsAfterFetch(segments, outcome);
          if showRefreshStatus {
            selectedId := None;
            editValues := None;
            saveStatus := None;
            validationError := None;
            refreshStatus := Some(RefreshedStatus);
          }
        case FetchFailed(message) =>
          error := Some(FetchErrorText(message));
      }
      loading := false;
    }

    /** _saveSegment up to its remote call: the validation gate. Returns the
        update call it makes, or None when it makes none. */
    method BeginSave() returns (call: Option<UpdateCall>)
      requires Valid() && editValues.Some?
      modifies this
      ensures Valid()
      ensures !connected ==> call == None && Current() == old(Current())
      ensures connected && !PassesValidation(old(editValues).value) ==>
        call == None && Current() == old(Current()).(validationError := Some(ValidationMessage))
      ensures connected && PassesValidation(old(editValues).value) ==>
        var ev := old(editValues).value;
        && call == Some(UpdateCall(deviceId, ev.segmentId, ev.battMode, ev.startTime, ev.endTime, ev.enabled))
        && Current() == old(Current()).(validationError := None, saveStatus := Some(SavingStatus))
      ensures call.Some? ==>
        && WellFormedTime(call.value.startTime) && WellFormedTime(call.value.endTime)
        && TimeToMinutes(call.value.startTime) + MinSlotMinutes <= TimeToMinutes(call.value.endTime)
    {
      if !connected {
        return None;
      }
      var ev := editValues.value;
      var startMin := TimeToMinutes(ev.startTime);
      var endMin := TimeToMinutes(ev.endTime);
      if endMin - startMin < MinSlotMinutes {
        validationError := Some(ValidationMessage);
        return None;
      }
      validationError := None;
      saveStatus := Some(SavingStatus);
      call := Some(UpdateCall(deviceId, ev.segmentId, ev.battMode, ev.startTime, ev.endTime, ev.enabled));
    }

    /** _saveSegment after the update call returned update; on success it
        refetches (refetch is that call's result) and re-syncs the working copy
        with the refreshed segment of the still-selected id. */
    method FinishSave(update: UpdateOutcome, refetch: FetchOutcome)
      requires Valid() && connected && WellFormedOutcome(refetch)
      modifies this
      ensures Valid()
      ensures update.UpdateFailed? ==>
        Current() == old(Current()).(saveStatus := Some(SaveErrorStatus(update.message)))
      ensures update.Updated? ==>
        && saveStatus == Some(SuccessStatus)
        && selectedId == old(selectedId)
        && validationError == old(validationError)
        && refreshStatus == old(refreshStatus)
      ensures update.Updated? && !CanLoad() ==>
        segments == old(segments) && loading == old(loading) && error == old(error)
      ensures update.Updated? && CanLoad() ==>
        && segments == SegmentsAfterFetch(old(segments), refetch)
        && !loading
        && error == (if refetch.FetchFailed? then Some(FetchErrorText(refetch.message)) else None)
      ensures update.Updated? ==>
        var found := if selectedId.Some? then FirstWithId(segments, selectedId.value) else None;
        && (found.Some? ==> editValues == Some(segments[found.value]))
        && (found.Some? ==> CloseLabel(segments, editValues.value) == "Close")
        && (found.None? ==> editValues == old(editValues))
    {
      match update {
        case UpdateFailed(message) =>
          saveStatus := Some(SaveErrorStatus(message));
        case Updated =>
          saveStatus := Some(SuccessStatus);
          var issued := BeginLoad();
          if issued {
            FinishLoad(false, refetch);
          }
          var found := if selectedId.Some? then FirstWithId(segments, selectedId.value) else None;
          if found.Some? {
            editValues := Some(segments[found.value]);
            CopyHasNoChanges(segments, selectedId.value, found.value);
          }
      }
    }
  }
}
