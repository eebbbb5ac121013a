/** Validation rules of a practitioner's schedule
    (care/emr/resources/scheduling/schedule/spec.py): weekly availability
    windows, the slot-type dependent fields of an availability, the
    validity period of a schedule and the rule that moving the validity
    period may not drop already allocated tokens. */
module ScheduleSpec {
  import opened Wrappers

  /** Times of day are minutes since midnight (seconds are not modelled). */
  const MinutesPerDay := 1440
  type TimeOfDay = m: int | 0 <= m < MinutesPerDay

  /** `SlotTypeOptions`. */
  datatype SlotType = Open | Appointment | Closed

  /** `AvailabilityDateTimeSpec`: one weekly window. */
  datatype Window = Window(dayOfWeek: int, startTime: TimeOfDay, endTime: TimeOfDay)

  /** Two windows clash when they are on the same weekday and their closed
      time ranges intersect (touching at an endpoint counts). */
  predicate Overlapping(a: Window, b: Window) {
    a.dayOfWeek == b.dayOfWeek && a.startTime <= b.endTime && b.startTime <= a.endTime
  }

  /** No two distinct entries of the list clash. */
  predicate PairwiseDisjoint(ws: seq<Window>) {
    forall i, j :: 0 <= i < j < |ws| ==> !Overlapping(ws[i], ws[j])
  }

  const OverlapError := "Availability time ranges are overlapping"

  /** `validate_availability`: the pairwise check with nested index loops. */
  method ValidateAvailability(availabilities: seq<Window>) returns (r: Outcome<string>)
    ensures r.Pass? <==> PairwiseDisjoint(availabilities)
    ensures r.Fail? ==> r.error == OverlapError
  {
    var n := |availabilities|;
    for i := 0 to n
      invariant forall a, b :: 0 <= a < i && a < b < n ==> !Overlapping(availabilities[a], availabilities[b])
    {
      for j := i + 1 to n
        invariant forall b :: i < b < j ==> !Overlapping(availabilities[i], availabilities[b])
      {
        if availabilities[i].dayOfWeek != availabilities[j].dayOfWeek {
          continue;
        }
        if availabilities[i].startTime <= availabilities[j].endTime
          && availabilities[j].startTime <= availabilities[i].endTime
        {
          return Fail(OverlapError);
        }
      }
    }
    return Pass;
  }

  /** The clash relation does not depend on which entry comes first, so the
      verdict only depends on the unordered pairs. */
  lemma OverlappingSymmetric(a: Window, b: Window)
    ensures Overlapping(a, b) <==> Overlapping(b, a)
  {
  }

  /** A list passes iff every same-day pair is strictly separated: one
      window ends before the other begins. */
  lemma {:induction false} DisjointMeansSeparated(ws: seq<Window>, i: nat, j: nat)
    requires PairwiseDisjoint(ws)
    requires i < |ws| && j < |ws| && i != j
    requires ws[i].dayOfWeek == ws[j].dayOfWeek
    ensures ws[i].endTime < ws[j].startTime || ws[j].endTime < ws[i].startTime
  {
    if i < j {
      assert !Overlapping(ws[i], ws[j]);
    } else {
      assert !Overlapping(ws[j], ws[i]);
    }
  }

  /** `slot_size_in_minutes: int | None = Field(ge=1)` and likewise
      `tokens_per_slot`: a given value below 1 is refused before the model
      validator runs. */
  function FieldBoundsError(slotSize: Option<int>, tokens: Option<int>): (r: Option<string>)
    ensures r.None? <==> (slotSize.Some? ==> slotSize.value >= 1) && (tokens.Some? ==> tokens.value >= 1)
  {
    if slotSize.Some? && slotSize.value < 1 then Some("slot_size_in_minutes must be >= 1")
    else if tokens.Some? && tokens.value < 1 then Some("tokens_per_slot must be >= 1")
    else None
  }

  /** Python truthiness of an optional integer: None and 0 are falsy. */
  predicate Truthy(x: Option<int>) {
    x.Some? && x.value != 0
  }

  const SlotSizeRequired := "Slot size in minutes is required for appointment slots"
  const TokensRequired := "Tokens per slot is required for appointment slots"

  /** `AvailabilityForScheduleSpec`: the fields the model validator reads and
      overwrites in place. */
  class AvailabilityForSchedule {
    var slotType: SlotType
    var slotSizeInMinutes: Option<int>
    var tokensPerSlot: Option<int>

    constructor (slotType: SlotType, slotSizeInMinutes: Option<int>, tokensPerSlot: Option<int>)
      ensures this.slotType == slotType
      ensures this.slotSizeInMinutes == slotSizeInMinutes && this.tokensPerSlot == tokensPerSlot
    {
      this.slotType := slotType;
      this.slotSizeInMinutes := slotSizeInMinutes;
      this.tokensPerSlot := tokensPerSlot;
    }

    /** `validate_for_slot_type`: an appointment availability needs a truthy
        slot size and token count (checked in that order); any other slot
        type has both fields cleared. */
    method ValidateForSlotType() returns (r: Outcome<string>)
      modifies this
      ensures slotType == old(slotType)
      ensures old(slotType) == Appointment ==>
        slotSizeInMinutes == old(slotSizeInMinutes) && tokensPerSlot == old(tokensPerSlot) &&
        r == (if !Truthy(slotSizeInMinutes) then Fail(SlotSizeRequired)
              else if !Truthy(tokensPerSlot) then Fail(TokensRequired)
              else Pass)
      ensures old(slotType) != Appointment ==>
        r == Pass && slotSizeInMinutes == None && tokensPerSlot == None
    {
      if slotType == Appointment {
        if !Truthy(slotSizeInMinutes) {
          return Fail(SlotSizeRequired);
        }
        if !Truthy(tokensPerSlot) {
          return Fail(TokensRequired);
        }
      } else {
        slotSizeInMinutes := None;
        tokensPerSlot := None;
      }
      return Pass;
    }
  }

  /** The whole of what validation does to these two fields: the field
      bounds first, then the slot-type rule; on success the stored values. */
  function ValidateSlotFields(slotType: SlotType, slotSize: Option<int>, tokens: Option<int>)
    : (r: Result<(Option<int>, Option<int>), string>)
  {
    if FieldBoundsError(slotSize, tokens).Some? then Failure(FieldBoundsError(slotSize, tokens).value)
    else if slotType == Appointment then
      if !Truthy(slotSize) then Failure(SlotSizeRequired)
      else if !Truthy(tokens) then Failure(TokensRequired)
      else Success((slotSize, tokens))
    else Success((None, None))
  }

  /** An accepted appointment availability has a slot size and a token
      count, both at least 1; any other accepted availability has neither. */
  lemma ValidatedSlotFields(slotType: SlotType, slotSize: Option<int>, tokens: Option<int>)
    ensures var r := ValidateSlotFields(slotType, slotSize, tokens);
      r.Success? ==>
        if slotType == Appointment then
          r.value.0.Some? && r.value.0.value >= 1 && r.value.1.Some? && r.value.1.value >= 1
        else r.value == (None, None)
    ensures slotType == Appointment && (slotSize.None? || tokens.None?) ==>
      ValidateSlotFields(slotType, slotSize, tokens).Failure?
    ensures slotType != Appointment && FieldBoundsError(slotSize, tokens).None? ==>
      ValidateSlotFields(slotType, slotSize, tokens) == Success((None, None))
  {
  }

  const PeriodError := "Valid from cannot be greater than valid to"

  /** `ScheduleWriteSpec.validate_period`; timestamps are minutes since an
      epoch. Equal bounds are accepted. */
  function ValidatePeriod(validFrom: int, validTo: int): (r: Outcome<string>)
    ensures r.Fail? <==> validFrom > validTo
    ensures r.Fail? ==> r.error == PeriodError
  {
    if validFrom > validTo then Fail(PeriodError) else Pass
  }

  /** A token slot as the allocated-sum query sees it. */
  datatype TokenSlotRow = TokenSlotRow(resource: int, scheduleId: int, startDatetime: int, allocatedCount: int)

  /** The rows the query filters on: this resource, this schedule, a start
      within the inclusive range. */
  predicate InRange(s: TokenSlotRow, resource: int, scheduleId: int, lo: int, hi: int) {
    s.resource == resource && s.scheduleId == scheduleId && lo <= s.startDatetime <= hi
  }

  /** `Sum("allocated")` over the filtered rows, `or 0` for none. */
  function AllocatedSum(slots: seq<TokenSlotRow>, resource: int, scheduleId: int, lo: int, hi: int): int
  {
    if slots == [] then 0
    else
      var last := slots[|slots| - 1];
      AllocatedSum(slots[..|slots| - 1], resource, scheduleId, lo, hi)
        + (if InRange(last, resource, scheduleId, lo, hi) then last.allocatedCount else 0)
  }

  /** The error reports both sums. */
  datatype ValidityError = AllocatedSlotsExcluded(oldSum: int, newSum: int)

  /** `ScheduleUpdateSpec.perform_extra_deserialization`: the update is
      refused when the allocated sum over the new range differs from the sum
      over the old range. */
  function ValidateValidityUpdate(slots: seq<TokenSlotRow>, resource: int, scheduleId: int,
                                  oldFrom: int, oldTo: int, newFrom: int, newTo: int)
    : (r: Outcome<ValidityError>)
    ensures r.Fail? <==> AllocatedSum(slots, resource, scheduleId, oldFrom, oldTo) !=
                          AllocatedSum(slots, resource, scheduleId, newFrom, newTo)
    ensures r.Fail? ==> r.error == AllocatedSlotsExcluded(AllocatedSum(slots, resource, scheduleId, oldFrom, oldTo),
                                                          AllocatedSum(slots, resource, scheduleId, newFrom, newTo))
  {
    var oldSum := AllocatedSum(slots, resource, scheduleId, oldFrom, oldTo);
    var newSum := AllocatedSum(slots, resource, scheduleId, newFrom, newTo);
    if oldSum != newSum then Fail(AllocatedSlotsExcluded(oldSum, newSum)) else Pass
  }

  /** Keeping the validity range is always accepted. */
  lemma UnchangedRangeAccepted(slots: seq<TokenSlotRow>, resource: int, scheduleId: int, lo: int, hi: int)
    ensures ValidateValidityUpdate(slots, resource, scheduleId, lo, hi, lo, hi) == Pass
  {
  }

  /** With non-negative allocations, a range inside another never sums to
      more, and it sums to strictly less as soon as a row of the larger range
      that lies outside the smaller one holds an allocation. */
  lemma {:induction false} NarrowedSum(slots: seq<TokenSlotRow>, resource: int, scheduleId: int,
                                       lo: int, hi: int, lo2: int, hi2: int)
    requires lo <= lo2 && hi2 <= hi
    requires forall k :: 0 <= k < |slots| ==> slots[k].allocatedCount >= 0
    ensures AllocatedSum(slots, resource, scheduleId, lo2, hi2) <= AllocatedSum(slots, resource, scheduleId, lo, hi)
    ensures (exists k :: 0 <= k < |slots| && InRange(slots[k], resource, scheduleId, lo, hi)
               && !InRange(slots[k], resource, scheduleId, lo2, hi2) && slots[k].allocatedCount > 0)
            ==> AllocatedSum(slots, resource, scheduleId, lo2, hi2) < AllocatedSum(slots, resource, scheduleId, lo, hi)
  {
    if slots != [] {
      var init := slots[..|slots| - 1];
      NarrowedSum(init, resource, scheduleId, lo, hi, lo2, hi2);
      if exists k :: 0 <= k < |slots| && InRange(slots[k], resource, scheduleId, lo, hi)
               && !InRange(slots[k], resource, scheduleId, lo2, hi2) && slots[k].allocatedCount > 0
      {
        var k :| 0 <= k < |slots| && InRange(slots[k], resource, scheduleId, lo, hi)
               && !InRange(slots[k], resource, scheduleId, lo2, hi2) && slots[k].allocatedCount > 0;
        if k < |slots| - 1 {
          assert init[k] == slots[k];
        }
      }
    }
  }

  /** Hence shrinking the validity range so that it drops a slot holding an
      allocation is refused. */
  lemma ShrinkDroppingAllocationRefused(slots: seq<TokenSlotRow>, resource: int, scheduleId: int,
                                        oldFrom: int, oldTo: int, newFrom: int, newTo: int, k: nat)
    requires oldFrom <= newFrom && newTo <= oldTo
    requires forall i :: 0 <= i < |slots| ==> slots[i].allocatedCount >= 0
    requires k < |slots| && InRange(slots[k], resource, scheduleId, oldFrom, oldTo)
    requires !InRange(slots[k], resource, scheduleId, newFrom, newTo) && slots[k].allocatedCount > 0
    ensures ValidateValidityUpdate(slots, resource, scheduleId, oldFrom, oldTo, newFrom, newTo).Fail?
  {
    NarrowedSum(slots, resource, scheduleId, oldFrom, oldTo, newFrom, newTo);
  }
}
