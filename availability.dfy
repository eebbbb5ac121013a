/** Appointment-slot arithmetic of the scheduling API
    (care/emr/api/viewsets/scheduling/availability.py): turning weekly
    availability windows into fixed-size slots, diffing them against the
    slots already stored, booking a token in a slot, and counting the
    bookable tokens of every day of a date range.

    Dates are proleptic ordinals (`date.toordinal()`), so `Weekday` is
    CPython's own `date.weekday()`. Date-times are minutes since the midnight
    of ordinal 0; times of day are minutes since midnight. */
module Availability {
  import opened Wrappers
  import opened ScheduleSpec

  /** `date.weekday()`: Monday is 0, Sunday is 6. */
  function Weekday(day: int): (w: int)
    ensures 0 <= w <= 6
  {
    (day + 6) % 7
  }

  /** Weekdays repeat every seven days. */
  lemma WeekdayPeriodic(day: int)
    ensures Weekday(day + 7) == Weekday(day)
  {
  }

  /** `datetime.date()` of a timestamp. */
  function DateOf(timestamp: int): int {
    timestamp / MinutesPerDay
  }

  /** `datetime.time()` of a minute count: wraps around midnight. */
  function ClockTime(minutes: int): TimeOfDay {
    minutes % MinutesPerDay
  }

  // ---------------------------------------------------------------------
  // The stats request

  const MaxPeriodDays := 32

  /** `AvailabilityStatsRequestSpec.validate_period`. The length cap compares
      `from_date - to_date`, which the first check has made non-positive, so
      it never fires: a range is refused only when it is reversed. */
  function ValidateStatsPeriod(fromDate: int, toDate: int): (r: Outcome<string>)
    ensures r.Fail? <==> fromDate > toDate
  {
    if fromDate > toDate then Fail("From Date cannot be greater than To Date")
    else if fromDate - toDate > MaxPeriodDays then Fail("Period cannot be be greater than max days")
    else Pass
  }

  /** A 100-day range is accepted although it is longer than the cap. */
  lemma PeriodCapNeverFires()
    ensures ValidateStatsPeriod(0, 100) == Pass
    ensures 100 - 0 > MaxPeriodDays
  {
  }

  /** The check with the length cap measured as `to_date - from_date`. */
  function ValidateStatsPeriodCapped(fromDate: int, toDate: int): (r: Outcome<string>)
    ensures r.Fail? <==> fromDate > toDate || toDate - fromDate > MaxPeriodDays
    ensures r.Fail? && fromDate <= toDate ==> r.error == "Period cannot be be greater than max days"
    ensures r.Pass? ==> ValidateStatsPeriod(fromDate, toDate).Pass?
  {
    if fromDate > toDate then Fail("From Date cannot be greater than To Date")
    else if toDate - fromDate > MaxPeriodDays then Fail("Period cannot be be greater than max days")
    else Pass
  }

  // ---------------------------------------------------------------------
  // Availabilities as stored

  /** An `Availability` row of a schedule: its slot type, slot size and
      token count, and its weekly windows. `slot_size_in_minutes` and
      `tokens_per_slot` are only read for appointment rows, which validation
      gives both; they are integers here. */
  datatype AvailabilityRow = AvailabilityRow(
    id: int,
    slotType: SlotType,
    slotSizeInMinutes: int,
    tokensPerSlot: int,
    windows: seq<Window>)

  /** A `Schedule` with its validity date-times and its availability rows. */
  datatype Schedule = Schedule(id: int, validFrom: int, validTo: int, availabilities: seq<AvailabilityRow>)

  // ---------------------------------------------------------------------
  // Slots of one day (get_slots_for_day_handler)

  /** An entry of `calculated_dow_availabilities`. */
  datatype DayAvailability = DayAvailability(window: Window, slotSizeInMinutes: int, availabilityId: int)

  /** The `"start-end"` key of the slots dict: the two clock times. */
  datatype SlotKey = SlotKey(start: TimeOfDay, end: TimeOfDay)

  datatype GeneratedSlot = GeneratedSlot(startTime: TimeOfDay, endTime: TimeOfDay, availabilityId: int)

  function Key(s: GeneratedSlot): SlotKey {
    SlotKey(s.startTime, s.endTime)
  }

  /** The schedule filter of the query: an appointment row whose schedule's
      validity (date-times) contains the midnight that starts `day`. */
  predicate RowValidOn(s: Schedule, row: AvailabilityRow, day: int) {
    row.slotType == Appointment && s.validFrom <= day * MinutesPerDay <= s.validTo
  }

  /** The windows of one row for the requested weekday, as entries. */
  function RowEntries(row: AvailabilityRow, day: int): (r: seq<DayAvailability>)
    ensures forall k :: 0 <= k < |r| ==> r[k].window.dayOfWeek == Weekday(day)
    ensures forall k :: 0 <= k < |r| ==> r[k].availabilityId == row.id && r[k].slotSizeInMinutes == row.slotSizeInMinutes
    decreases |row.windows|
  {
    if row.windows == [] then []
    else
      var w := row.windows[|row.windows| - 1];
      RowEntries(row.(windows := row.windows[..|row.windows| - 1]), day)
        + (if w.dayOfWeek == Weekday(day) then [DayAvailability(w, row.slotSizeInMinutes, row.id)] else [])
  }

  /** All entries of the day, rows in query order. */
  function DayEntries(rows: seq<(Schedule, AvailabilityRow)>, day: int): (r: seq<DayAvailability>)
    ensures forall k :: 0 <= k < |r| ==> r[k].window.dayOfWeek == Weekday(day)
  {
    if rows == [] then []
    else
      var last := rows[|rows| - 1];
      DayEntries(rows[..|rows| - 1], day) + (if RowValidOn(last.0, last.1, day) then RowEntries(last.1, day) else [])
  }

  /** The loop of the handler that collects the day's entries. */
  method CollectDayEntries(rows: seq<(Schedule, AvailabilityRow)>, day: int) returns (entries: seq<DayAvailability>)
    ensures entries == DayEntries(rows, day)
  {
    entries := [];
    for i := 0 to |rows|
      invariant entries == DayEntries(rows[..i], day)
    {
      assert rows[..i + 1][..i] == rows[..i];
      if RowValidOn(rows[i].0, rows[i].1, day) {
        var row := rows[i].1;
        ghost var before := entries;
        for j := 0 to |row.windows|
          invariant entries == before + RowEntries(row.(windows := row.windows[..j]), day)
        {
          assert row.windows[..j + 1][..j] == row.windows[..j];
          if row.windows[j].dayOfWeek == Weekday(day) {
            entries := entries + [DayAvailability(row.windows[j], row.slotSizeInMinutes, row.id)];
          }
        }
        assert row.windows[..|row.windows|] == row.windows;
        assert row.(windows := row.windows) == row;
      }
    }
    assert rows[..|rows|] == rows;
  }

  /** The failsafe of `convert_availability_to_slots`: the counter breaks
      the loop when it reaches 30, so at most 29 slots per entry. */
  const FailsafeLimit := 30

  /** The slot the loop emits when `current_time` is `current`. */
  function SlotAt(current: int, e: DayAvailability): GeneratedSlot {
    GeneratedSlot(ClockTime(current), ClockTime(current + e.slotSizeInMinutes), e.availabilityId)
  }

  /** The slots one entry yields from `current` on, with `budget` loop
      iterations left before the failsafe. */
  function SlotsFrom(current: int, e: DayAvailability, budget: nat): seq<GeneratedSlot>
    decreases budget
  {
    if budget == 0 || current >= e.window.endTime then []
    else [SlotAt(current, e)] + SlotsFrom(current + e.slotSizeInMinutes, e, budget - 1)
  }

  /** The slots of one entry. */
  function EntrySlots(e: DayAvailability): seq<GeneratedSlot> {
    SlotsFrom(e.window.startTime, e, FailsafeLimit - 1)
  }

  /** The slots of all entries, in order. */
  function AllSlots(entries: seq<DayAvailability>): seq<GeneratedSlot> {
    if entries == [] then []
    else AllSlots(entries[..|entries| - 1]) + EntrySlots(entries[|entries| - 1])
  }

  /** Writing the slots one by one into the dict. */
  function Insert(m: map<SlotKey, GeneratedSlot>, s: seq<GeneratedSlot>): map<SlotKey, GeneratedSlot>
  {
    if s == [] then m
    else Insert(m, s[..|s| - 1])[Key(s[|s| - 1]) := s[|s| - 1]]
  }

  lemma {:induction false} InsertAppend(m: map<SlotKey, GeneratedSlot>, a: seq<GeneratedSlot>, b: seq<GeneratedSlot>)
    ensures Insert(m, a + b) == Insert(Insert(m, a), b)
    decreases |b|
  {
    if b == [] {
      assert a + b == a;
    } else {
      assert (a + b)[..|a + b| - 1] == a + b[..|b| - 1];
      InsertAppend(m, a, b[..|b| - 1]);
    }
  }

  /** The k-th slot of an entry starts k slot sizes after the window start,
      still before the window end; consecutive slots are contiguous. */
  lemma {:induction false} SlotsFromShape(current: int, e: DayAvailability, budget: nat, k: nat)
    requires k < |SlotsFrom(current, e, budget)|
    ensures |SlotsFrom(current, e, budget)| <= budget
    ensures k < budget && current + k * e.slotSizeInMinutes < e.window.endTime
    ensures SlotsFrom(current, e, budget)[k] == SlotAt(current + k * e.slotSizeInMinutes, e)
    ensures k + 1 < |SlotsFrom(current, e, budget)| ==>
      SlotsFrom(current, e, budget)[k].endTime == SlotsFrom(current, e, budget)[k + 1].startTime
    decreases budget
  {
    var size := e.slotSizeInMinutes;
    var rest := SlotsFrom(current + size, e, budget - 1);
    if k > 0 {
      SlotsFromShape(current + size, e, budget - 1, k - 1);
      assert current + size + (k - 1) * size == current + k * size;
    } else if 1 < |SlotsFrom(current, e, budget)| {
      SlotsFromShape(current + size, e, budget - 1, 0);
    }
    if rest != [] {
      SlotsFromShape(current + size, e, budget - 1, 0);
    }
  }

  /** At most 29 slots per entry. */
  lemma EntrySlotsBound(e: DayAvailability)
    ensures |EntrySlots(e)| <= FailsafeLimit - 1
  {
    if EntrySlots(e) != [] {
      SlotsFromShape(e.window.startTime, e, FailsafeLimit - 1, 0);
    }
  }

  /** Every slot of an entry: starts at the window start plus a multiple of
      the slot size, before the window end; ends one slot size later (on the
      clock, so exactly one slot size later unless that passes midnight);
      and carries the entry's availability id. */
  lemma EntrySlotFacts(e: DayAvailability, k: nat)
    requires k < |EntrySlots(e)|
    requires e.slotSizeInMinutes >= 1
    ensures e.window.startTime <= e.window.startTime + k * e.slotSizeInMinutes < e.window.endTime
    ensures EntrySlots(e)[k].startTime == e.window.startTime + k * e.slotSizeInMinutes
    ensures EntrySlots(e)[k].availabilityId == e.availabilityId
    ensures EntrySlots(e)[k].endTime == (e.window.startTime + k * e.slotSizeInMinutes + e.slotSizeInMinutes) % MinutesPerDay
    ensures e.window.startTime + k * e.slotSizeInMinutes + e.slotSizeInMinutes < MinutesPerDay ==>
      EntrySlots(e)[k].endTime == EntrySlots(e)[k].startTime + e.slotSizeInMinutes
    ensures k + 1 < |EntrySlots(e)| ==> EntrySlots(e)[k].endTime == EntrySlots(e)[k + 1].startTime
  {
    var size := e.slotSizeInMinutes;
    var start := e.window.startTime + k * size;
    SlotsFromShape(e.window.startTime, e, FailsafeLimit - 1, k);
    MulMonotone(0, k, size);
    assert EntrySlots(e)[k] == SlotAt(start, e);
    ClockTimeOfDay(start);
    if start + size < MinutesPerDay {
      ClockTimeOfDay(start + size);
    }
  }

  /** A minute count within the day is its own clock time. */
  lemma ClockTimeOfDay(m: int)
    requires 0 <= m < MinutesPerDay
    ensures ClockTime(m) == m
  {
  }

  /** The entry loop of `convert_availability_to_slots` for one entry. */
  method ConvertEntry(slots0: map<SlotKey, GeneratedSlot>, e: DayAvailability) returns (slots: map<SlotKey, GeneratedSlot>)
    ensures slots == Insert(slots0, EntrySlots(e))
  {
    slots := slots0;
    var size := e.slotSizeInMinutes;
    var current := e.window.startTime;
    var i := 0;
    while current < e.window.endTime
      invariant 0 <= i < FailsafeLimit
      invariant Insert(slots, SlotsFrom(current, e, FailsafeLimit - 1 - i)) == Insert(slots0, EntrySlots(e))
      decreases FailsafeLimit - i
    {
      i := i + 1;
      if i == FailsafeLimit {
        break;
      }
      var slot := GeneratedSlot(ClockTime(current), ClockTime(current + size), e.availabilityId);
      InsertAppend(slots, [slot], SlotsFrom(current + size, e, FailsafeLimit - 1 - i));
      slots := slots[Key(slot) := slot];
      current := current + size;
    }
  }

  /** `convert_availability_to_slots`: every slot of every entry written
      into the dict under its key, in order. */
  method ConvertAvailabilityToSlots(entries: seq<DayAvailability>) returns (slots: map<SlotKey, GeneratedSlot>)
    ensures slots == Insert(map[], AllSlots(entries))
  {
    slots := map[];
    for n := 0 to |entries|
      invariant slots == Insert(map[], AllSlots(entries[..n]))
    {
      assert entries[..n + 1][..n] == entries[..n];
      InsertAppend(map[], AllSlots(entries[..n]), EntrySlots(entries[n]));
      slots := ConvertEntry(slots, entries[n]);
    }
    assert entries[..|entries|] == entries;
  }

  /** The dict holds exactly the keys of the written slots. */
  lemma {:induction false} InsertKeys(s: seq<GeneratedSlot>, key: SlotKey)
    ensures key in Insert(map[], s) <==> exists j :: 0 <= j < |s| && Key(s[j]) == key
  {
    if s != [] {
      var init := s[..|s| - 1];
      InsertKeys(init, key);
      if Key(s[|s| - 1]) != key && exists j :: 0 <= j < |s| && Key(s[j]) == key {
        var j :| 0 <= j < |s| && Key(s[j]) == key;
        assert init[j] == s[j];
      }
      if Key(s[|s| - 1]) != key && key in Insert(map[], init) {
        var j :| 0 <= j < |init| && Key(init[j]) == key;
        assert s[j] == init[j];
      }
    }
  }

  /** Each key maps to the LAST slot written under it. */
  lemma {:induction false} InsertLast(s: seq<GeneratedSlot>, key: SlotKey) returns (j: nat)
    requires key in Insert(map[], s)
    ensures j < |s| && Key(s[j]) == key && Insert(map[], s)[key] == s[j]
    ensures forall j' :: j < j' < |s| ==> Key(s[j']) != key
  {
    var init := s[..|s| - 1];
    if Key(s[|s| - 1]) == key {
      j := |s| - 1;
    } else {
      j := InsertLast(init, key);
      assert s[j] == init[j];
    }
  }

  /** Together: a later entry overwrites an earlier one with the same start
      and end, and nothing else is in the dict. */
  lemma InsertLastWins(s: seq<GeneratedSlot>, key: SlotKey)
    ensures key in Insert(map[], s) <==> exists j :: 0 <= j < |s| && Key(s[j]) == key
    ensures key in Insert(map[], s) ==>
      exists j :: 0 <= j < |s| && Key(s[j]) == key && Insert(map[], s)[key] == s[j] &&
        forall j' :: j < j' < |s| ==> Key(s[j']) != key
  {
    InsertKeys(s, key);
    if key in Insert(map[], s) {
      var j := InsertLast(s, key);
    }
  }

  /** Every key of the converted dict names its own slot, and that slot is
      one that some entry generates. */
  lemma {:induction false} ConvertedSlotsGenerated(entries: seq<DayAvailability>, key: SlotKey)
    requires key in Insert(map[], AllSlots(entries))
    ensures Key(Insert(map[], AllSlots(entries))[key]) == key
    ensures exists i, k ::
      0 <= i < |entries| && 0 <= k < |EntrySlots(entries[i])| &&
      Insert(map[], AllSlots(entries))[key] == EntrySlots(entries[i])[k]
  {
    var j := InsertLast(AllSlots(entries), key);
    var i, k := AllSlotsIndex(entries, j);
  }

  lemma {:induction false} AllSlotsIndex(entries: seq<DayAvailability>, j: nat) returns (i: nat, k: nat)
    requires j < |AllSlots(entries)|
    ensures i < |entries| && k < |EntrySlots(entries[i])| && AllSlots(entries)[j] == EntrySlots(entries[i])[k]
  {
    var init := entries[..|entries| - 1];
    if j < |AllSlots(init)| {
      i, k := AllSlotsIndex(init, j);
      assert entries[i] == init[i];
    } else {
      i, k := |entries| - 1, j - |AllSlots(init)|;
    }
  }

  /** A stored `TokenSlot` of the day, keyed by its clock times. */
  datatype ExistingSlot = ExistingSlot(startTime: TimeOfDay, endTime: TimeOfDay, availabilityId: int)

  /** Some stored slot has this key and the generated slot's availability. */
  predicate AlreadyCreated(existing: seq<ExistingSlot>, key: SlotKey, slot: GeneratedSlot) {
    exists x :: x in existing && SlotKey(x.startTime, x.endTime) == key && x.availabilityId == slot.availabilityId
  }

  /** The diff loop of the handler: pop every generated slot that a stored
      slot with the same key and availability already covers. What is left
      is created. */
  method SlotsToCreate(generated: map<SlotKey, GeneratedSlot>, existing: seq<ExistingSlot>)
    returns (toCreate: map<SlotKey, GeneratedSlot>)
    ensures toCreate.Keys <= generated.Keys
    ensures forall k :: k in toCreate ==> toCreate[k] == generated[k]
    ensures forall k :: k in generated ==> (k in toCreate <==> !AlreadyCreated(existing, k, generated[k]))
  {
    toCreate := generated;
    for i := 0 to |existing|
      invariant toCreate.Keys <= generated.Keys
      invariant forall k :: k in toCreate ==> toCreate[k] == generated[k]
      invariant forall k :: k in generated ==> (k in toCreate <==> !AlreadyCreated(existing[..i], k, generated[k]))
    {
      var slot := existing[i];
      var slotKey := SlotKey(slot.startTime, slot.endTime);
      if slotKey in toCreate && toCreate[slotKey].availabilityId == slot.availabilityId {
        toCreate := toCreate - {slotKey};
      }
      assert forall x :: x in existing[..i + 1] <==> x in existing[..i] || x == slot;
    }
    assert existing[..|existing|] == existing;
  }

  /** Only windows on the requested weekday produce slots. */
  lemma {:induction false} OnlyMatchingWeekday(rows: seq<(Schedule, AvailabilityRow)>, day: int, key: SlotKey)
    requires key in Insert(map[], AllSlots(DayEntries(rows, day)))
    ensures exists e ::
      e in DayEntries(rows, day) && e.window.dayOfWeek == Weekday(day) &&
      Insert(map[], AllSlots(DayEntries(rows, day)))[key] in EntrySlots(e)
  {
    var entries := DayEntries(rows, day);
    ConvertedSlotsGenerated(entries, key);
    var i, k :| 0 <= i < |entries| && 0 <= k < |EntrySlots(entries[i])| &&
      Insert(map[], AllSlots(entries))[key] == EntrySlots(entries[i])[k];
    assert entries[i] in entries;
  }

  // ---------------------------------------------------------------------
  // Booking a token (lock_create_appointment)

  datatype TokenBooking = TokenBooking(patient: int, bookedBy: int, reasonForVisit: string, status: string)

  const SlotFull := "Slot is already full"

  /** A `TokenSlot` with its allocation counter and its availability's
      capacity. */
  class TokenSlot {
    var allocatedTokens: int
    const tokensPerSlot: int

    constructor (allocatedTokens: int, tokensPerSlot: int)
      ensures this.allocatedTokens == allocatedTokens && this.tokensPerSlot == tokensPerSlot
    {
      this.allocatedTokens := allocatedTokens;
      this.tokensPerSlot := tokensPerSlot;
    }

    /** The slot is not over capacity. */
    predicate WithinCapacity()
      reads this
    {
      0 <= allocatedTokens <= tokensPerSlot
    }

    /** The capacity check and increment of `lock_create_appointment`: a full
        slot refuses and is left alone; otherwise one more token is
        allocated and a "booked" booking is made. */
    method Book(patient: int, createdBy: int, reasonForVisit: string) returns (r: Result<TokenBooking, string>)
      modifies this
      ensures old(allocatedTokens) >= tokensPerSlot ==> r == Failure(SlotFull) && allocatedTokens == old(allocatedTokens)
      ensures old(allocatedTokens) < tokensPerSlot ==>
        allocatedTokens == old(allocatedTokens) + 1 &&
        r == Success(TokenBooking(patient, createdBy, reasonForVisit, "booked"))
      ensures old(WithinCapacity()) ==> WithinCapacity()
    {
      if allocatedTokens >= tokensPerSlot {
        return Failure(SlotFull);
      }
      allocatedTokens := allocatedTokens + 1;
      return Success(TokenBooking(patient, createdBy, reasonForVisit, "booked"));
    }
  }

  // ---------------------------------------------------------------------
  // Counting the bookable tokens of a day (calculate_slots)

  /** An `AvailabilityException`: inclusive dates and a time range. */
  datatype AvailabilityException = AvailabilityException(validFrom: int, validTo: int, startTime: TimeOfDay, endTime: TimeOfDay)

  /** The test of the exception loop: an exception blocks slot start `s` of
      a window ending at `windowEnd` when it starts no later than the WINDOW's
      end and ends no earlier than `s`. */
  predicate Conflicts(exceptions: seq<AvailabilityException>, s: int, windowEnd: int) {
    exists x :: x in exceptions && x.startTime <= windowEnd && x.endTime >= s
  }

  /** The exception loop that sets `conflicting`. */
  method Conflicting(exceptions: seq<AvailabilityException>, s: int, windowEnd: int) returns (conflicting: bool)
    ensures conflicting <==> Conflicts(exceptions, s, windowEnd)
  {
    conflicting := false;
    for j := 0 to |exceptions|
      invariant conflicting <==> Conflicts(exceptions[..j], s, windowEnd)
    {
      assert forall x :: x in exceptions[..j + 1] <==> x in exceptions[..j] || x == exceptions[j];
      if exceptions[j].startTime <= windowEnd && exceptions[j].endTime >= s {
        conflicting := true;
      }
    }
    assert exceptions[..|exceptions|] == exceptions;
  }

  /** The tokens a window yields from slot start `s` on: `tokens` for every
      start up to and including the window end that no exception blocks.
      (Slot sizes below 1 never get here: `StaysInDay` asks for at least 1;
      the guard only keeps the definition total.) */
  function WindowCountFrom(s: int, windowEnd: int, size: int, tokens: int, exceptions: seq<AvailabilityException>): int
    decreases windowEnd - s + 1
  {
    if s > windowEnd || size < 1 then 0
    else
      (if Conflicts(exceptions, s, windowEnd) then 0 else tokens)
        + WindowCountFrom(s + size, windowEnd, size, tokens, exceptions)
  }

  /** The last slot start the `<=` loop reaches. */
  function LastStart(w: Window, size: int): int
    requires size >= 1
  {
    w.startTime + (w.endTime - w.startTime) / size * size
  }

  /** The precondition under which the loop terminates: a slot size of at
      least 1, and no step of the loop crossing 24:00 (the source steps with
      `.time()`, which wraps to the morning and loops forever). */
  predicate StaysInDay(w: Window, size: int) {
    size >= 1 && (w.startTime > w.endTime || LastStart(w, size) + size < MinutesPerDay)
  }

  /** Slot start number `k` of a window that stays in the day is followed
      by a step that still lands before midnight. */
  lemma StepStaysInDay(w: Window, size: int, k: int)
    requires StaysInDay(w, size) && k >= 0
    requires w.startTime + k * size <= w.endTime
    ensures w.startTime + k * size + size < MinutesPerDay
    ensures w.startTime + k * size + size == w.startTime + (k + 1) * size
  {
    var d := w.endTime - w.startTime;
    var q := d / size;
    if k > q {
      MulMonotone(q + 1, k, size);
      assert false;
    }
    MulMonotone(k, q, size);
  }

  lemma MulMonotone(a: int, b: int, c: int)
    requires a <= b && c >= 0
    ensures a * c <= b * c
  {
    assert b * c - a * c == (b - a) * c;
  }

  /** The `while start_time <= end_time` loop for one window. */
  method CountWindow(w: Window, size: int, tokens: int, exceptions: seq<AvailabilityException>) returns (count: int)
    requires StaysInDay(w, size)
    ensures count == WindowCountFrom(w.startTime, w.endTime, size, tokens, exceptions)
  {
    count := 0;
    var startTime: int := w.startTime;
    ghost var k := 0;
    while startTime <= w.endTime
      invariant k >= 0 && startTime == w.startTime + k * size
      invariant count + WindowCountFrom(startTime, w.endTime, size, tokens, exceptions)
             == WindowCountFrom(w.startTime, w.endTime, size, tokens, exceptions)
      decreases w.endTime - startTime
    {
      var conflicting := Conflicting(exceptions, startTime, w.endTime);
      StepStaysInDay(w, size, k);
      startTime := ClockTime(startTime + size);
      k := k + 1;
      if conflicting {
        continue;
      }
      count := count + tokens;
    }
  }

  /** A window that matches the day, with its row's size and tokens. */
  datatype CountedWindow = CountedWindow(window: Window, size: int, tokens: int)

  /** The windows of a row on the day's weekday. */
  function MatchingWindows(ws: seq<Window>, size: int, tokens: int, weekday: int): (r: seq<CountedWindow>)
    ensures forall k :: 0 <= k < |r| ==> r[k].window.dayOfWeek == weekday
  {
    if ws == [] then []
    else
      var w := ws[|ws| - 1];
      MatchingWindows(ws[..|ws| - 1], size, tokens, weekday)
        + (if w.dayOfWeek == weekday then [CountedWindow(w, size, tokens)] else [])
  }

  function RowWindows(row: AvailabilityRow, weekday: int): (r: seq<CountedWindow>)
    ensures forall k :: 0 <= k < |r| ==> r[k].window.dayOfWeek == weekday
  {
    MatchingWindows(row.windows, row.slotSizeInMinutes, row.tokensPerSlot, weekday)
  }

  /** The windows of a schedule's cached appointment rows. */
  function ScheduleWindows(rows: seq<AvailabilityRow>, weekday: int): (r: seq<CountedWindow>)
    ensures forall k :: 0 <= k < |r| ==> r[k].window.dayOfWeek == weekday
  {
    if rows == [] then []
    else
      var row := rows[|rows| - 1];
      ScheduleWindows(rows[..|rows| - 1], weekday) + (if row.slotType == Appointment then RowWindows(row, weekday) else [])
  }

  /** The windows `calculate_slots` walks for one day. */
  function DayWindows(schedules: seq<Schedule>, weekday: int): (r: seq<CountedWindow>)
    ensures forall k :: 0 <= k < |r| ==> r[k].window.dayOfWeek == weekday
  {
    if schedules == [] then []
    else DayWindows(schedules[..|schedules| - 1], weekday) + ScheduleWindows(schedules[|schedules| - 1].availabilities, weekday)
  }

  predicate AllStayInDay(cs: seq<CountedWindow>) {
    forall k :: 0 <= k < |cs| ==> StaysInDay(cs[k].window, cs[k].size)
  }

  /** The precondition for a day: every window walked stays within the day. */
  predicate CountableDay(schedules: seq<Schedule>, weekday: int) {
    AllStayInDay(DayWindows(schedules, weekday))
  }

  /** The tokens one counted window contributes. */
  function WindowCount(c: CountedWindow, exceptions: seq<AvailabilityException>): int {
    WindowCountFrom(c.window.startTime, c.window.endTime, c.size, c.tokens, exceptions)
  }

  function SumWindows(ws: seq<CountedWindow>, exceptions: seq<AvailabilityException>): int
  {
    if ws == [] then 0
    else SumWindows(ws[..|ws| - 1], exceptions) + WindowCount(ws[|ws| - 1], exceptions)
  }

  /** The count `calculate_slots` returns for `day`. */
  function DaySlots(day: int, schedules: seq<Schedule>, exceptions: seq<AvailabilityException>): int {
    SumWindows(DayWindows(schedules, Weekday(day)), exceptions)
  }

  lemma {:induction false} SumWindowsAppend(a: seq<CountedWindow>, b: seq<CountedWindow>, exceptions: seq<AvailabilityException>)
    ensures SumWindows(a + b, exceptions) == SumWindows(a, exceptions) + SumWindows(b, exceptions)
    decreases |b|
  {
    if b == [] {
      assert a + b == a;
    } else {
      assert (a + b)[..|a + b| - 1] == a + b[..|b| - 1];
      SumWindowsAppend(a, b[..|b| - 1], exceptions);
    }
  }

  lemma AllStayInDayAppend(a: seq<CountedWindow>, b: seq<CountedWindow>)
    ensures AllStayInDay(a + b) <==> AllStayInDay(a) && AllStayInDay(b)
  {
    if AllStayInDay(a + b) {
      forall k | 0 <= k < |a| ensures StaysInDay(a[k].window, a[k].size) {
        assert a[k] == (a + b)[k];
      }
      forall k | 0 <= k < |b| ensures StaysInDay(b[k].window, b[k].size) {
        assert b[k] == (a + b)[|a| + k];
      }
    }
    if AllStayInDay(a) && AllStayInDay(b) {
      forall k | 0 <= k < |a + b| ensures StaysInDay((a + b)[k].window, (a + b)[k].size) {
        if k < |a| {
          assert (a + b)[k] == a[k];
        } else {
          assert (a + b)[k] == b[k - |a|];
        }
      }
    }
  }

  lemma {:induction false} MatchingWindowsStep(ws: seq<Window>, j: nat, size: int, tokens: int, weekday: int)
    requires j < |ws|
    ensures MatchingWindows(ws[..j + 1], size, tokens, weekday)
      == MatchingWindows(ws[..j], size, tokens, weekday)
         + (if ws[j].dayOfWeek == weekday then [CountedWindow(ws[j], size, tokens)] else [])
  {
    assert ws[..j + 1][..j] == ws[..j];
  }

  /** Windows of a prefix stay in the day when those of the whole list do. */
  lemma {:induction false} MatchingWindowsPrefix(ws: seq<Window>, j: nat, size: int, tokens: int, weekday: int)
    requires j <= |ws|
    requires AllStayInDay(MatchingWindows(ws, size, tokens, weekday))
    ensures AllStayInDay(MatchingWindows(ws[..j], size, tokens, weekday))
    decreases |ws|
  {
    if j < |ws| {
      var init := ws[..|ws| - 1];
      assert init[..j] == ws[..j];
      MatchingWindowsStep(ws, |ws| - 1, size, tokens, weekday);
      assert ws[..|ws|] == ws;
      AllStayInDayAppend(MatchingWindows(init, size, tokens, weekday),
        if ws[|ws| - 1].dayOfWeek == weekday then [CountedWindow(ws[|ws| - 1], size, tokens)] else []);
      MatchingWindowsPrefix(init, j, size, tokens, weekday);
    } else {
      assert ws[..j] == ws;
    }
  }

  /** The innermost two loops for one row. */
  method CountRow(row: AvailabilityRow, weekday: int, exceptions: seq<AvailabilityException>) returns (count: int)
    requires AllStayInDay(RowWindows(row, weekday))
    ensures count == SumWindows(RowWindows(row, weekday), exceptions)
  {
    var ws, size, tokens := row.windows, row.slotSizeInMinutes, row.tokensPerSlot;
    count := 0;
    for j := 0 to |ws|
      invariant count == SumWindows(MatchingWindows(ws[..j], size, tokens, weekday), exceptions)
    {
      MatchingWindowsStep(ws, j, size, tokens, weekday);
      var done := MatchingWindows(ws[..j], size, tokens, weekday);
      if ws[j].dayOfWeek != weekday {
        assert done + [] == done;
        continue;
      }
      var c := CountedWindow(ws[j], size, tokens);
      MatchingWindowsPrefix(ws, j + 1, size, tokens, weekday);
      AllStayInDayAppend(done, [c]);
      assert StaysInDay([c][0].window, [c][0].size);
      assert (done + [c])[..|done + [c]| - 1] == done;
      var n := CountWindow(ws[j], size, tokens, exceptions);
      count := count + n;
    }
    assert ws[..|ws|] == ws;
  }

  lemma {:induction false} ScheduleWindowsPrefix(rows: seq<AvailabilityRow>, i: nat, weekday: int)
    requires i <= |rows|
    requires AllStayInDay(ScheduleWindows(rows, weekday))
    ensures AllStayInDay(ScheduleWindows(rows[..i], weekday))
    decreases |rows|
  {
    if i < |rows| {
      var init := rows[..|rows| - 1];
      assert init[..i] == rows[..i];
      var row := rows[|rows| - 1];
      AllStayInDayAppend(ScheduleWindows(init, weekday), if row.slotType == Appointment then RowWindows(row, weekday) else []);
      ScheduleWindowsPrefix(init, i, weekday);
    } else {
      assert rows[..i] == rows;
    }
  }

  /** The loops over the cached rows of one schedule. */
  method CountSchedule(rows: seq<AvailabilityRow>, weekday: int, exceptions: seq<AvailabilityException>) returns (count: int)
    requires AllStayInDay(ScheduleWindows(rows, weekday))
    ensures count == SumWindows(ScheduleWindows(rows, weekday), exceptions)
  {
    count := 0;
    for i := 0 to |rows|
      invariant count == SumWindows(ScheduleWindows(rows[..i], weekday), exceptions)
    {
      assert rows[..i + 1][..i] == rows[..i];
      var done := ScheduleWindows(rows[..i], weekday);
      var more := if rows[i].slotType == Appointment then RowWindows(rows[i], weekday) else [];
      assert ScheduleWindows(rows[..i + 1], weekday) == done + more;
      ScheduleWindowsPrefix(rows, i + 1, weekday);
      AllStayInDayAppend(done, more);
      SumWindowsAppend(done, more, exceptions);
      if rows[i].slotType == Appointment {
        var n := CountRow(rows[i], weekday, exceptions);
        count := count + n;
      }
    }
    assert rows[..|rows|] == rows;
  }

  lemma {:induction false} DayWindowsPrefix(schedules: seq<Schedule>, i: nat, weekday: int)
    requires i <= |schedules|
    requires AllStayInDay(DayWindows(schedules, weekday))
    ensures AllStayInDay(DayWindows(schedules[..i], weekday))
    decreases |schedules|
  {
    if i < |schedules| {
      var init := schedules[..|schedules| - 1];
      assert init[..i] == schedules[..i];
      AllStayInDayAppend(DayWindows(init, weekday), ScheduleWindows(schedules[|schedules| - 1].availabilities, weekday));
      DayWindowsPrefix(init, i, weekday);
    } else {
      assert schedules[..i] == schedules;
    }
  }

  /** `calculate_slots`: the loops over the day's schedules. */
  method CalculateSlots(day: int, schedules: seq<Schedule>, exceptions: seq<AvailabilityException>) returns (slots: int)
    requires CountableDay(schedules, Weekday(day))
    ensures slots == DaySlots(day, schedules, exceptions)
  {
    var weekday := Weekday(day);
    slots := 0;
    for i := 0 to |schedules|
      invariant slots == SumWindows(DayWindows(schedules[..i], weekday), exceptions)
    {
      assert schedules[..i + 1][..i] == schedules[..i];
      DayWindowsPrefix(schedules, i + 1, weekday);
      AllStayInDayAppend(DayWindows(schedules[..i], weekday), ScheduleWindows(schedules[i].availabilities, weekday));
      var n := CountSchedule(schedules[i].availabilities, weekday, exceptions);
      SumWindowsAppend(DayWindows(schedules[..i], weekday), ScheduleWindows(schedules[i].availabilities, weekday), exceptions);
      slots := slots + n;
    }
    assert schedules[..|schedules|] == schedules;
  }

  /** `a < b` steps a multiple of `c` up by at least `c`. */
  lemma MulStrict(a: int, b: int, c: int)
    requires a < b && c >= 0
    ensures a * c + c <= b * c
  {
    MulMonotone(a + 1, b, c);
    assert (a + 1) * c == a * c + c;
  }

  /** Floor division recovers the quotient of `q * size + r` for `0 <= r < size`. */
  lemma DivOfForm(n: int, q: int, r: int, size: int)
    requires size >= 1 && 0 <= r < size && n == q * size + r
    ensures n / size == q
  {
    var q2 := n / size;
    if q2 > q {
      MulStrict(q, q2, size);
      assert false;
    }
    if q2 < q {
      MulStrict(q2, q, size);
      assert false;
    }
  }

  /** With no exceptions the inclusive `<=` loop yields one slot per start
      `start, start + size, ...` up to the window end: the window gives
      (floor((end - start) / size) + 1) * tokens. */
  lemma {:induction false} WindowCountNoExceptions(s: int, windowEnd: int, size: int, tokens: int)
    requires size >= 1 && s <= windowEnd
    ensures WindowCountFrom(s, windowEnd, size, tokens, []) == ((windowEnd - s) / size + 1) * tokens
    decreases windowEnd - s
  {
    assert !Conflicts([], s, windowEnd);
    var d := windowEnd - s;
    if s + size <= windowEnd {
      WindowCountNoExceptions(s + size, windowEnd, size, tokens);
      var q := (d - size) / size;
      DivOfForm(d, q + 1, (d - size) % size, size);
      assert (q + 2) * tokens == (q + 1) * tokens + tokens;
    } else {
      DivOfForm(d, 0, d, size);
    }
  }

  /** A window whose start lies after its end yields nothing. */
  lemma EmptyWindow(s: int, windowEnd: int, size: int, tokens: int, exceptions: seq<AvailabilityException>)
    requires s > windowEnd
    ensures WindowCountFrom(s, windowEnd, size, tokens, exceptions) == 0
  {
  }

  /** More exceptions never raise a window's count, and the count is never
      negative, when the row's tokens per slot are not negative. */
  lemma {:induction false} WindowCountMonotone(s: int, windowEnd: int, size: int, tokens: int,
                                               fewer: seq<AvailabilityException>, more: seq<AvailabilityException>)
    requires tokens >= 0
    requires forall x :: x in fewer ==> x in more
    ensures 0 <= WindowCountFrom(s, windowEnd, size, tokens, more) <= WindowCountFrom(s, windowEnd, size, tokens, fewer)
    decreases windowEnd - s + 1
  {
    if s <= windowEnd && size >= 1 {
      WindowCountMonotone(s + size, windowEnd, size, tokens, fewer, more);
      if Conflicts(fewer, s, windowEnd) {
        var x :| x in fewer && x.startTime <= windowEnd && x.endTime >= s;
        assert x in more;
      }
    }
  }

  predicate TokensNonNegative(cs: seq<CountedWindow>) {
    forall k :: 0 <= k < |cs| ==> cs[k].tokens >= 0
  }

  /** Lifted to a whole day: with tokens per slot never negative, the day's
      count is not negative, and adding exceptions never raises it. */
  lemma {:induction false} SumWindowsMonotone(cs: seq<CountedWindow>, fewer: seq<AvailabilityException>, more: seq<AvailabilityException>)
    requires TokensNonNegative(cs)
    requires forall x :: x in fewer ==> x in more
    ensures 0 <= SumWindows(cs, more) <= SumWindows(cs, fewer)
    decreases |cs|
  {
    if cs != [] {
      var c := cs[|cs| - 1];
      var init := cs[..|cs| - 1];
      assert TokensNonNegative(init) by {
        forall k | 0 <= k < |init| ensures init[k].tokens >= 0 {
          assert init[k] == cs[k];
        }
      }
      SumWindowsMonotone(init, fewer, more);
      WindowCountMonotone(c.window.startTime, c.window.endTime, c.size, c.tokens, fewer, more);
    }
  }

  lemma DaySlotsMonotone(day: int, schedules: seq<Schedule>, fewer: seq<AvailabilityException>, more: seq<AvailabilityException>)
    requires TokensNonNegative(DayWindows(schedules, Weekday(day)))
    requires forall x :: x in fewer ==> x in more
    ensures 0 <= DaySlots(day, schedules, more) <= DaySlots(day, schedules, fewer)
  {
    SumWindowsMonotone(DayWindows(schedules, Weekday(day)), fewer, more);
  }

  /** A window on another weekday is never counted: a row all of whose
      windows are on other days contributes nothing. */
  lemma {:induction false} OtherWeekdaysIgnored(ws: seq<Window>, size: int, tokens: int, weekday: int)
    requires forall k :: 0 <= k < |ws| ==> ws[k].dayOfWeek != weekday
    ensures MatchingWindows(ws, size, tokens, weekday) == []
    decreases |ws|
  {
    if ws != [] {
      var init := ws[..|ws| - 1];
      assert forall k :: 0 <= k < |init| ==> init[k] == ws[k];
      OtherWeekdaysIgnored(init, size, tokens, weekday);
    }
  }

  /** Every window of the row on the day's weekday is counted, in order. */
  lemma {:induction false} MatchingWindowsComplete(ws: seq<Window>, size: int, tokens: int, weekday: int, k: nat)
    requires k < |ws| && ws[k].dayOfWeek == weekday
    ensures CountedWindow(ws[k], size, tokens) in MatchingWindows(ws, size, tokens, weekday)
    decreases |ws|
  {
    if k < |ws| - 1 {
      var init := ws[..|ws| - 1];
      assert init[k] == ws[k];
      MatchingWindowsComplete(init, size, tokens, weekday, k);
    }
  }

  // ---------------------------------------------------------------------
  // `availability_stats`: the days of the range and their counts
  // ---------------------------------------------------------------------

  /** A schedule applies to a day when the day lies between the DATES of its
      `valid_from` and `valid_to` datetimes, both inclusive. */
  predicate ScheduleApplies(s: Schedule, day: int) {
    DateOf(s.validFrom) <= day <= DateOf(s.validTo)
  }

  /** An exception applies to a day inside its inclusive date range. */
  predicate ExceptionApplies(x: AvailabilityException, day: int) {
    x.validFrom <= day <= x.validTo
  }

  function ApplicableSchedules(schedules: seq<Schedule>, day: int): (r: seq<Schedule>)
    ensures forall s :: s in r <==> s in schedules && ScheduleApplies(s, day)
  {
    if schedules == [] then []
    else
      var s := schedules[|schedules| - 1];
      ApplicableSchedules(schedules[..|schedules| - 1], day) + (if ScheduleApplies(s, day) then [s] else [])
  }

  function ApplicableExceptions(exceptions: seq<AvailabilityException>, day: int): (r: seq<AvailabilityException>)
    ensures forall x :: x in r <==> x in exceptions && ExceptionApplies(x, day)
  {
    if exceptions == [] then []
    else
      var x := exceptions[|exceptions| - 1];
      ApplicableExceptions(exceptions[..|exceptions| - 1], day) + (if ExceptionApplies(x, day) then [x] else [])
  }

  /** The loop building `current_schedules`. */
  method FilterSchedules(schedules: seq<Schedule>, day: int) returns (current: seq<Schedule>)
    ensures current == ApplicableSchedules(schedules, day)
  {
    current := [];
    for i := 0 to |schedules|
      invariant current == ApplicableSchedules(schedules[..i], day)
    {
      assert schedules[..i + 1][..i] == schedules[..i];
      if ScheduleApplies(schedules[i], day) {
        current := current + [schedules[i]];
      }
    }
    assert schedules[..|schedules|] == schedules;
  }

  /** The loop building the day's `exceptions`. */
  method FilterExceptions(exceptions: seq<AvailabilityException>, day: int) returns (current: seq<AvailabilityException>)
    ensures current == ApplicableExceptions(exceptions, day)
  {
    current := [];
    for i := 0 to |exceptions|
      invariant current == ApplicableExceptions(exceptions[..i], day)
    {
      assert exceptions[..i + 1][..i] == exceptions[..i];
      if ExceptionApplies(exceptions[i], day) {
        current := current + [exceptions[i]];
      }
    }
    assert exceptions[..|exceptions| - 0] == exceptions;
  }

  /** One day's entry of the response. */
  datatype DayStats = DayStats(totalSlots: int, bookedSlots: int)

  /** The `while day < to_date` loop: one zeroed entry per day from
      `from_date` inclusive to `to_date` exclusive. */
  method EnumerateDays(fromDate: int, toDate: int) returns (days: map<int, DayStats>)
    ensures forall d :: d in days <==> fromDate <= d < toDate
    ensures forall d :: d in days ==> days[d] == DayStats(0, 0)
  {
    days := map[];
    var day := fromDate;
    while day < toDate
      invariant fromDate <= day && (day <= toDate || day == fromDate)
      invariant forall d :: d in days <==> fromDate <= d < day
      invariant forall d :: d in days ==> days[d] == DayStats(0, 0)
      decreases toDate - day
    {
      days := days[day := DayStats(0, 0)];
      day := day + 1;
    }
  }

  /** The per-date booked sum the response ends with: the last row of the
      grouped query for that date, 0 when there is none. */
  function BookedOn(booked: seq<(int, int)>, day: int): int {
    if booked == [] then 0
    else if booked[|booked| - 1].0 == day then booked[|booked| - 1].1
    else BookedOn(booked[..|booked| - 1], day)
  }

  /** Every day with a booked sum lies in the enumerated range. */
  predicate BookedInRange(booked: seq<(int, int)>, fromDate: int, toDate: int) {
    forall k :: 0 <= k < |booked| ==> fromDate <= booked[k].0 < toDate
  }

  /** The days of the range can all be counted (see `StaysInDay`). */
  predicate CountableRange(fromDate: int, toDate: int, schedules: seq<Schedule>) {
    forall d :: fromDate <= d < toDate ==> CountableDay(ApplicableSchedules(schedules, d), Weekday(d))
  }

  /** The count `availability_stats` stores for a day: `calculate_slots`
      over the schedules and exceptions that apply to it. */
  function DayTotal(day: int, schedules: seq<Schedule>, exceptions: seq<AvailabilityException>): int {
    DaySlots(day, ApplicableSchedules(schedules, day), ApplicableExceptions(exceptions, day))
  }

  /** The body of the `for day in days` loop: filter, then count. */
  method CountDay(day: int, schedules: seq<Schedule>, exceptions: seq<AvailabilityException>) returns (count: int)
    requires CountableDay(ApplicableSchedules(schedules, day), Weekday(day))
    ensures count == DayTotal(day, schedules, exceptions)
  {
    var current := FilterSchedules(schedules, day);
    var dayExceptions := FilterExceptions(exceptions, day);
    count := CalculateSlots(day, current, dayExceptions);
  }

  /** The `for day in days` loop filling `total_slots`. */
  method CountDays(days0: map<int, DayStats>, fromDate: int, toDate: int, schedules: seq<Schedule>,
                   exceptions: seq<AvailabilityException>) returns (days: map<int, DayStats>)
    requires fromDate <= toDate
    requires CountableRange(fromDate, toDate, schedules)
    requires forall d :: d in days0 <==> fromDate <= d < toDate
    ensures forall d :: d in days <==> fromDate <= d < toDate
    ensures forall d :: d in days ==> days[d] == days0[d].(totalSlots := DayTotal(d, schedules, exceptions))
  {
    days := days0;
    var day := fromDate;
    while day < toDate
      invariant fromDate <= day <= toDate
      invariant forall d :: d in days <==> fromDate <= d < toDate
      invariant forall d :: fromDate <= d < day ==> days[d] == days0[d].(totalSlots := DayTotal(d, schedules, exceptions))
      invariant forall d :: day <= d < toDate ==> days[d] == days0[d]
      decreases toDate - day
    {
      var count := CountDay(day, schedules, exceptions);
      days := days[day := days0[day].(totalSlots := count)];
      day := day + 1;
    }
  }

  /** The loop over the grouped booked sums; a date that is not a key
      raises (`KeyError`). */
  method ApplyBooked(days0: map<int, DayStats>, booked: seq<(int, int)>) returns (r: Result<map<int, DayStats>, string>)
    requires forall d :: d in days0 ==> days0[d].bookedSlots == 0
    ensures r.Failure? <==> exists k :: 0 <= k < |booked| && booked[k].0 !in days0
    ensures r.Success? ==> r.value.Keys == days0.Keys
    ensures r.Success? ==> forall d :: d in r.value ==> r.value[d] == days0[d].(bookedSlots := BookedOn(booked, d))
  {
    var days := days0;
    for i := 0 to |booked|
      invariant forall k :: 0 <= k < i ==> booked[k].0 in days0
      invariant days.Keys == days0.Keys
      invariant forall d :: d in days ==> days[d] == days0[d].(bookedSlots := BookedOn(booked[..i], d))
    {
      assert booked[..i + 1][..i] == booked[..i];
      var (date, sum) := booked[i];
      if date !in days {
        return Failure("KeyError");
      }
      days := days[date := days[date].(bookedSlots := sum)];
    }
    assert booked[..|booked|] == booked;
    return Success(days);
  }

  /** `availability_stats` after the schedules and exceptions are fetched.
      `booked` is the grouped `(date, allocated_sum)` query result; a date
      outside the range is not a key of the response and raises. */
  method AvailabilityStats(fromDate: int, toDate: int, schedules: seq<Schedule>,
                           exceptions: seq<AvailabilityException>, booked: seq<(int, int)>)
    returns (r: Result<map<int, DayStats>, string>)
    requires CountableRange(fromDate, toDate, schedules)
    ensures r.Failure? <==>
      fromDate > toDate || toDate - fromDate > MaxPeriodDays || !BookedInRange(booked, fromDate, toDate)
    ensures fromDate > toDate ==> r == Failure("From Date cannot be greater than To Date")
    ensures fromDate <= toDate && toDate - fromDate > MaxPeriodDays ==>
      r == Failure("Period cannot be be greater than max days")
    ensures r.Success? ==> forall d :: d in r.value <==> fromDate <= d < toDate
    ensures r.Success? ==> forall d :: d in r.value ==>
      r.value[d] == DayStats(DayTotal(d, schedules, exceptions), BookedOn(booked, d))
  {
    var check := ValidateStatsPeriodCapped(fromDate, toDate);
    if check.Fail? {
      return Failure(check.error);
    }
    var days := EnumerateDays(fromDate, toDate);
    days := CountDays(days, fromDate, toDate, schedules, exceptions);
    r := ApplyBooked(days, booked);
  }
}
