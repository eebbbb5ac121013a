/** The hourly patient summary of `care/facility/summarisation/patient_summary.py`:
    per facility, four category counts over one consultation per patient, stored
    as at most one `PatientSummary` snapshot per facility and day, rewritten only
    when the counts change; and the role tiers that decide which snapshots a user
    may list. */
module PatientSummary {
  import opened Wrappers
  import opened Users
  import Availability

  // ---------------------------------------------------------------------------
  // Counting
  // ---------------------------------------------------------------------------

  /** The consultation fields the summary reads. `createdDate` is a timestamp in
      minutes; `admittedTo` is the `admitted_to` choice (1 isolation, 2 ICU,
      3 ventilator); `suggestion` is the two-letter suggestion code. */
  datatype Consultation = Consultation(
    id: int,
    facility: int,
    patient: int,
    patientActive: bool,
    admittedTo: int,
    suggestion: string,
    createdDate: int)

  const IsolationBed := 1
  const IcuBed := 2
  const VentilatorBed := 3
  const HomeIsolation := "HI"

  datatype Category = Icu | Ventilator | Isolation | HomeQuarantine

  /** The filter of one count: an active patient and the category's field value. */
  predicate InCategory(c: Consultation, cat: Category) {
    c.patientActive &&
    match cat
    case Icu => c.admittedTo == IcuBed
    case Ventilator => c.admittedTo == VentilatorBed
    case Isolation => c.admittedTo == IsolationBed
    case HomeQuarantine => c.suggestion == HomeIsolation
  }

  function PatientsOf(cs: seq<Consultation>): set<int> {
    set c | c in cs :: c.patient
  }

  predicate DistinctPatients(cs: seq<Consultation>) {
    forall i, j :: 0 <= i < j < |cs| ==> cs[i].patient != cs[j].patient
  }

  /** The consultations of one facility, in the order given. */
  function AtFacility(cs: seq<Consultation>, facility: int): (r: seq<Consultation>)
    ensures forall c :: c in r <==> c in cs && c.facility == facility
  {
    if |cs| == 0 then []
    else
      var init := AtFacility(cs[..|cs| - 1], facility);
      var c := cs[|cs| - 1];
      assert cs == cs[..|cs| - 1] + [c];
      if c.facility == facility then init + [c] else init
  }

  /** `distinct('patient')`: one consultation per patient. The query names no
      ordering, so which row the database keeps is unspecified; the model keeps
      the first one in the order given. */
  function OnePerPatient(cs: seq<Consultation>): (r: seq<Consultation>)
    ensures forall c :: c in r ==> c in cs
    ensures DistinctPatients(r)
    ensures PatientsOf(r) == PatientsOf(cs)
  {
    if |cs| == 0 then []
    else
      var init := OnePerPatient(cs[..|cs| - 1]);
      var c := cs[|cs| - 1];
      assert cs == cs[..|cs| - 1] + [c];
      PatientsAppend(cs[..|cs| - 1], c);
      if c.patient in PatientsOf(init) then init
      else
        PatientsAppend(init, c);
        init + [c]
  }

  lemma PatientsAppend(cs: seq<Consultation>, c: Consultation)
    ensures PatientsOf(cs + [c]) == PatientsOf(cs) + {c.patient}
  {
    forall p | p in PatientsOf(cs + [c]) ensures p in PatientsOf(cs) + {c.patient} {
      var x :| x in cs + [c] && x.patient == p;
      if x != c {
        assert x in cs;
      }
    }
    forall p | p in PatientsOf(cs) ensures p in PatientsOf(cs + [c]) {
      var x :| x in cs && x.patient == p;
      assert x in cs + [c];
    }
    assert c in cs + [c];
  }

  /** A sequence with distinct patients has as many entries as patients. */
  lemma {:induction false} DistinctPatientsCount(cs: seq<Consultation>)
    requires DistinctPatients(cs)
    ensures |cs| == |PatientsOf(cs)|
  {
    if |cs| > 0 {
      var init := cs[..|cs| - 1];
      var c := cs[|cs| - 1];
      assert cs == init + [c];
      DistinctPatientsCount(init);
      PatientsAppend(init, c);
      assert c.patient !in PatientsOf(init);
    }
  }

  /** The number of consultations of `cs` that fall in `cat`. */
  function CountIn(cs: seq<Consultation>, cat: Category): (n: nat)
    ensures n <= |cs|
    ensures n == 0 <==> forall c :: c in cs ==> !InCategory(c, cat)
  {
    if |cs| == 0 then 0
    else
      var init := cs[..|cs| - 1];
      assert cs == init + [cs[|cs| - 1]];
      CountIn(init, cat) + (if InCategory(cs[|cs| - 1], cat) then 1 else 0)
  }

  /** `total_patients_*` of a facility: the one-per-patient consultations of
      the facility that fall in the category. */
  function CategoryTotal(cs: seq<Consultation>, facility: int, cat: Category): nat {
    CountIn(OnePerPatient(AtFacility(cs, facility)), cat)
  }

  /** Each count is at most the number of distinct patients the facility has
      consultations for, and is zero exactly when none of the kept
      consultations falls in the category. */
  lemma CategoryTotalBound(cs: seq<Consultation>, facility: int, cat: Category)
    ensures CategoryTotal(cs, facility, cat) <= |PatientsOf(AtFacility(cs, facility))|
    ensures CategoryTotal(cs, facility, cat) == 0 <==>
      forall c :: c in OnePerPatient(AtFacility(cs, facility)) ==> !InCategory(c, cat)
  {
    DistinctPatientsCount(OnePerPatient(AtFacility(cs, facility)));
  }

  /** The summary dictionary of one facility. */
  datatype Summary = Summary(
    facilityName: string,
    district: string,
    totalIcu: nat,
    totalVentilator: nat,
    totalIsolation: nat,
    totalHomeQuarantine: nat,
    todayIcu: nat,
    todayVentilator: nat,
    todayIsolation: nat,
    todayHomeQuarantine: nat)

  /** The summary computed for one facility. The "today" counts are computed
      from the same consultations as the totals (the date-filtered set is
      built but not used). */
  function SummaryOf(f: Facility, cs: seq<Consultation>): Summary {
    Summary(
      f.name, f.districtName,
      CategoryTotal(cs, f.id, Icu),
      CategoryTotal(cs, f.id, Ventilator),
      CategoryTotal(cs, f.id, Isolation),
      CategoryTotal(cs, f.id, HomeQuarantine),
      CategoryTotal(cs, f.id, Icu),
      CategoryTotal(cs, f.id, Ventilator),
      CategoryTotal(cs, f.id, Isolation),
      CategoryTotal(cs, f.id, HomeQuarantine))
  }

  /** The summary carries the facility's name and district name, its counts
      are the category totals, each bounded by the facility's patients, and
      each "today" count equals its total. */
  lemma SummaryOfFacts(f: Facility, cs: seq<Consultation>)
    ensures var s := SummaryOf(f, cs);
      && s.facilityName == f.name && s.district == f.districtName
      && s.totalIcu == CategoryTotal(cs, f.id, Icu)
      && s.totalVentilator == CategoryTotal(cs, f.id, Ventilator)
      && s.totalIsolation == CategoryTotal(cs, f.id, Isolation)
      && s.totalHomeQuarantine == CategoryTotal(cs, f.id, HomeQuarantine)
      && s.todayIcu == s.totalIcu && s.todayVentilator == s.totalVentilator
      && s.todayIsolation == s.totalIsolation
      && s.todayHomeQuarantine == s.totalHomeQuarantine
      && s.totalIcu + s.totalVentilator + s.totalIsolation
         <= |PatientsOf(AtFacility(cs, f.id))|
  {
    var kept := OnePerPatient(AtFacility(cs, f.id));
    DistinctPatientsCount(kept);
    BedCategoriesExclusive(kept);
  }

  /** ICU, ventilator and isolation are values of the same field, so no
      consultation is counted in two of them. */
  lemma {:induction false} BedCategoriesExclusive(cs: seq<Consultation>)
    ensures CountIn(cs, Icu) + CountIn(cs, Ventilator) + CountIn(cs, Isolation) <= |cs|
  {
    if |cs| > 0 {
      BedCategoriesExclusive(cs[..|cs| - 1]);
    }
  }

  /** The `patient_summary` dictionary in insertion order: one entry per
      facility id, from its first occurrence in the facility list. */
  function Summaries(facilities: seq<Facility>, cs: seq<Consultation>): (r: seq<(int, Summary)>)
    ensures forall i, j :: 0 <= i < j < |r| ==> r[i].0 != r[j].0
    ensures forall k :: k in KeysOf(r) <==> exists f :: f in facilities && f.id == k
  {
    if |facilities| == 0 then []
    else
      var init := Summaries(facilities[..|facilities| - 1], cs);
      var f := facilities[|facilities| - 1];
      assert facilities == facilities[..|facilities| - 1] + [f];
      if f.id in KeysOf(init) then init
      else
        KeysAppend(init, (f.id, SummaryOf(f, cs)));
        init + [(f.id, SummaryOf(f, cs))]
  }

  function KeysOf(entries: seq<(int, Summary)>): set<int> {
    set e | e in entries :: e.0
  }

  lemma KeysAppend(entries: seq<(int, Summary)>, e: (int, Summary))
    ensures KeysOf(entries + [e]) == KeysOf(entries) + {e.0}
  {
    forall k | k in KeysOf(entries + [e]) ensures k in KeysOf(entries) + {e.0} {
      var x :| x in entries + [e] && x.0 == k;
      if x != e {
        assert x in entries;
      }
    }
    forall k | k in KeysOf(entries) ensures k in KeysOf(entries + [e]) {
      var x :| x in entries && x.0 == k;
      assert x in entries + [e];
    }
    assert e in entries + [e];
  }

  // ---------------------------------------------------------------------------
  // The snapshot store
  // ---------------------------------------------------------------------------

  const PatientSummaryType := "PatientSummary"

  /** Stored data: the summary plus the `modified_date` string. */
  datatype SnapshotData = SnapshotData(summary: Summary, modifiedDate: string)

  /** A `FacilityRelatedSummary` row; `createdDate` is a timestamp in minutes. */
  datatype SnapshotRow = SnapshotRow(facility: int, sType: string, createdDate: int, data: SnapshotData)

  /** The table's rows and the number of saves made so far. */
  datatype StoreState = StoreState(rows: seq<SnapshotRow>, saves: nat)

  predicate IsToday(row: SnapshotRow, facility: int, day: int) {
    row.facility == facility && row.sType == PatientSummaryType &&
    Availability.DateOf(row.createdDate) == day
  }

  /** At most one `PatientSummary` snapshot per facility and day. */
  predicate OnePerDay(rows: seq<SnapshotRow>) {
    forall i, j :: (0 <= i < j < |rows| && rows[i].sType == PatientSummaryType &&
                    rows[j].sType == PatientSummaryType && rows[i].facility == rows[j].facility) ==>
      Availability.DateOf(rows[i].createdDate) != Availability.DateOf(rows[j].createdDate)
  }

  /** The index of the facility's snapshot of `day`, if there is one. */
  function TodayRow(rows: seq<SnapshotRow>, facility: int, day: int): (r: Option<nat>)
    ensures r.None? <==> forall i :: 0 <= i < |rows| ==> !IsToday(rows[i], facility, day)
    ensures r.Some? ==> r.value < |rows| && IsToday(rows[r.value], facility, day)
  {
    if |rows| == 0 then None
    else if IsToday(rows[0], facility, day) then Some(0)
    else
      match TodayRow(rows[1..], facility, day)
      case None =>
        assert forall i :: 1 <= i < |rows| ==> rows[i] == rows[1..][i - 1];
        None
      case Some(i) => Some(i + 1)
  }

  /** Under `OnePerDay` the facility's snapshot of the day is unique, so the
      lookup of line 89 finds exactly the row whose existence line 88 saw. */
  lemma TodayRowUnique(rows: seq<SnapshotRow>, facility: int, day: int, i: nat)
    requires OnePerDay(rows)
    requires i < |rows| && IsToday(rows[i], facility, day)
    ensures TodayRow(rows, facility, day) == Some(i)
  {
    var j := TodayRow(rows, facility, day).value;
    if j != i {
      assert false;
    }
  }

  /** One pass of the second loop for facility `facility` at time `now`
      (`stamp` is `now` formatted as the `modified_date` string). */
  function RecordSpec(st: StoreState, facility: int, summary: Summary, now: int, stamp: string): StoreState {
    match TodayRow(st.rows, facility, Availability.DateOf(now))
    case None =>
      StoreState(st.rows + [SnapshotRow(facility, PatientSummaryType, now, SnapshotData(summary, stamp))],
                 st.saves + 1)
    case Some(i) =>
      if st.rows[i].data.summary == summary then st
      else StoreState(st.rows[i := st.rows[i].(createdDate := now, data := SnapshotData(summary, stamp))],
                      st.saves + 1)
  }

  /** Afterwards the facility's snapshot of the day holds `summary`; a record
      that does not save changes nothing, and one that does saves once and
      adds at most one row. */
  lemma RecordFacts(st: StoreState, facility: int, summary: Summary, now: int, stamp: string)
    ensures var st' := RecordSpec(st, facility, summary, now, stamp);
      var day := Availability.DateOf(now);
      && (st'.saves == st.saves ==> st' == st)
      && (st'.saves != st.saves ==> st'.saves == st.saves + 1)
      && TodayRow(st'.rows, facility, day).Some?
      && st'.rows[TodayRow(st'.rows, facility, day).value].data.summary == summary
      && |st.rows| <= |st'.rows| <= |st.rows| + 1
  {
    var day := Availability.DateOf(now);
    var st' := RecordSpec(st, facility, summary, now, stamp);
    match TodayRow(st.rows, facility, day)
    case None =>
      assert IsToday(st'.rows[|st.rows|], facility, day);
      TodayAppended(st.rows, st'.rows[|st.rows|], facility, day);
    case Some(i) =>
      if st.rows[i].data.summary != summary {
        TodayUpdated(st.rows, i, st'.rows[i], facility, day);
      }
  }

  /** With one snapshot per facility and day, recording saves exactly when the
      day's snapshot is missing or holds a different summary. */
  lemma RecordSavesIff(st: StoreState, facility: int, summary: Summary, now: int, stamp: string)
    requires OnePerDay(st.rows)
    ensures var st' := RecordSpec(st, facility, summary, now, stamp);
      var day := Availability.DateOf(now);
      st'.saves == st.saves <==>
        exists i :: (0 <= i < |st.rows| && IsToday(st.rows[i], facility, day) &&
                     st.rows[i].data.summary == summary)
  {
    var day := Availability.DateOf(now);
    forall k | 0 <= k < |st.rows| && IsToday(st.rows[k], facility, day)
      ensures TodayRow(st.rows, facility, day) == Some(k)
    {
      TodayRowUnique(st.rows, facility, day, k);
    }
  }

  /** Appending a snapshot of `day` where there was none makes it the day's row. */
  lemma TodayAppended(rows: seq<SnapshotRow>, row: SnapshotRow, facility: int, day: int)
    requires TodayRow(rows, facility, day).None?
    requires IsToday(row, facility, day)
    ensures TodayRow(rows + [row], facility, day) == Some(|rows|)
  {
    var rows' := rows + [row];
    assert rows'[|rows|] == row;
    FirstToday(rows', facility, day, |rows|);
    var v := TodayRow(rows', facility, day).value;
    if v < |rows| {
      assert false;
    }
  }

  /** Rewriting the day's row in place keeps it the day's row. */
  lemma TodayUpdated(rows: seq<SnapshotRow>, i: nat, row: SnapshotRow, facility: int, day: int)
    requires TodayRow(rows, facility, day) == Some(i)
    requires IsToday(row, facility, day)
    ensures TodayRow(rows[i := row], facility, day) == Some(i)
  {
    var rows' := rows[i := row];
    FirstToday(rows', facility, day, i);
    var v := TodayRow(rows', facility, day).value;
    if v < i {
      assert rows'[v] == rows[v];
      FirstToday(rows, facility, day, v);
      assert false;
    }
  }

  /** `TodayRow` finds the first matching row. */
  lemma FirstToday(rows: seq<SnapshotRow>, facility: int, day: int, k: nat)
    requires k < |rows| && IsToday(rows[k], facility, day)
    ensures TodayRow(rows, facility, day).Some?
    ensures TodayRow(rows, facility, day).value <= k
    ensures TodayRow(rows, facility, day).value == k ||
      (k > 0 && exists j :: 0 <= j < k && IsToday(rows[j], facility, day))
  {
    if k > 0 && !IsToday(rows[0], facility, day) {
      assert rows[1..][k - 1] == rows[k];
      FirstToday(rows[1..], facility, day, k - 1);
      var r := TodayRow(rows[1..], facility, day).value;
      if r != k - 1 {
        var j :| 0 <= j < k - 1 && IsToday(rows[1..][j], facility, day);
        assert rows[j + 1] == rows[1..][j];
      }
    }
  }

  /** Recording never creates a second snapshot of the same facility and day. */
  lemma RecordKeepsOnePerDay(st: StoreState, facility: int, summary: Summary, now: int, stamp: string)
    requires OnePerDay(st.rows)
    ensures OnePerDay(RecordSpec(st, facility, summary, now, stamp).rows)
  {
    var day := Availability.DateOf(now);
    var rows' := RecordSpec(st, facility, summary, now, stamp).rows;
    match TodayRow(st.rows, facility, day)
    case None =>
      forall i, j | 0 <= i < j < |rows'| && rows'[i].sType == PatientSummaryType &&
        rows'[j].sType == PatientSummaryType && rows'[i].facility == rows'[j].facility
        ensures Availability.DateOf(rows'[i].createdDate) != Availability.DateOf(rows'[j].createdDate)
      {
        if j == |st.rows| {
          assert !IsToday(st.rows[i], facility, day);
        }
      }
    case Some(k) =>
  }

  /** The whole second loop: every entry recorded in dictionary order. */
  function RunSpec(st: StoreState, entries: seq<(int, Summary)>, now: int, stamp: string): StoreState {
    if |entries| == 0 then st
    else
      var e := entries[|entries| - 1];
      RecordSpec(RunSpec(st, entries[..|entries| - 1], now, stamp), e.0, e.1, now, stamp)
  }

  /** A run keeps at most one snapshot per facility and day, and saves at most
      once per entry. */
  lemma {:induction false} RunKeepsOnePerDay(st: StoreState, entries: seq<(int, Summary)>, now: int, stamp: string)
    requires OnePerDay(st.rows)
    ensures OnePerDay(RunSpec(st, entries, now, stamp).rows)
    ensures st.saves <= RunSpec(st, entries, now, stamp).saves <= st.saves + |entries|
  {
    if |entries| > 0 {
      var e := entries[|entries| - 1];
      var mid := RunSpec(st, entries[..|entries| - 1], now, stamp);
      RunKeepsOnePerDay(st, entries[..|entries| - 1], now, stamp);
      RecordKeepsOnePerDay(mid, e.0, e.1, now, stamp);
      RecordFacts(mid, e.0, e.1, now, stamp);
    }
  }

  /** Every entry's summary is the stored summary of its facility for the day. */
  predicate Stored(st: StoreState, entries: seq<(int, Summary)>, day: int) {
    forall e :: e in entries ==>
      TodayRow(st.rows, e.0, day).Some? &&
      st.rows[TodayRow(st.rows, e.0, day).value].data.summary == e.1
  }

  /** Recording one facility leaves another facility's snapshot of the day alone. */
  lemma RecordOtherFacility(st: StoreState, facility: int, summary: Summary, now: int, stamp: string, other: int)
    requires other != facility
    ensures var st' := RecordSpec(st, facility, summary, now, stamp);
      var day := Availability.DateOf(now);
      TodayRow(st'.rows, other, day) == TodayRow(st.rows, other, day) &&
      (TodayRow(st.rows, other, day).Some? ==>
        st'.rows[TodayRow(st.rows, other, day).value] == st.rows[TodayRow(st.rows, other, day).value])
  {
    var day := Availability.DateOf(now);
    var rows' := RecordSpec(st, facility, summary, now, stamp).rows;
    assert forall i :: 0 <= i < |st.rows| ==> (rows'[i].facility == other <==> st.rows[i].facility == other);
    assert forall i :: 0 <= i < |st.rows| && st.rows[i].facility == other ==> rows'[i] == st.rows[i];
    SameTodayRows(st.rows, rows', other, day);
  }

  /** Two tables that agree on one facility's rows (and differ only by rows
      of other facilities appended) find the same row of the day. */
  lemma SameTodayRows(rows: seq<SnapshotRow>, rows': seq<SnapshotRow>, facility: int, day: int)
    requires |rows| <= |rows'|
    requires forall i :: 0 <= i < |rows| ==> (rows'[i].facility == facility <==> rows[i].facility == facility)
    requires forall i :: 0 <= i < |rows| && rows[i].facility == facility ==> rows'[i] == rows[i]
    requires forall i :: |rows| <= i < |rows'| ==> rows'[i].facility != facility
    ensures TodayRow(rows', facility, day) == TodayRow(rows, facility, day)
  {
    var r := TodayRow(rows, facility, day);
    var r' := TodayRow(rows', facility, day);
    if r.Some? {
      FirstToday(rows', facility, day, r.value);
      if r'.value != r.value {
        FirstToday(rows, facility, day, r'.value);
        assert false;
      }
    }
  }

  /** After a run whose entries have distinct facilities, each facility's
      snapshot of the day holds that facility's summary. */
  lemma {:induction false} RunStores(st: StoreState, entries: seq<(int, Summary)>, now: int, stamp: string)
    requires forall i, j :: 0 <= i < j < |entries| ==> entries[i].0 != entries[j].0
    ensures Stored(RunSpec(st, entries, now, stamp), entries, Availability.DateOf(now))
  {
    if |entries| > 0 {
      var day := Availability.DateOf(now);
      var init := entries[..|entries| - 1];
      var e := entries[|entries| - 1];
      var mid := RunSpec(st, init, now, stamp);
      var st' := RecordSpec(mid, e.0, e.1, now, stamp);
      RunStores(st, init, now, stamp);
      RecordFacts(mid, e.0, e.1, now, stamp);
      forall x | x in entries
        ensures TodayRow(st'.rows, x.0, day).Some? &&
          st'.rows[TodayRow(st'.rows, x.0, day).value].data.summary == x.1
      {
        if x != e {
          var k :| 0 <= k < |entries| && entries[k] == x;
          assert k < |entries| - 1;
          assert x in init;
          RecordOtherFacility(mid, e.0, e.1, now, stamp, x.0);
        }
      }
    }
  }

  /** A run over a store that already holds every entry's summary for the day
      changes nothing and saves nothing. */
  lemma {:induction false} RunOverStoredIsNoop(st: StoreState, entries: seq<(int, Summary)>, now: int, stamp: string)
    requires Stored(st, entries, Availability.DateOf(now))
    ensures RunSpec(st, entries, now, stamp) == st
  {
    if |entries| > 0 {
      var e := entries[|entries| - 1];
      RunOverStoredIsNoop(st, entries[..|entries| - 1], now, stamp);
    }
  }

  /** Run twice on the same day with unchanged inputs, the second run writes
      nothing. */
  lemma SecondRunWritesNothing(st: StoreState, entries: seq<(int, Summary)>, now: int, stamp: string, later: int, laterStamp: string)
    requires forall i, j :: 0 <= i < j < |entries| ==> entries[i].0 != entries[j].0
    requires Availability.DateOf(later) == Availability.DateOf(now)
    ensures var first := RunSpec(st, entries, now, stamp);
      RunSpec(first, entries, later, laterStamp) == first
  {
    RunStores(st, entries, now, stamp);
    RunOverStoredIsNoop(RunSpec(st, entries, now, stamp), entries, later, laterStamp);
  }

  /** The `FacilityRelatedSummary` table as seen by `PatientSummary`. */
  class SummaryStore {
    var rows: seq<SnapshotRow>
    /** The number of `save()` calls made on this table. */
    var saves: nat

    function State(): StoreState
      reads this
    {
      StoreState(rows, saves)
    }

    predicate Valid()
      reads this
    {
      OnePerDay(rows)
    }

    constructor (initial: seq<SnapshotRow>)
      requires OnePerDay(initial)
      ensures Valid()
      ensures rows == initial && saves == 0
    {
      rows := initial;
      saves := 0;
    }

    /** Compare-and-upsert of one facility's summary at time `now`. */
    method Record(facility: int, summary: Summary, now: int, stamp: string)
      requires Valid()
      modifies this
      ensures Valid()
      ensures State() == RecordSpec(old(State()), facility, summary, now, stamp)
    {
      RecordKeepsOnePerDay(State(), facility, summary, now, stamp);
      var day := Availability.DateOf(now);
      match TodayRow(rows, facility, day)
      case None =>
        rows := rows + [SnapshotRow(facility, PatientSummaryType, now, SnapshotData(summary, stamp))];
        saves := saves + 1;
      case Some(i) =>
        var stored := rows[i];
        if stored.data.summary != summary {
          rows := rows[i := stored.(createdDate := now, data := SnapshotData(summary, stamp))];
          saves := saves + 1;
        }
    }

    /** `PatientSummary()`: build the summary dictionary over all facilities,
        then record each entry in insertion order. */
    method Run(facilities: seq<Facility>, consultations: seq<Consultation>, now: int, stamp: string)
      requires Valid()
      modifies this
      ensures Valid()
      ensures State() == RunSpec(old(State()), Summaries(facilities, consultations), now, stamp)
    {
      var summaries, order := CollectSummaries(facilities, consultations);
      ghost var entries := Summaries(facilities, consultations);
      ghost var start := State();
      var j := 0;
      while j < |order|
        invariant 0 <= j <= |order|
        invariant Valid()
        invariant State() == RunSpec(start, entries[..j], now, stamp)
      {
        assert entries[..j + 1][..j] == entries[..j];
        assert entries[..j + 1][j] == (order[j], summaries[order[j]]);
        Record(order[j], summaries[order[j]], now, stamp);
        j := j + 1;
      }
      assert entries[..|order|] == entries;
    }
  }

  /** `summaries` with key order `order` is the dictionary `entries`. */
  predicate Represents(summaries: map<int, Summary>, order: seq<int>, entries: seq<(int, Summary)>) {
    && |order| == |entries|
    && summaries.Keys == KeysOf(entries)
    && forall k :: 0 <= k < |order| ==>
         order[k] == entries[k].0 && order[k] in summaries && summaries[order[k]] == entries[k].1
  }

  lemma RepresentsAppend(summaries: map<int, Summary>, order: seq<int>, entries: seq<(int, Summary)>, e: (int, Summary))
    requires Represents(summaries, order, entries)
    requires e.0 !in summaries
    ensures Represents(summaries[e.0 := e.1], order + [e.0], entries + [e])
  {
    KeysAppend(entries, e);
    forall k | 0 <= k < |entries| ensures entries[k].0 != e.0 {
      assert entries[k] in entries;
    }
  }

  /** The first loop of `PatientSummary()`: the summary dictionary, as a map
      and its keys in insertion order. */
  method CollectSummaries(facilities: seq<Facility>, consultations: seq<Consultation>)
    returns (summaries: map<int, Summary>, order: seq<int>)
    ensures Represents(summaries, order, Summaries(facilities, consultations))
  {
    summaries := map[];
    order := [];
    var i := 0;
    while i < |facilities|
      invariant 0 <= i <= |facilities|
      invariant Represents(summaries, order, Summaries(facilities[..i], consultations))
    {
      var f := facilities[i];
      assert facilities[..i + 1][..i] == facilities[..i];
      assert facilities[..i + 1][i] == f;
      if f.id !in summaries {
        RepresentsAppend(summaries, order, Summaries(facilities[..i], consultations), (f.id, SummaryOf(f, consultations)));
        summaries := summaries[f.id := SummaryOf(f, consultations)];
        order := order + [f.id];
      }
      i := i + 1;
    }
    assert facilities[..|facilities|] == facilities;
  }

  // ---------------------------------------------------------------------------
  // Who may list which snapshots
  // ---------------------------------------------------------------------------

  /** `get_queryset`'s tiers, checked in order: superusers see every facility,
      users at or above DistrictAdmin their district, users at or above
      StateLabAdmin their state, everyone else the facilities they belong to. */
  predicate MaySee(u: User, tv: TypeValues, f: Facility) {
    if u.isSuperuser then true
    else if u.userType >= tv.districtAdmin then f.district == u.district
    else if u.userType >= tv.stateLabAdmin then f.state == u.state
    else u.id in f.users
  }

  /** The `PatientSummary` snapshots a user may list. `facilities` maps a
      facility id to the facility; a snapshot whose facility is not in it is
      not listed (the join finds no facility). */
  function VisibleSnapshots(u: User, tv: TypeValues, rows: seq<SnapshotRow>, facilities: map<int, Facility>): (r: seq<SnapshotRow>)
    ensures forall row :: row in r <==>
      row in rows && row.sType == PatientSummaryType && row.facility in facilities &&
      MaySee(u, tv, facilities[row.facility])
    ensures |r| <= |rows|
  {
    if |rows| == 0 then []
    else
      var init := VisibleSnapshots(u, tv, rows[..|rows| - 1], facilities);
      var row := rows[|rows| - 1];
      assert rows == rows[..|rows| - 1] + [row];
      if row.sType == PatientSummaryType && row.facility in facilities &&
         MaySee(u, tv, facilities[row.facility])
      then init + [row] else init
  }

  /** The tiers as one disjunction: the state tier applies only below
      DistrictAdmin, and membership counts only below StateLabAdmin and
      DistrictAdmin. */
  lemma VisibilityTiers(u: User, tv: TypeValues, f: Facility)
    ensures MaySee(u, tv, f) <==>
      || u.isSuperuser
      || (u.userType >= tv.districtAdmin && f.district == u.district)
      || (tv.stateLabAdmin <= u.userType < tv.districtAdmin && f.state == u.state)
      || (u.userType < tv.stateLabAdmin && u.userType < tv.districtAdmin && u.id in f.users)
  {
  }

  /** A user at or above DistrictAdmin who is not a superuser sees exactly the
      facilities of their district: being a member of, or sharing the state
      with, a facility elsewhere grants nothing. */
  lemma DistrictAdminSeesOwnDistrictOnly(u: User, tv: TypeValues, f: Facility)
    requires !u.isSuperuser && u.userType >= tv.districtAdmin
    ensures MaySee(u, tv, f) <==> f.district == u.district
  {
  }
}
