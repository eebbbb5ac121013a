# Care core rules in Dafny

This project models the core rules of the Care hospital management backend
(a Django application) and proves properties about them. It covers:

- **Appointment scheduling.**
  - Slot generation for a day: `convert_availability_to_slots`, and how the slot handler picks the windows of the day.
  - Token booking.
  - The per-day availability statistics and `calculate_slots`.
  - The schedule and availability validators.
- **Questionnaire responses.**
  - `check_required`, `validate_data` and `validate_question_result`.
  - Flattening answers into observations: `create_observation_spec` and `convert_to_observation_spec`.
  - The checks that `handle_response` runs before it writes anything.
- **Facility patient summary.** The per-facility counts, the once-a-day compare-and-upsert of the snapshot rows, and the role-tiered visibility filter.
- **Resource requests.** `inverse_choices`, `has_facility_permission`, the status guard of `update`, `create`, and the comment check.
- **Facility serializer checks.** The middleware address, the feature list, and the hub/spoke link validation, with the link table they guard.
- **Value sets.** `create_composition` as written and as corrected, and `search`/`lookup` over the corrected grouping.
- **Questionnaire organisation caches.** `sync_questionnaire_cache` of both link models.
- **Roles.** The legacy role mapping and the role registry.
- **Patient resource.** The create-time rules, the year of birth, and the partial view.

Representation choices:

- Times are minutes. A date is a day number, and `DateOf` turns a timestamp into its day.
- Strings are `seq<char>`. Whitespace and case handling is ASCII.
- Database tables are sequences of rows.
- Objects whose fields the code updates in place are classes. These are a token slot, a resource request, the hub/spoke table, the summary store, a questionnaire and its link tables, the role controller, and a patient.

Some things the code reads from outside the model are passed in as parameters:

- The clock (`now`, the current year).
- Fresh UUIDs (a counter, or a `freshId` argument).
- The user-type thresholds of `User.TYPE_VALUE_MAP` (`Users.TypeValues`).
- The middleware domain validator.
- The terminology server's `$expand` and `$validate-code` answers.
- The `validate_valueset` answer.
- The patient queryset allowed to a user.

## Model

| member | source | states |
|---|---|---|
| Availability.Weekday | care/emr/api/viewsets/scheduling/availability.py:127 | `date.weekday()` is a day of the week, 0 to 6 |
| Availability.WeekdayPeriodic | care/emr/api/viewsets/scheduling/availability.py:297 | weekdays repeat every seven days |
| Availability.ValidateStatsPeriod | care/emr/api/viewsets/scheduling/availability.py:44-50 | the stats period check as written refuses a range exactly when it is reversed |
| Availability.PeriodCapNeverFires | care/emr/api/viewsets/scheduling/availability.py:49-50 | a 100-day range passes the check as written, although it exceeds the 32-day cap |
| Availability.ValidateStatsPeriodCapped | care/emr/api/viewsets/scheduling/availability.py:44-50 | corrected check: refuses a reversed range or one longer than 32 days, and accepts only what the written check accepts |
| Availability.RowEntries | care/emr/api/viewsets/scheduling/availability.py:126-134 | every entry taken from a row is on the requested weekday and carries the row's id and slot size |
| Availability.DayEntries | care/emr/api/viewsets/scheduling/availability.py:124-134 | every collected entry is on the requested weekday |
| Availability.CollectDayEntries | care/emr/api/viewsets/scheduling/availability.py:124-134 | the collecting loop yields exactly the day's entries, rows in query order |
| Availability.InsertAppend | care/emr/api/viewsets/scheduling/availability.py:67-75 | writing two runs of slots into the dict is writing the first, then the second |
| Availability.SlotsFromShape | care/emr/api/viewsets/scheduling/availability.py:60-77 | the k-th slot starts k slot sizes after the window start and before its end; consecutive slots are contiguous; the failsafe bounds the count |
| Availability.EntrySlotsBound | care/emr/api/viewsets/scheduling/availability.py:63-66 | the failsafe lets at most 29 slots out of one entry |
| Availability.EntrySlotFacts | care/emr/api/viewsets/scheduling/availability.py:62-77 | each slot lies in the window, starts k sizes in, carries the entry's availability id, ends one size later (wrapping at midnight), and meets the next slot |
| Availability.ConvertEntry | care/emr/api/viewsets/scheduling/availability.py:60-77 | the loop for one entry writes the entry's slots into the dict in order |
| Availability.ConvertAvailabilityToSlots | care/emr/api/viewsets/scheduling/availability.py:53-78 | the dict is every slot of every entry written under its key, in order |
| Availability.InsertKeys | care/emr/api/viewsets/scheduling/availability.py:67-75 | the dict holds exactly the keys of the written slots |
| Availability.InsertLast | care/emr/api/viewsets/scheduling/availability.py:67-75 | each key holds the last slot written under it |
| Availability.InsertLastWins | care/emr/api/viewsets/scheduling/availability.py:67-75 | the keys are exactly those written, and a later slot with the same start and end overwrites an earlier one |
| Availability.ConvertedSlotsGenerated | care/emr/api/viewsets/scheduling/availability.py:53-78 | every stored slot is filed under its own key and is a slot some entry generates |
| Availability.AllSlotsIndex | care/emr/api/viewsets/scheduling/availability.py:55 | every slot of the concatenation comes from some entry's slots |
| Availability.SlotsToCreate | care/emr/api/viewsets/scheduling/availability.py:144-164 | the created slots are the generated ones minus those already stored with the same key and availability |
| Availability.OnlyMatchingWeekday | care/emr/api/viewsets/scheduling/availability.py:125-137 | only windows on the requested weekday produce slots |
| Availability.TokenSlot.Book | care/emr/api/viewsets/scheduling/availability.py:81-93 | a full slot refuses with "Slot is already full" and is unchanged; otherwise allocation grows by one and a "booked" booking is returned; capacity is kept |
| Availability.Conflicting | care/emr/api/viewsets/scheduling/availability.py:307-313 | the flag is set exactly when some exception starts by the window end and ends no earlier than the slot start |
| Availability.StepStaysInDay | care/emr/api/viewsets/scheduling/availability.py:314-317 | in a window that stays in the day, each step lands before midnight and equals the closed form |
| Availability.CountWindow | care/emr/api/viewsets/scheduling/availability.py:306-320 | the `<=` loop over one window counts the tokens of its non-conflicting starts |
| Availability.WindowCountFrom | care/emr/api/viewsets/scheduling/availability.py:306-320 | the specification of the window loop from one start on; `CountWindow`, `WindowCountNoExceptions` and `WindowCountMonotone` state its properties |
| Availability.MatchingWindows | care/emr/api/viewsets/scheduling/availability.py:301-303 | only windows on the day's weekday are walked |
| Availability.RowWindows | care/emr/api/viewsets/scheduling/availability.py:300-303 | a row's walked windows are on the day's weekday |
| Availability.ScheduleWindows | care/emr/api/viewsets/scheduling/availability.py:300-303 | a schedule's walked windows are on the day's weekday |
| Availability.DayWindows | care/emr/api/viewsets/scheduling/availability.py:299-303 | the day's walked windows are on its weekday |
| Availability.SumWindowsAppend | care/emr/api/viewsets/scheduling/availability.py:299-320 | the count over two lists of windows is the sum of their counts |
| Availability.AllStayInDayAppend | care/emr/api/viewsets/scheduling/availability.py:306 | two lists stay in the day exactly when each does |
| Availability.MatchingWindowsStep | care/emr/api/viewsets/scheduling/availability.py:301-303 | one more window is walked exactly when it is on the weekday |
| Availability.MatchingWindowsPrefix | care/emr/api/viewsets/scheduling/availability.py:301-306 | the windows of a prefix stay in the day when all do |
| Availability.CountRow | care/emr/api/viewsets/scheduling/availability.py:301-320 | the loops over one row sum the counts of its windows on the weekday |
| Availability.ScheduleWindowsPrefix | care/emr/api/viewsets/scheduling/availability.py:300 | the windows of a prefix of rows stay in the day when all do |
| Availability.CountSchedule | care/emr/api/viewsets/scheduling/availability.py:300-320 | the loops over a schedule's rows sum their window counts |
| Availability.DayWindowsPrefix | care/emr/api/viewsets/scheduling/availability.py:299 | the windows of a prefix of schedules stay in the day when all do |
| Availability.CalculateSlots | care/emr/api/viewsets/scheduling/availability.py:290-321 | `calculate_slots` returns the token sum over the day's windows |
| Availability.DaySlots | care/emr/api/viewsets/scheduling/availability.py:290-321 | the specification of `calculate_slots`, the token sum over the day's windows; `CalculateSlots`, `DaySlotsMonotone` and `OtherWeekdaysIgnored` state its properties |
| Availability.WindowCountNoExceptions | care/emr/api/viewsets/scheduling/availability.py:306-320 | with no exceptions a window counts `((end - start) / size + 1) * tokens` |
| Availability.EmptyWindow | care/emr/api/viewsets/scheduling/availability.py:306 | a window that starts after its end counts nothing |
| Availability.WindowCountMonotone | care/emr/api/viewsets/scheduling/availability.py:307-320 | with non-negative tokens a window's count is non-negative, and more exceptions never raise it |
| Availability.SumWindowsMonotone | care/emr/api/viewsets/scheduling/availability.py:299-320 | the same for a list of windows |
| Availability.DaySlotsMonotone | care/emr/api/viewsets/scheduling/availability.py:290-321 | the same for a day's count |
| Availability.OtherWeekdaysIgnored | care/emr/api/viewsets/scheduling/availability.py:302-303 | windows on other weekdays contribute nothing |
| Availability.MatchingWindowsComplete | care/emr/api/viewsets/scheduling/availability.py:301-303 | every window on the weekday is walked |
| Availability.ApplicableSchedules | care/emr/api/viewsets/scheduling/availability.py:252-255 | a schedule is kept exactly when the day lies between the dates of its validity bounds |
| Availability.ApplicableExceptions | care/emr/api/viewsets/scheduling/availability.py:257-260 | an exception is kept exactly when the day lies in its date range |
| Availability.FilterSchedules | care/emr/api/viewsets/scheduling/availability.py:252-255 | the loop keeps exactly the applicable schedules, in order |
| Availability.FilterExceptions | care/emr/api/viewsets/scheduling/availability.py:257-260 | the loop keeps exactly the applicable exceptions, in order |
| Availability.EnumerateDays | care/emr/api/viewsets/scheduling/availability.py:242-248 | one zeroed entry per day from `from_date` inclusive to `to_date` exclusive |
| Availability.CountDay | care/emr/api/viewsets/scheduling/availability.py:250-265 | one day's total is `calculate_slots` over what applies to it |
| Availability.CountDays | care/emr/api/viewsets/scheduling/availability.py:250-267 | every day of the range gets its total and nothing else changes |
| Availability.ApplyBooked | care/emr/api/viewsets/scheduling/availability.py:281-284 | a booked date outside the range raises; otherwise each day gets the last booked sum for it |
| Availability.AvailabilityStats | care/emr/api/viewsets/scheduling/availability.py:206-287 | with the 32-day cap as intended: refusal exactly for a reversed range, a range over 32 days, or a booked date outside the range; otherwise per day its total and booked sums |
| ScheduleSpec.ValidateAvailability | care/emr/resources/scheduling/schedule/spec.py:43-55 | the list passes exactly when no two entries on the same day overlap; otherwise the overlap error |
| ScheduleSpec.OverlappingSymmetric | care/emr/resources/scheduling/schedule/spec.py:47-53 | overlap does not depend on which entry comes first |
| ScheduleSpec.DisjointMeansSeparated | care/emr/resources/scheduling/schedule/spec.py:50-54 | in an accepted list, two windows on the same day are strictly separated |
| ScheduleSpec.FieldBoundsError | care/emr/resources/scheduling/schedule/spec.py:61-62 | no error exactly when each given slot size and token count is at least 1 |
| ScheduleSpec.ValidateSlotFields | care/emr/resources/scheduling/schedule/spec.py:61-79 | the specification of both slot-field checks together; `ValidatedSlotFields` states its properties |
| ScheduleSpec.AvailabilityForSchedule.ValidateForSlotType | care/emr/resources/scheduling/schedule/spec.py:67-79 | an appointment needs a truthy slot size, then a truthy token count; any other slot type clears both |
| ScheduleSpec.ValidatedSlotFields | care/emr/resources/scheduling/schedule/spec.py:61-79 | an accepted appointment has both fields, each at least 1; any other accepted type has neither |
| ScheduleSpec.ValidatePeriod | care/emr/resources/scheduling/schedule/spec.py:97-101 | a schedule period is refused exactly when `valid_from > valid_to` |
| ScheduleSpec.ValidateValidityUpdate | care/emr/resources/scheduling/schedule/spec.py:122-152 | an update is refused exactly when the allocated sums over the old and the new range differ, and the error carries both sums |
| ScheduleSpec.UnchangedRangeAccepted | care/emr/resources/scheduling/schedule/spec.py:122-152 | keeping the validity range is always accepted |
| ScheduleSpec.NarrowedSum | care/emr/resources/scheduling/schedule/spec.py:125-145 | narrowing the range never raises the allocated sum, and lowers it when it drops an allocated slot |
| ScheduleSpec.ShrinkDroppingAllocationRefused | care/emr/resources/scheduling/schedule/spec.py:147-152 | shrinking the range so that it drops an allocated slot is refused |
| QuestionnaireUtils.CheckRequiredTrueIff | care/emr/resources/questionnaire/utils.py:17-27 | `check_required` is true exactly when the question or a group up its parent chain is required |
| QuestionnaireUtils.CheckRequiredFalse | care/emr/resources/questionnaire/utils.py:21-27 | a false answer means no group up the chain is required |
| QuestionnaireUtils.CheckRequiredGivesUp | care/emr/resources/questionnaire/utils.py:23-26 | running out of steps only happens on a chain that repeats, with nothing required on it |
| QuestionnaireUtils.CheckRequired | care/emr/resources/questionnaire/utils.py:17-27 | the specification of `check_required`; the three lemmas above state its properties |
| QuestionnaireUtils.ValidateData | care/emr/resources/questionnaire/utils.py:39-64 | the loop yields exactly the value errors in order |
| QuestionnaireUtils.DataErrors | care/emr/resources/questionnaire/utils.py:30-64 | the specification of `validate_data`; `ValidateData`, `DataErrorsBound`, `UncheckedTypesAccepted` and `BooleanAnswer` state its properties |
| QuestionnaireUtils.DataErrorsBound | care/emr/resources/questionnaire/utils.py:40-44 | at most one error per value; values without a value yield none |
| QuestionnaireUtils.UncheckedTypesAccepted | care/emr/resources/questionnaire/utils.py:46-58 | only integer, decimal, boolean, date, dateTime and time answers are checked |
| QuestionnaireUtils.BooleanAnswer | care/emr/resources/questionnaire/utils.py:50-52 | a boolean is accepted exactly when it lower-cases to one of "true", "false", "1", "0"; otherwise the error quotes it |
| QuestionnaireUtils.TypeErrors | care/emr/resources/questionnaire/utils.py:113-124 | one `type_error` per message, carrying the question id |
| QuestionnaireUtils.CodingErrorsStop | care/emr/resources/questionnaire/utils.py:126-152 | the first value without a coding ends the loop with "Coding is required"; before it only valueset errors appear |
| QuestionnaireUtils.QuantityErrorsStop | care/emr/resources/questionnaire/utils.py:154-181 | the same for quantities, with "Quantity is required" |
| QuestionnaireUtils.RepeatsCheckFirstOnly | care/emr/resources/questionnaire/utils.py:111-113 | a repeating question is checked on its first value only |
| QuestionnaireUtils.NoValuesNoErrors | care/emr/resources/questionnaire/utils.py:40-41 | with no values there is nothing to type-check |
| QuestionnaireUtils.WalkQuestion | care/emr/resources/questionnaire/utils.py:67-181 | the specification of `validate_question_result`; `WalkQuestionFacts` and the method `ValidateQuestionResult` state its properties |
| QuestionnaireUtils.AnswerOutcomeNamesQuestion | care/emr/resources/questionnaire/utils.py:97-181 | every error of an answered question carries its id |
| QuestionnaireUtils.CodingErrorsName | care/emr/resources/questionnaire/utils.py:129-152 | coding errors carry the question id |
| QuestionnaireUtils.QuantityErrorsName | care/emr/resources/questionnaire/utils.py:155-181 | quantity errors carry the question id |
| QuestionnaireUtils.WalkQuestionFacts | care/emr/resources/questionnaire/utils.py:67-181 | the walk only appends errors, does nothing once raised, and attributes each new error to a question of the walked tree; every required question of the tree missing from the responses is reported "Question not answered" unless the walk raised |
| QuestionnaireUtils.AnsweredAttributed | care/emr/resources/questionnaire/utils.py:87-181 | an answered question's errors are attributed to it and leave the mapping alone |
| QuestionnaireUtils.WalkListFacts | care/emr/resources/questionnaire/utils.py:77-85 | the same over sibling questions, including the report of every unanswered required question |
| QuestionnaireUtils.WalkQuestionKeepsParentsClosed | care/emr/resources/questionnaire/utils.py:70-85 | every parent recorded in the mapping stays a key of it |
| QuestionnaireUtils.WalkListKeepsParentsClosed | care/emr/resources/questionnaire/utils.py:78-85 | the same over sibling questions |
| QuestionnaireUtils.EmptyAnswerOutcome | care/emr/resources/questionnaire/utils.py:97-108 | an empty answer gives exactly one `values_missing` error when required up the chain, else no error |
| QuestionnaireUtils.ResponseValidation.ValidateQuestionResult | care/emr/resources/questionnaire/utils.py:67-181 | the method leaves the errors, mapping and raised flag the walk specifies |
| QuestionnaireUtils.CheckAnswer | care/emr/resources/questionnaire/utils.py:97-181 | the answered-question branch yields the specified outcome |
| QuestionnaireUtils.CheckCodings | care/emr/resources/questionnaire/utils.py:129-152 | the coding loop yields the specified errors |
| QuestionnaireUtils.CheckQuantities | care/emr/resources/questionnaire/utils.py:155-181 | the quantity loop yields the specified errors |
| QuestionnaireUtils.CreateSpec | care/emr/resources/questionnaire/utils.py:185-229 | at most one observation per question, exactly one for a group |
| QuestionnaireUtils.CreateObservationSpec | care/emr/resources/questionnaire/utils.py:185-229 | the loop over the values yields the specified observation and next id |
| QuestionnaireUtils.ConvertToObservationSpec | care/emr/resources/questionnaire/utils.py:232-250 | the recursion yields the specified flattened observations |
| QuestionnaireUtils.ConvertQuestion | care/emr/resources/questionnaire/utils.py:235-246 | the specification of one iteration of `convert_to_observation_spec`; `ConvertQuestionWellFormed` and `ConvertGroupShape` state its properties |
| QuestionnaireUtils.ConvertList | care/emr/resources/questionnaire/utils.py:232-250 | the specification of `convert_to_observation_spec`; `ConvertToObservationSpec` and `ConvertListWellFormed` state its properties |
| QuestionnaireUtils.ConvertGroupShape | care/emr/resources/questionnaire/utils.py:235-242 | a group yields nothing exactly when its children yield nothing; otherwise its observation comes first, with the first fresh id and no parent, immediately followed by its children's observations, which hang under that id |
| QuestionnaireUtils.WellFormedAppend | care/emr/resources/questionnaire/utils.py:242-247 | two well-formed forests with consecutive id ranges concatenate into one |
| QuestionnaireUtils.WellFormedNest | care/emr/resources/questionnaire/utils.py:237-244 | a group observation followed by a non-empty forest of its children is one tree, well formed |
| QuestionnaireUtils.CreateSpecWellFormed | care/emr/resources/questionnaire/utils.py:198-229 | a question's observation has a fresh id and is a single leaf under the given parent |
| QuestionnaireUtils.ConvertQuestionWellFormed | care/emr/resources/questionnaire/utils.py:236-248 | ids are fresh and increasing, all records "final", and the result is nothing or one tree: a leaf under the parent, or a group observation immediately followed by a forest of observations hanging under its id |
| QuestionnaireUtils.ConvertListWellFormed | care/emr/resources/questionnaire/utils.py:232-250 | the same over a list of questions: a forest of such trees under the given parent |
| QuestionnaireUtils.BuildResponses | care/emr/resources/questionnaire/utils.py:275-276 | the loop builds the specified responses dict |
| QuestionnaireUtils.ResponsesLastWins | care/emr/resources/questionnaire/utils.py:275-276 | exactly the submitted ids are keys, each holding the last result sent for it |
| QuestionnaireUtils.HandleResponse | care/emr/resources/questionnaire/utils.py:272-297 | the pre-checks and flattening yield the specified result |
| QuestionnaireUtils.HandleSpec | care/emr/resources/questionnaire/utils.py:272-297 | the specification of the checks of `handle_response` and its flattening; `HandleResponse` and `HandleSpecFacts` state its properties |
| QuestionnaireUtils.HandleSpecFacts | care/emr/resources/questionnaire/utils.py:272-297 | `questionnaire_empty` exactly for no results; every validation error is attributed to a question of the tree: "Question not answered" to a required one missing from the responses, any other error to an answered one; a required question left unanswered makes the submission fail and is listed; on success the observations are a well-formed forest with no parent at the top |
| PatientSummary.AtFacility | care/facility/summarisation/patient_summary.py:55 | keeps exactly the consultations of the facility |
| PatientSummary.OnePerPatient | care/facility/summarisation/patient_summary.py:55-56 | one consultation per patient, drawn from the input, covering every patient |
| PatientSummary.PatientsAppend | care/facility/summarisation/patient_summary.py:55 | one more consultation adds its patient |
| PatientSummary.DistinctPatientsCount | care/facility/summarisation/patient_summary.py:55-56 | with one consultation per patient, there are as many consultations as patients |
| PatientSummary.CountIn | care/facility/summarisation/patient_summary.py:60-63 | a count is at most the number of consultations, and 0 exactly when none is in the category |
| PatientSummary.CategoryTotalBound | care/facility/summarisation/patient_summary.py:60-63 | a total is at most the facility's patients, and 0 exactly when none falls in the category |
| PatientSummary.SummaryOf | care/facility/summarisation/patient_summary.py:60-85 | the specification of one facility's summary; `SummaryOfFacts` states its properties |
| PatientSummary.SummaryOfFacts | care/facility/summarisation/patient_summary.py:60-85 | name and district copied, totals as counted, each today count equal to its total, and ICU + ventilator + isolation at most the patients |
| PatientSummary.BedCategoriesExclusive | care/facility/summarisation/patient_summary.py:60-62 | no consultation is counted in two bed categories |
| PatientSummary.Summaries | care/facility/summarisation/patient_summary.py:50-85 | one entry per facility id, each id once |
| PatientSummary.KeysAppend | care/facility/summarisation/patient_summary.py:74 | adding an entry adds its key |
| PatientSummary.TodayRow | care/facility/summarisation/patient_summary.py:88-89 | finds a snapshot of the facility for the day exactly when one exists |
| PatientSummary.TodayRowUnique | care/facility/summarisation/patient_summary.py:88-89 | with one snapshot per day, the lookup finds the row whose existence was seen |
| PatientSummary.RecordSpec | care/facility/summarisation/patient_summary.py:87-106 | the specification of one compare-and-upsert; `RecordFacts`, `RecordSavesIff` and `RecordKeepsOnePerDay` state its properties |
| PatientSummary.RunSpec | care/facility/summarisation/patient_summary.py:87-107 | the specification of the upsert loop; `RunKeepsOnePerDay`, `RunStores` and `SecondRunWritesNothing` state its properties |
| PatientSummary.RecordFacts | care/facility/summarisation/patient_summary.py:87-106 | an upsert either changes nothing or saves once; afterwards the day's snapshot holds the summary; at most one row is added |
| PatientSummary.RecordSavesIff | care/facility/summarisation/patient_summary.py:96-106 | nothing is saved exactly when the day's snapshot already holds the same summary |
| PatientSummary.TodayAppended | care/facility/summarisation/patient_summary.py:103-106 | an inserted snapshot becomes the day's row |
| PatientSummary.TodayUpdated | care/facility/summarisation/patient_summary.py:98-102 | an updated snapshot stays the day's row |
| PatientSummary.FirstToday | care/facility/summarisation/patient_summary.py:89 | the lookup finds the first matching row |
| PatientSummary.RecordKeepsOnePerDay | care/facility/summarisation/patient_summary.py:87-106 | an upsert never creates a second snapshot for a facility and day |
| PatientSummary.RunKeepsOnePerDay | care/facility/summarisation/patient_summary.py:87-107 | a run keeps one snapshot per facility and day, and saves at most once per entry |
| PatientSummary.RecordOtherFacility | care/facility/summarisation/patient_summary.py:88-106 | an upsert leaves other facilities' snapshots alone |
| PatientSummary.SameTodayRows | care/facility/summarisation/patient_summary.py:88-89 | rows of other facilities do not change a facility's lookup |
| PatientSummary.RunStores | care/facility/summarisation/patient_summary.py:87-106 | after a run each facility's snapshot of the day holds its summary |
| PatientSummary.RunOverStoredIsNoop | care/facility/summarisation/patient_summary.py:96-97 | a run over already stored summaries changes nothing |
| PatientSummary.SecondRunWritesNothing | care/facility/summarisation/patient_summary.py:49-107 | a second run on the same day with the same data writes nothing |
| PatientSummary.SummaryStore.Record | care/facility/summarisation/patient_summary.py:88-106 | the upsert method moves the store as specified and keeps one snapshot per day |
| PatientSummary.SummaryStore.Run | care/facility/summarisation/patient_summary.py:49-107 | `PatientSummary()` records every summary in dictionary order and keeps one snapshot per day |
| PatientSummary.RepresentsAppend | care/facility/summarisation/patient_summary.py:74-85 | adding a new key extends the dictionary and its key order together |
| PatientSummary.CollectSummaries | care/facility/summarisation/patient_summary.py:50-85 | the first loop builds the summary dictionary with its insertion order |
| PatientSummary.VisibleSnapshots | care/facility/summarisation/patient_summary.py:31-44 | a summary snapshot is listed exactly when the user may see its facility |
| PatientSummary.MaySee | care/facility/summarisation/patient_summary.py:31-44 | the specification of the visibility filter; `VisibilityTiers` and `DistrictAdminSeesOwnDistrictOnly` state its properties |
| PatientSummary.VisibilityTiers | care/facility/summarisation/patient_summary.py:35-44 | superuser sees all; DistrictAdmin and above their district; StateLabAdmin and above their state; others their own facilities |
| PatientSummary.DistrictAdminSeesOwnDistrictOnly | care/facility/summarisation/patient_summary.py:40-41 | a district admin sees a facility exactly when it is in their district |
| Resources.Inverse | care/facility/api/serializers/resources.py:21-25 | the inverted dict's keys are exactly the labels |
| Resources.InverseChoices | care/facility/api/serializers/resources.py:21-25 | the loop builds the inverted dict |
| Resources.InverseLastWins | care/facility/api/serializers/resources.py:23-24 | a label maps to the value of its last occurrence |
| Resources.InverseRoundTrip | care/facility/api/serializers/resources.py:21-28 | with distinct labels, inverting gives back every label's value |
| Resources.HasFacilityPermission | care/facility/api/serializers/resources.py:31-45 | the specification of `has_facility_permission`; `FacilityPermissionCases` states its properties |
| Resources.FacilityPermissionCases | care/facility/api/serializers/resources.py:31-45 | no facility grants nothing; superusers and members always pass; an outsider of another district and state never does |
| Resources.LookupAll | care/facility/api/serializers/resources.py:106-108 | the status codes are found exactly when every label is a key; they come in label order |
| Resources.ReceivingStatusGuard | care/facility/api/serializers/resources.py:123-132 | a receiving status is refused exactly when the assigned facility is set, the user is at least a volunteer, and lacks permission on it |
| Resources.ApprovingGuardUnreachable | care/facility/api/serializers/resources.py:133-141 | the approving-facility guard is never reached, so its user-type lookup never raises |
| Resources.UpdateFields | care/facility/api/serializers/resources.py:143-149 | origin facility and patient stay unchanged; last editor set unless sent; sent fields replace, others stay |
| Resources.UpdateWithoutStatus | care/facility/api/serializers/resources.py:98-123 | without a status, an update fails only when a status label is missing from the reverse map |
| Resources.UpdateSpec | care/facility/api/serializers/resources.py:96-149 | the specification of `update`; `UpdateFields`, `ReceivingStatusGuard`, `UpdateWithoutStatus` and the method `ResourceRequest.Update` state its properties |
| Resources.ResourceRequest.Update | care/facility/api/serializers/resources.py:96-149 | the record becomes the specified update, or stays as it was with the error |
| Resources.Create | care/facility/api/serializers/resources.py:151-167 | the method returns the specified created record or error |
| Resources.CreateFields | care/facility/api/serializers/resources.py:151-167 | refused exactly for a related patient outside the allowed set; status dropped; creator and last editor the user; other fields kept |
| Resources.ValidateComment | care/facility/api/serializers/resources.py:180-183 | a refusal is "Comment cannot be empty"; an accepted comment is returned unchanged |
| Resources.CommentRefusedIffBlank | care/facility/api/serializers/resources.py:180-183 | a comment is refused exactly when absent or whitespace only |
| Strings.StripEmptyIffBlank | care/facility/api/serializers/resources.py:181 | `strip()` is empty exactly when the text is whitespace only |
| Strings.StripTrimmed | care/facility/api/serializers/facility.py:130 | stripped text neither starts nor ends with whitespace |
| Strings.Lower | care/emr/resources/questionnaire/utils.py:51 | lower-casing keeps the length and lowers each letter |
| FacilityRules.ValidateMiddlewareAddress | care/facility/api/serializers/facility.py:126-136 | missing or empty is "required"; an accepted address is the stripped value |
| FacilityRules.MiddlewareAddressCases | care/facility/api/serializers/facility.py:126-136 | a blank address becomes "" without validation; a non-blank one passes exactly when the validator accepts it stripped; results have no surrounding whitespace |
| FacilityRules.SetSizeIffDistinct | care/facility/api/serializers/facility.py:139 | a list's set is no larger than the list, and the same size exactly when no value repeats |
| FacilityRules.ValidateFeatures | care/facility/api/serializers/facility.py:138-142 | the specification of `validate_features`; `FeaturesRefusedIffDuplicate` states its properties |
| FacilityRules.FeaturesRefusedIffDuplicate | care/facility/api/serializers/facility.py:138-142 | a feature list is refused exactly when a value repeats; an accepted list is returned unchanged |
| FacilityRules.ValidateSpoke | care/facility/api/serializers/facility.py:180-193 | accepted exactly when the spoke is another facility not linked to the hub in either direction |
| FacilityRules.ValidateLink | care/facility/api/serializers/facility.py:176-178 | the hub becomes the context facility and the other fields are kept |
| FacilityRules.AcceptedLinkKeepsWellLinked | care/facility/api/serializers/facility.py:180-193 | adding an accepted link keeps the table free of self-links and duplicate pairs |
| FacilityRules.HubSpokeStore.CreateLink | care/facility/api/serializers/facility.py:176-193 | a link is stored exactly when the spoke is accepted, with the hub from the context; the table stays well linked |
| ValueSets.NoExcludeListFails | care/emr/models/valueset.py:26 | as written, a compose without an exclude list fails |
| ValueSets.ExcludeOnIncludedSystemFails | care/emr/models/valueset.py:26-30 | as written, excluding codes of a system that has includes fails |
| ValueSets.CompositionAsWritten | care/emr/models/valueset.py:16-31 | the specification of `create_composition` as written; the two lemmas above and `CorrectionKeepsWorkingComposes` state its properties |
| ValueSets.SystemOrderFacts | care/emr/models/valueset.py:21-30 | the systems are in first-seen order, each once, exactly those named |
| ValueSets.EntriesForFacts | care/emr/models/valueset.py:21-30 | a system's entries are exactly the entries naming it |
| ValueSets.IntendedGroupingSystems | care/emr/models/valueset.py:16-31 | the corrected grouping has one group per named system, listed once |
| ValueSets.NoEntriesForUnseen | care/emr/models/valueset.py:21-30 | a system no entry names has no entries |
| ValueSets.PlaceInclude | care/emr/models/valueset.py:21-25 | appending an include to its system's list keeps the grouping exact |
| ValueSets.PlaceExclude | care/emr/models/valueset.py:26-30 | appending an exclude to its system's list keeps the grouping exact |
| ValueSets.CreateComposition | care/emr/models/valueset.py:16-31 | corrected composition: succeeds exactly when every entry names a system, grouping entries by system in first-seen order, with both lists per group |
| ValueSets.IncludeAllGroups | care/emr/models/valueset.py:21-25 | the include loop as written groups the includes exactly |
| ValueSets.ExcludeAllGroups | care/emr/models/valueset.py:26-30 | the exclude loop as written, when it succeeds, adds the excludes exactly |
| ValueSets.CorrectionKeepsWorkingComposes | care/emr/models/valueset.py:16-31 | wherever the written version succeeds, the corrected one has the same systems, order and lists |
| ValueSets.IncludesPartitioned | care/emr/models/valueset.py:21-25 | the per-system lists add up to the whole entry list |
| ValueSets.SearchResultsMembership | care/emr/models/valueset.py:36-41 | a search result is exactly a result of one system's query |
| ValueSets.SearchGrouping | care/emr/models/valueset.py:35-42 | the loop concatenates the per-system results in system order |
| ValueSets.Search | care/emr/models/valueset.py:33-42 | `search` fails only where composition fails; otherwise concatenates over the intended grouping |
| ValueSets.LookupGrouping | care/emr/models/valueset.py:46-49 | the result is true exactly when some system's query accepts the code |
| ValueSets.Lookup | care/emr/models/valueset.py:44-49 | `lookup` is `any` over the intended grouping's systems |
| QuestionnaireCache.CollectedMembers | care/emr/models/questionnaire.py:49-55 | the collected list holds exactly the linked organisations and their ancestors |
| QuestionnaireCache.CollectedAppend | care/emr/models/questionnaire.py:53-55 | a link of another questionnaire adds nothing; one of this questionnaire adds its ancestors and id |
| QuestionnaireCache.CollectCache | care/emr/models/questionnaire.py:52-55 | the loop builds the collected list |
| QuestionnaireCache.Deduplicate | care/emr/models/questionnaire.py:56 | `list(set(cache))` holds the same values, each once |
| QuestionnaireCache.LinkTable.Sync | care/emr/models/questionnaire.py:48-58 | the cache becomes every linked organisation and ancestor exactly once, whatever it held before; only this level's field changes |
| QuestionnaireCache.LinkTable.Save | care/emr/models/questionnaire.py:44-46 | saving a link stores it and leaves the questionnaire synced |
| QuestionnaireCache.SavedLinkCached | care/emr/models/questionnaire.py:44-58 | after a save the linked organisation and its ancestors are cached, along with everything cached before |
| Roles.MapOldRoleToNew | care/security/roles/role.py:62-82 | a role exactly for the known legacy names, otherwise a KeyError; every result is Staff, Nurse, Doctor or Geo Admin |
| Roles.LegacyNamesCount | care/security/roles/role.py:63-81 | the mapping knows exactly 17 names |
| Roles.LegacyAdminsAreGeoAdmins | care/security/roles/role.py:66-80 | "Volunteer" maps to Staff; a name maps to Geo Admin exactly when it is a ward, local body, district or state admin |
| Roles.RoleController.GetRoles | care/security/roles/role.py:47-59 | the 7 built-in roles first, then the registered ones |
| Roles.RoleController.RegisterRole | care/security/roles/role.py:84-87 | registering appends to the list without deduplication |
| PatientSpec.FieldErrors | care/emr/resources/patient/spec.py:39-67 | no field errors exactly when phones are within 14 characters and the geo organisation exists |
| PatientSpec.ValidateCreate | care/emr/resources/patient/spec.py:54-58 | accepted exactly when the fields are valid and there is a truthy age or a birth date |
| PatientSpec.AgeZeroIsMissing | care/emr/resources/patient/spec.py:54-58 | age 0 with no birth date is refused; a non-zero age alone is accepted |
| PatientSpec.YearOfBirth | care/emr/resources/patient/spec.py:74-77 | a truthy age plus the year of birth gives the current year; otherwise the birth date's year |
| PatientSpec.PerformExtraDeserialization | care/emr/resources/patient/spec.py:69-77 | on create, the geo organisation and year of birth are set; on update, neither changes |
| PatientSpec.PartialSerialize | care/emr/resources/patient/spec.py:100-103 | the partial id is a prefix of the external id, at most 5 long; the id is fresh |
| PatientSpec.PartialIdRevealsOnlyPrefix | care/emr/resources/patient/spec.py:102 | ids that agree on their first 5 characters have the same partial view, 5 characters long |

## Left out

- **ORM and request plumbing.** Querysets, `get_object_or_404`, serializers, pydantic parsing and viewset routing are left out. Their inputs and outputs are sequences, maps and parameters.
  - The "User does not exist" and "Resource is not schedulable" lookups are not modelled.
  - `TokenSlot.objects.create` is not modelled either; `Availability.SlotsToCreate` returns what would be created.
- **Locks and transactions.** `lock_create_appointment` holds a lock and a transaction. `Availability.TokenSlot.Book` models one booking at a time, so concurrency is not modelled.
- **The clock.** `now()`, `date.today()` and the current year are parameters. Time passing within one run of `PatientSummary()` is not modelled.
- **Fresh UUIDs.** They are a counter or a `freshId` parameter, so distinctness is the only property kept.
- **Time of day.** Times are whole minutes; seconds and time zones are not modelled.
- **Day-ending windows in `calculate_slots`.** A window whose steps would pass midnight is excluded by precondition (`StaysInDay`). On such a window the `.time()` arithmetic wraps to the morning. The loop may then count extra starts and stop, or it may never end.
- Availability.AvailabilityStats: it is built on the corrected period check `ValidateStatsPeriodCapped`. Its contract therefore refuses ranges longer than 32 days. The source accepts those ranges and reports them day by day, because its cap never fires (see Findings). The as-written check is `ValidateStatsPeriod`.
- ScheduleSpec.ValidateAvailability: the source stacks `@classmethod` above `@field_validator` on `validate_availability` (care/emr/resources/scheduling/schedule/spec.py:40-41). With that decorator order pydantic may not register the validator, so the overlap rule may not run at all. The model states the rule as the method body defines it.
- **Weekday bound.** The `day_of_week: Field(le=6)` bound is not modelled. It has no lower bound, so a negative weekday would pass it.
- **`convert_availability_to_slots` loop.** The model runs it on the unwrapped minute count, so it ends at the window end or at the failsafe. Slot ends are taken modulo a day.
- **QuestionnaireUtils.CheckRequired.** It runs on fuel: one more step than there are groups. A chain that repeats, which makes the source recurse forever, comes out as `None`.
- **Questionnaire response plumbing.** The encounter and patient lookups of `handle_response` are left out, and so are the database writes after validation. `validate_valueset` is a parameter.
- **Parsing of values.** Parsing of integer, decimal, date, dateTime and time values is a parameter (`Env`). Python's and dateutil's parsers are not part of this model.
- **Strings.** `str.strip()` and `str.lower()` are ASCII only; Unicode whitespace and case folding are not modelled.
- **PatientSummary.OnePerPatient.** `distinct('patient')` without an ordering lets the database pick any consultation per patient. The model keeps the first one in the given order.
- **Summary dates.** `created_date__startswith=now().date()` is compared as the day of the row's timestamp. The `created_date = now()` assignment on the unchanged branch is not saved by the source and is not modelled.
- **Scheduled run.** The Celery schedule of `run_midnight` is not modelled.
- **Summary ordering.** The `order_by("-created_date")` of the summary listing is not modelled; `PatientSummary.VisibleSnapshots` keeps the stored order.
- **User-type thresholds.** The numbers in `User.TYPE_VALUE_MAP` are parameters (`Users.TypeValues`). `care/users/models.py` is not part of this model.
- **Permissions and serializer fields.** `get_patient_queryset` is the parameter `allowed`. Serializer field validation (choices, read-only fields) is not modelled.
- **FacilityRules.ValidateMiddlewareAddress.** `MiddlewareDomainAddressValidator` is a predicate parameter; its rules are not part of this model.
- **FacilityRules.ValidateLink.** It only sets the hub, so its contract states that assignment and the kept fields.
- **Terminology server.** `ValueSetResource` `$expand` and `$validate-code` are function parameters. Their answers are not modelled.
- **ValueSets.CreateComposition.** An entry without a system still fails (`include.system.root` on `None`). This matches the code as written; the schema allows the system to be absent.
- **ValueSets.SearchGrouping.** The `count` limit is passed to each system's query, as the source does. The combined result is not capped.
- **QuestionnaireCache.Deduplicate.** `list(set(cache))` has an order set by hashing; the model keeps first occurrences. Only the values and the absence of duplicates are stated.
- **QuestionnaireCache.LinkTable.Save.** Saving creates a new link row; re-saving an existing row is not modelled. Deleting a link does not recompute the cache in the source, and the model has no delete.
- **PatientSpec.** The other field types (enums, `pincode`, `death_datetime`) and the other serializers are not modelled. `PatientListSpec` and `PatientRetrieveSpec` only copy the external id and nested objects.
- **PatientSpec.ValidateCreate.** Pydantic reports every field error together. The model lists them in field order, and runs `validate_age` only when the fields pass.
- **Dates of birth.** A date of birth is kept as its year, which is all the model reads of it.
- **Roles.RoleController.** The class-level list is modelled as one controller object.

## Findings

| source | as written | input that shows it | evidently intended | confidence | as-written member | corrected member |
|---|---|---|---|---|---|---|
| care/emr/models/valueset.py:26 | `for exclude in compose.exclude` iterates the optional exclude list directly | a compose with include entries and no `exclude` (it is `None` in the schema, care/emr/fhir/schema/valueset/valueset.py:264) raises a TypeError | an absent exclude list means no exclusions | not executed | ValueSets.NoExcludeListFails | ValueSets.CreateComposition |
| care/emr/models/valueset.py:28-30 | a system first met in the includes has only an "include" key, then `["exclude"].append` runs on it | a compose that includes and excludes codes of the same system raises a KeyError | excludes are added to the system's group whether or not it has includes | not executed | ValueSets.ExcludeOnIncludedSystemFails | ValueSets.CreateComposition |
| care/emr/api/viewsets/scheduling/availability.py:49 | the 32-day cap compares `from_date - to_date`, which the previous check makes non-positive | from day 0 to day 100 is accepted | ranges longer than 32 days are refused | not executed | Availability.PeriodCapNeverFires | Availability.ValidateStatsPeriodCapped |

Other behaviour that looks unintended is modelled as written and not corrected:

- The `today_patients_*` counts of `patient_summary.py` (lines 65-72) count `facility_patients`, not `facility_patients_today`. `PatientSummary.SummaryOfFacts` proves that each equals its total.
- In `ResourceRequestSerializer.update`, `last_edited_by` is set before `super().update`, so a `last_edited_by` sent by the client replaces it (`Resources.UpdateFields`).
- The second status guard indexes `User.TYPE_VALUE_MAP` with the numeric user type, which would raise. It can never be reached, because the two status lists are the same (`Resources.ApprovingGuardUnreachable`).
