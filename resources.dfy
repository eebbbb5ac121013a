/** The resource-request rules of `care/facility/api/serializers/resources.py`:
    the label-to-value inversion of a choice list, the facility permission
    test, the status-change guard and field handling of an update, the field
    handling of a create, and the blank-comment check. */
module Resources {
  import opened Wrappers
  import opened Users
  import Strings

  // ---------------------------------------------------------------------------
  // inverse_choices
  // ---------------------------------------------------------------------------

  /** A choice list: (stored value, display label) pairs. */
  type Choices = seq<(int, string)>

  function LabelsOf(choices: Choices): set<string> {
    set c | c in choices :: c.1
  }

  /** The dictionary `inverse_choices` builds: each label mapped to its value,
      later pairs overwriting earlier ones. */
  function Inverse(choices: Choices): (r: map<string, int>)
    ensures r.Keys == LabelsOf(choices)
  {
    if |choices| == 0 then map[]
    else
      var init := choices[..|choices| - 1];
      var c := choices[|choices| - 1];
      assert choices == init + [c];
      assert LabelsOf(choices) == LabelsOf(init) + {c.1} by {
        assert forall x :: x in choices <==> x in init || x == c;
      }
      Inverse(init)[c.1 := c.0]
  }

  /** `inverse_choices`: the loop filling `output`. */
  method InverseChoices(choices: Choices) returns (output: map<string, int>)
    ensures output == Inverse(choices)
  {
    output := map[];
    for i := 0 to |choices|
      invariant output == Inverse(choices[..i])
    {
      assert choices[..i + 1][..i] == choices[..i];
      output := output[choices[i].1 := choices[i].0];
    }
    assert choices[..|choices|] == choices;
  }

  /** A label maps to the value of its last occurrence in the list. */
  lemma {:induction false} InverseLastWins(choices: Choices, i: nat)
    requires i < |choices|
    requires forall j :: i < j < |choices| ==> choices[j].1 != choices[i].1
    ensures Inverse(choices)[choices[i].1] == choices[i].0
  {
    var init := choices[..|choices| - 1];
    if i < |choices| - 1 {
      assert init[i] == choices[i];
      forall j | i < j < |init| ensures init[j].1 != init[i].1 {
        assert init[j] == choices[j];
      }
      InverseLastWins(init, i);
    }
  }

  /** With distinct labels the inversion undoes the choice list exactly. */
  lemma InverseRoundTrip(choices: Choices)
    requires forall i, j :: 0 <= i < j < |choices| ==> choices[i].1 != choices[j].1
    ensures forall i :: 0 <= i < |choices| ==> Inverse(choices)[choices[i].1] == choices[i].0
  {
    forall i | 0 <= i < |choices| ensures Inverse(choices)[choices[i].1] == choices[i].0 {
      InverseLastWins(choices, i);
    }
  }

  // ---------------------------------------------------------------------------
  // has_facility_permission
  // ---------------------------------------------------------------------------

  /** The user may act for the facility: none without a facility; otherwise a
      superuser, a member, a DistrictLabAdmin-or-above of its district or a
      StateLabAdmin-or-above of its state. */
  predicate HasFacilityPermission(user: User, tv: TypeValues, facility: Option<Facility>) {
    match facility
    case None => false
    case Some(f) =>
      || user.isSuperuser
      || user.id in f.users
      || (user.userType >= tv.districtLabAdmin && user.district == f.district)
      || (user.userType >= tv.stateLabAdmin && user.state == f.state)
  }

  /** No facility grants nothing; a superuser or a member always has
      permission; an outsider of another district and state never does. */
  lemma FacilityPermissionCases(user: User, tv: TypeValues, facility: Option<Facility>)
    ensures facility.None? ==> !HasFacilityPermission(user, tv, facility)
    ensures facility.Some? && (user.isSuperuser || user.id in facility.value.users) ==>
      HasFacilityPermission(user, tv, facility)
    ensures (facility.Some? && !user.isSuperuser && user.id !in facility.value.users &&
             user.district != facility.value.district && user.state != facility.value.state) ==>
      !HasFacilityPermission(user, tv, facility)
  {
  }

  // ---------------------------------------------------------------------------
  // ResourceRequestSerializer.update / create
  // ---------------------------------------------------------------------------

  /** A field value of a resource request or of validated data. */
  datatype Value =
    | StatusCode(code: int)
    | FacilityRef(facility: Facility)
    | UserRef(userId: int)
    | PatientRef(patientId: int)
    | Null
    | Text(text: string)

  /** A resource request, or validated data, as field name to value. */
  type Record = map<string, Value>

  const OriginFacility := "origin_facility"
  const RelatedPatient := "related_patient"
  const AssignedFacility := "assigned_facility"
  const ApprovingFacility := "approving_facility"
  const StatusField := "status"
  const LastEditedBy := "last_edited_by"
  const CreatedBy := "created_by"

  /** The labels of the statuses limited to the receiving facility. */
  const ReceivingLabels: seq<string> := [
    "ON HOLD", "APPROVED", "REJECTED", "TRANSPORTATION TO BE ARRANGED",
    "TRANSFER IN PROGRESS", "COMPLETED"]

  /** The labels of the statuses limited to the approving facility. */
  const RequestLabels: seq<string> := [
    "ON HOLD", "APPROVED", "REJECTED", "TRANSPORTATION TO BE ARRANGED",
    "TRANSFER IN PROGRESS", "COMPLETED"]

  /** Each label looked up in `m`; `None` when one is missing (a `KeyError`). */
  function LookupAll(m: map<string, int>, labels: seq<string>): (r: Option<seq<int>>)
    ensures r.Some? <==> forall i :: 0 <= i < |labels| ==> labels[i] in m
    ensures r.Some? ==> (|r.value| == |labels| &&
                         forall i :: 0 <= i < |labels| ==> r.value[i] == m[labels[i]])
  {
    if |labels| == 0 then Some([])
    else if labels[0] !in m then None
    else
      match LookupAll(m, labels[1..])
      case None =>
        assert !(forall i :: 0 <= i < |labels| ==> labels[i] in m) by {
          var j :| 0 <= j < |labels[1..]| && labels[1..][j] !in m;
          assert labels[j + 1] == labels[1..][j];
        }
        None
      case Some(rest) =>
        assert forall i :: 1 <= i < |labels| ==> labels[i] == labels[1..][i - 1];
        Some([m[labels[0]]] + rest)
  }

  /** The facility a field holds, if it holds one. */
  function FacilityOf(rec: Record, field: string): Option<Facility> {
    if field in rec && rec[field].FacilityRef? then Some(rec[field].facility) else None
  }

  datatype UpdateError =
    | StatusLabelMissing  // a limited label has no value in the reversed status choices
    | PermissionDenied    // "Permission Denied" on the status field
    | UserTypeKeyError    // the type map indexed with the numeric user type (line 137)

  function InList(status: Value, codes: seq<int>): bool {
    status.StatusCode? && status.code in codes
  }

  /** The two guards on a new status. The second one indexes the name-keyed
      type map with the user's numeric type, which fails whenever it is
      reached. */
  function StatusCheck(instance: Record, status: Value, user: User, tv: TypeValues,
                       receiving: seq<int>, request: seq<int>): Outcome<UpdateError>
  {
    var validated := InList(status, receiving);
    if validated && FacilityOf(instance, AssignedFacility).Some? &&
       !(user.userType < tv.volunteer) &&
       !HasFacilityPermission(user, tv, FacilityOf(instance, AssignedFacility))
    then Fail(PermissionDenied)
    else if !validated && FacilityOf(instance, ApprovingFacility).Some? && InList(status, request)
    then Fail(UserTypeKeyError)
    else Pass
  }

  /** The request after `update`, or the error it raises. */
  function UpdateSpec(instance: Record, data: Record, user: User, tv: TypeValues,
                      reverse: map<string, int>): Result<Record, UpdateError>
  {
    match (LookupAll(reverse, ReceivingLabels), LookupAll(reverse, RequestLabels))
    case (Some(receiving), Some(request)) =>
      var check := if StatusField in data
        then StatusCheck(instance, data[StatusField], user, tv, receiving, request)
        else Pass;
      if check.Fail? then Failure(check.error)
      else Success(instance[LastEditedBy := UserRef(user.id)] + (data - {OriginFacility, RelatedPatient}))
    case _ => Failure(StatusLabelMissing)
  }

  /** A receiving-list status is refused exactly when the request has an
      assigned facility, the user is not below Volunteer and lacks permission
      on that facility. */
  lemma ReceivingStatusGuard(instance: Record, data: Record, user: User, tv: TypeValues,
                             reverse: map<string, int>)
    requires forall l :: l in ReceivingLabels ==> l in reverse
    requires StatusField in data
    requires data[StatusField].StatusCode?
    requires data[StatusField].code in LookupAll(reverse, ReceivingLabels).value
    ensures UpdateSpec(instance, data, user, tv, reverse).Failure? <==>
      FacilityOf(instance, AssignedFacility).Some? && user.userType >= tv.volunteer &&
      !HasFacilityPermission(user, tv, FacilityOf(instance, AssignedFacility))
    ensures UpdateSpec(instance, data, user, tv, reverse).Failure? ==>
      UpdateSpec(instance, data, user, tv, reverse).error == PermissionDenied
  {
    assert forall i :: 0 <= i < |ReceivingLabels| ==> ReceivingLabels[i] in ReceivingLabels;
  }

  /** The receiving and request lists are the same, so the approving-facility
      guard is never reached: no update fails with its error. */
  lemma ApprovingGuardUnreachable(instance: Record, data: Record, user: User, tv: TypeValues,
                                  reverse: map<string, int>)
    ensures UpdateSpec(instance, data, user, tv, reverse) != Failure(UserTypeKeyError)
  {
    assert ReceivingLabels == RequestLabels;
  }

  /** A successful update keeps the origin facility and related patient, takes
      every other sent field from the data, stamps `last_edited_by` with the
      user unless the data sends its own, and leaves the rest as it was. */
  lemma UpdateFields(instance: Record, data: Record, user: User, tv: TypeValues,
                     reverse: map<string, int>)
    requires UpdateSpec(instance, data, user, tv, reverse).Success?
    ensures var rec := UpdateSpec(instance, data, user, tv, reverse).value;
      && (OriginFacility in rec <==> OriginFacility in instance)
      && (OriginFacility in instance ==> rec[OriginFacility] == instance[OriginFacility])
      && (RelatedPatient in rec <==> RelatedPatient in instance)
      && (RelatedPatient in instance ==> rec[RelatedPatient] == instance[RelatedPatient])
      && (LastEditedBy !in data ==> rec[LastEditedBy] == UserRef(user.id))
      && (forall k :: k in data && k != OriginFacility && k != RelatedPatient ==>
            k in rec && rec[k] == data[k])
      && (forall k :: k in instance && k !in data && k != LastEditedBy ==>
            k in rec && rec[k] == instance[k])
      && rec.Keys == instance.Keys + {LastEditedBy} + (data.Keys - {OriginFacility, RelatedPatient})
  {
  }

  /** An update that sends no status can only fail on the status labels. */
  lemma UpdateWithoutStatus(instance: Record, data: Record, user: User, tv: TypeValues,
                            reverse: map<string, int>)
    requires StatusField !in data
    ensures UpdateSpec(instance, data, user, tv, reverse).Failure? <==>
      exists l :: l in ReceivingLabels && l !in reverse
  {
    if exists l :: l in ReceivingLabels && l !in reverse {
      var l :| l in ReceivingLabels && l !in reverse;
      var i :| 0 <= i < |ReceivingLabels| && ReceivingLabels[i] == l;
    }
  }

  /** A resource request record, updated in place by the serializer. */
  class ResourceRequest {
    var fields: Record

    constructor (initial: Record)
      ensures fields == initial
    {
      fields := initial;
    }

    /** `ResourceRequestSerializer.update`. */
    method Update(data: Record, user: User, tv: TypeValues, reverse: map<string, int>)
      returns (err: Option<UpdateError>)
      modifies this
      ensures err.None? ==> UpdateSpec(old(fields), data, user, tv, reverse) == Success(fields)
      ensures err.Some? ==> UpdateSpec(old(fields), data, user, tv, reverse) == Failure(err.value)
      ensures err.Some? ==> fields == old(fields)
    {
      var receiving := LookupAll(reverse, ReceivingLabels);
      var request := LookupAll(reverse, RequestLabels);
      if receiving.None? || request.None? {
        return Some(StatusLabelMissing);
      }
      if StatusField in data {
        var check := StatusCheck(fields, data[StatusField], user, tv, receiving.value, request.value);
        if check.Fail? {
          return Some(check.error);
        }
      }
      var validated := data - {OriginFacility};
      validated := validated - {RelatedPatient};
      assert validated == data - {OriginFacility, RelatedPatient};
      fields := fields[LastEditedBy := UserRef(user.id)];
      fields := fields + validated;
      err := None;
    }
  }

  datatype CreateError =
    | PatientDenied      // "Permission Denied" on related_patient
    | PatientNotAnObject // the related patient value has no external id

  /** The record `create` stores, or the error it raises. `allowed` is the set
      of patients the user's patient queryset contains. */
  function CreateSpec(data: Record, user: User, allowed: set<int>): Result<Record, CreateError> {
    var validated := data - {StatusField};
    if RelatedPatient in validated && !validated[RelatedPatient].PatientRef? then
      Failure(PatientNotAnObject)
    else if RelatedPatient in validated && validated[RelatedPatient].patientId !in allowed then
      Failure(PatientDenied)
    else
      Success(validated[CreatedBy := UserRef(user.id)][LastEditedBy := UserRef(user.id)])
  }

  /** `ResourceRequestSerializer.create`. */
  method Create(data: Record, user: User, allowed: set<int>) returns (r: Result<Record, CreateError>)
    ensures r == CreateSpec(data, user, allowed)
  {
    var validated := data;
    if StatusField in validated {
      validated := validated - {StatusField};
    }
    assert validated == data - {StatusField};
    if RelatedPatient in validated {
      var patient := validated[RelatedPatient];
      if !patient.PatientRef? {
        return Failure(PatientNotAnObject);
      }
      if patient.patientId !in allowed {
        return Failure(PatientDenied);
      }
    }
    validated := validated[CreatedBy := UserRef(user.id)];
    validated := validated[LastEditedBy := UserRef(user.id)];
    return Success(validated);
  }

  /** A created request carries no client status, names the user as creator
      and last editor, and keeps every other sent field; a related patient
      outside the allowed set is refused. */
  lemma CreateFields(data: Record, user: User, allowed: set<int>)
    ensures var r := CreateSpec(data, user, allowed);
      && (r.Failure? <==> (RelatedPatient in data &&
           (!data[RelatedPatient].PatientRef? || data[RelatedPatient].patientId !in allowed)))
      && (r.Success? ==>
           && StatusField !in r.value
           && r.value[CreatedBy] == UserRef(user.id)
           && r.value[LastEditedBy] == UserRef(user.id)
           && forall k :: k in data && k != StatusField && k != CreatedBy && k != LastEditedBy ==>
                k in r.value && r.value[k] == data[k])
  {
  }

  // ---------------------------------------------------------------------------
  // ResourceRequestCommentSerializer.validate_empty_values
  // ---------------------------------------------------------------------------

  const CommentEmpty := "Comment cannot be empty"

  /** The comment check: an absent comment counts as "". */
  function ValidateComment(comment: Option<string>): (r: Result<string, string>)
    ensures r.Failure? ==> r.error == CommentEmpty
    ensures r.Success? ==> comment.Some? && r.value == comment.value
  {
    var text := if comment.Some? then comment.value else "";
    if Strings.Strip(text) == [] then Failure(CommentEmpty) else Success(text)
  }

  /** A comment is refused exactly when it is absent or whitespace only. */
  lemma CommentRefusedIffBlank(comment: Option<string>)
    ensures ValidateComment(comment).Failure? <==>
      comment.None? || Strings.IsBlank(comment.value)
  {
    if comment.Some? {
      Strings.StripEmptyIffBlank(comment.value);
    } else {
      Strings.StripEmptyIffBlank("");
    }
  }
}
