/** The patient resource rules of `care/emr/resources/patient/spec.py`: the
    create-time checks, the year of birth a created patient gets, and the
    partial view that hides the patient's id. */
module PatientSpec {
  import opened Wrappers

  /** The longest phone number the spec accepts. */
  const MaxPhoneLength := 14

  /** The fields of a create request that these rules read. A date of birth
      is kept as its year, which is all the rules use of it. */
  datatype PatientCreate = PatientCreate(
    phoneNumber: string,
    emergencyPhoneNumber: Option<string>,
    geoOrganization: string,
    dateOfBirthYear: Option<int>,
    age: Option<int>)

  datatype CreateError =
    | PhoneNumberTooLong
    | EmergencyPhoneNumberTooLong
    | GeoOrganizationMissing      // "Geo Organization does not exist"
    | AgeOrBirthDateRequired      // "Either age or date of birth is required"

  /** Python truthiness of the optional age: absent and 0 are both false. */
  predicate AgeGiven(age: Option<int>) {
    age.Some? && age.value != 0
  }

  /** `validate_age`: an age that is truthy or some date of birth. */
  predicate AgeOrBirthDate(data: PatientCreate) {
    AgeGiven(data.age) || data.dateOfBirthYear.Some?
  }

  /** The field checks, in field order: both phone numbers at most 14
      characters and the geo organisation one of the government
      organisations (`govtOrgs`). */
  function FieldErrors(data: PatientCreate, govtOrgs: set<string>): (r: seq<CreateError>)
    ensures r == [] <==> (|data.phoneNumber| <= MaxPhoneLength &&
      (data.emergencyPhoneNumber.Some? ==> |data.emergencyPhoneNumber.value| <= MaxPhoneLength) &&
      data.geoOrganization in govtOrgs)
    ensures AgeOrBirthDateRequired !in r
  {
    (if |data.phoneNumber| > MaxPhoneLength then [PhoneNumberTooLong] else []) +
    (if data.emergencyPhoneNumber.Some? && |data.emergencyPhoneNumber.value| > MaxPhoneLength
     then [EmergencyPhoneNumberTooLong] else []) +
    (if data.geoOrganization !in govtOrgs then [GeoOrganizationMissing] else [])
  }

  /** Validation of a create request: every field error, or, once the fields
      are valid, the model check `validate_age`. */
  function ValidateCreate(data: PatientCreate, govtOrgs: set<string>): (r: Result<PatientCreate, seq<CreateError>>)
    ensures r.Success? <==> FieldErrors(data, govtOrgs) == [] && AgeOrBirthDate(data)
    ensures r.Success? ==> r.value == data
    ensures r.Failure? ==> r.error != []
    ensures r.Failure? && FieldErrors(data, govtOrgs) == [] ==> r.error == [AgeOrBirthDateRequired]
  {
    var errors := FieldErrors(data, govtOrgs);
    if errors != [] then Failure(errors)
    else if !AgeOrBirthDate(data) then Failure([AgeOrBirthDateRequired])
    else Success(data)
  }

  /** An age of 0 with no date of birth is refused like a missing age, and an
      age that is neither given nor 0 is accepted without a date of birth. */
  lemma AgeZeroIsMissing(data: PatientCreate, govtOrgs: set<string>)
    requires FieldErrors(data, govtOrgs) == []
    ensures data.age == Some(0) && data.dateOfBirthYear.None? ==>
      ValidateCreate(data, govtOrgs) == Failure([AgeOrBirthDateRequired])
    ensures data.age.Some? && data.age.value != 0 ==> ValidateCreate(data, govtOrgs).Success?
  {
  }

  /** The year of birth a created patient gets: the current year less a
      truthy age, else the year of the date of birth. */
  function YearOfBirth(data: PatientCreate, currentYear: int): (y: int)
    requires AgeOrBirthDate(data)
    ensures AgeGiven(data.age) ==> y + data.age.value == currentYear
    ensures !AgeGiven(data.age) ==> y == data.dateOfBirthYear.value
  {
    if AgeGiven(data.age) then currentYear - data.age.value else data.dateOfBirthYear.value
  }

  /** The stored patient fields these rules write. */
  class Patient {
    const externalId: string
    var geoOrganization: Option<string>
    var yearOfBirth: Option<int>

    constructor (externalId: string)
      ensures this.externalId == externalId && geoOrganization.None? && yearOfBirth.None?
    {
      this.externalId := externalId;
      geoOrganization := None;
      yearOfBirth := None;
    }
  }

  /** `perform_extra_deserialization`: on create, link the geo organisation
      and set the year of birth; on update, leave both alone. The request
      has passed `validate_age`. */
  method PerformExtraDeserialization(data: PatientCreate, isUpdate: bool, obj: Patient, currentYear: int)
    requires !isUpdate ==> AgeOrBirthDate(data)
    modifies obj
    ensures isUpdate ==> obj.geoOrganization == old(obj.geoOrganization) && obj.yearOfBirth == old(obj.yearOfBirth)
    ensures !isUpdate ==> obj.geoOrganization == Some(data.geoOrganization) &&
                          obj.yearOfBirth == Some(YearOfBirth(data, currentYear))
  {
    if !isUpdate {
      obj.geoOrganization := Some(data.geoOrganization);
      if AgeGiven(data.age) {
        obj.yearOfBirth := Some(currentYear - data.age.value);
      } else {
        obj.yearOfBirth := Some(data.dateOfBirthYear.value);
      }
    }
  }

  /** What `PatientPartialSpec` adds to the serialized patient. */
  datatype PartialView = PartialView(partialId: string, id: string)

  /** `perform_extra_serialization` of the partial spec: the first five
      characters of the patient's external id, and a freshly drawn id
      (`freshId`) in place of the patient's own. */
  function PartialSerialize(externalId: string, freshId: string): (v: PartialView)
    ensures |v.partialId| == if |externalId| < 5 then |externalId| else 5
    ensures v.partialId <= externalId
    ensures v.id == freshId
  {
    PartialView(if |externalId| < 5 then externalId else externalId[..5], freshId)
  }

  /** The partial view reveals only the first five characters: two patients
      whose ids share them get the same partial id, and a UUID string gives
      exactly five characters. */
  lemma PartialIdRevealsOnlyPrefix(a: string, b: string, freshId: string)
    requires |a| >= 5 && |b| >= 5 && a[..5] == b[..5]
    ensures PartialSerialize(a, freshId) == PartialSerialize(b, freshId)
    ensures |PartialSerialize(a, freshId).partialId| == 5
  {
  }
}
