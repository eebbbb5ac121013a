/** The role registry of `care/security/roles/role.py`: the built-in roles,
    the roles plugins register, and the mapping from legacy user types to
    roles. */
module Roles {
  import opened Wrappers

  datatype Role = Role(name: string, description: string)

  const Volunteer := Role("Volunteer", "Volunteer at some facility")
  const Doctor := Role("Doctor", "Doctor at some facility")
  const Nurse := Role("Nurse", "Nurse at some facility")
  const Staff := Role("Staff", "Staff at some facility")
  const GeoAdmin := Role("Geo Admin", "Administrator restricted with geographical boundaries")
  const FacilityAdmin := Role("Facility Admin",
    "Administrator of a facility, associated to the person creating the facility.")
  const Admin := Role("Admin", "Administrator")

  /** The built-in roles, in declared order. */
  const InternalRoles: seq<Role> := [Doctor, Staff, Nurse, GeoAdmin, FacilityAdmin, Admin, Volunteer]

  /** The mapping from legacy user type names to roles. */
  const LegacyMapping: map<string, Role> := map[
    "Transportation" := Staff,
    "Pharmacist" := Staff,
    "Volunteer" := Staff,
    "StaffReadOnly" := Staff,
    "Staff" := Staff,
    "NurseReadOnly" := Nurse,
    "Nurse" := Nurse,
    "Doctor" := Doctor,
    "Reserved" := Doctor,
    "WardAdmin" := GeoAdmin,
    "LocalBodyAdmin" := GeoAdmin,
    "DistrictLabAdmin" := GeoAdmin,
    "DistrictReadOnlyAdmin" := GeoAdmin,
    "DistrictAdmin" := GeoAdmin,
    "StateLabAdmin" := GeoAdmin,
    "StateReadOnlyAdmin" := GeoAdmin,
    "StateAdmin" := GeoAdmin
  ]

  /** The legacy names that map to Geo Admin. */
  const GeoAdminNames: set<string> := {
    "WardAdmin", "LocalBodyAdmin", "DistrictLabAdmin", "DistrictReadOnlyAdmin",
    "DistrictAdmin", "StateLabAdmin", "StateReadOnlyAdmin", "StateAdmin"
  }

  /** `map_old_role_to_new`: the role of a legacy user type name, or a
      KeyError (None) for a name the mapping does not know. */
  function MapOldRoleToNew(oldRole: string): (r: Option<Role>)
    ensures r.Some? <==> oldRole in LegacyMapping
    ensures r.Some? ==> r.value in {Staff, Nurse, Doctor, GeoAdmin}
  {
    if oldRole in LegacyMapping then Some(LegacyMapping[oldRole]) else None
  }

  /** The legacy names, in the order the mapping lists them. */
  const LegacyNames: seq<string> := [
    "Transportation", "Pharmacist", "Volunteer", "StaffReadOnly", "Staff", "NurseReadOnly", "Nurse",
    "Doctor", "Reserved", "WardAdmin", "LocalBodyAdmin", "DistrictLabAdmin", "DistrictReadOnlyAdmin",
    "DistrictAdmin", "StateLabAdmin", "StateReadOnlyAdmin", "StateAdmin"
  ]

  predicate Distinct<T(==)>(s: seq<T>) {
    forall i, j :: 0 <= i < j < |s| ==> s[i] != s[j]
  }

  lemma {:induction false} DistinctCard<T>(s: seq<T>)
    requires Distinct(s)
    ensures |set x | x in s| == |s|
  {
    if |s| > 0 {
      var init := s[..|s| - 1];
      var x := s[|s| - 1];
      assert s == init + [x];
      assert (set y | y in s) == (set y | y in init) + {x};
      assert x !in init;
      assert Distinct(init) by {
        forall i, j | 0 <= i < j < |init| ensures init[i] != init[j] {
          assert init[i] == s[i] && init[j] == s[j];
        }
      }
      DistinctCard(init);
    }
  }

  lemma LegacyNamesDistinct()
    ensures Distinct(LegacyNames)
  {
  }

  lemma LegacyKeys()
    ensures LegacyMapping.Keys == set n | n in LegacyNames
  {
  }

  /** The mapping knows exactly the 17 legacy names. */
  lemma LegacyNamesCount()
    ensures |LegacyMapping| == 17
    ensures forall n :: n in LegacyMapping <==> n in LegacyNames
  {
    LegacyNamesDistinct();
    LegacyKeys();
    DistinctCard(LegacyNames);
    assert |LegacyMapping| == |LegacyMapping.Keys|;
  }

  /** The volunteer becomes staff, every ward, local body, district and state
      admin becomes Geo Admin, and nothing else does. */
  lemma LegacyAdminsAreGeoAdmins(oldRole: string)
    ensures MapOldRoleToNew("Volunteer") == Some(Staff)
    ensures MapOldRoleToNew(oldRole) == Some(GeoAdmin) <==> oldRole in GeoAdminNames
  {
  }

  /** `RoleController`: the built-in roles and the class-level list of roles
      registered by plugins. */
  class RoleController {
    var overrideRoles: seq<Role>

    constructor ()
      ensures overrideRoles == []
    {
      overrideRoles := [];
    }

    /** `get_roles`: the built-in roles, then the registered ones. */
    function GetRoles(): (r: seq<Role>)
      reads this
      ensures |r| == |InternalRoles| + |overrideRoles|
      ensures r[..|InternalRoles|] == InternalRoles
      ensures forall x :: x in r <==> x in InternalRoles || x in overrideRoles
    {
      InternalRoles + overrideRoles
    }

    /** `register_role`: append the role, even when it is already there. */
    method RegisterRole(role: Role)
      modifies this
      ensures overrideRoles == old(overrideRoles) + [role]
      ensures GetRoles() == old(GetRoles()) + [role]
    {
      overrideRoles := overrideRoles + [role];
    }
  }
}
