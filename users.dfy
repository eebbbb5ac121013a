/** The user and facility records that the permission and visibility rules
    read. The numeric user-type scale (`User.TYPE_VALUE_MAP`) lives in the
    user model, which is not part of this model: the thresholds the rules
    compare against are passed in as a `TypeValues` record. */
module Users {

  /** The `User.TYPE_VALUE_MAP` entries that the modelled rules consult. */
  datatype TypeValues = TypeValues(
    volunteer: int,
    districtLabAdmin: int,
    districtAdmin: int,
    stateLabAdmin: int)

  datatype User = User(
    id: int,
    isSuperuser: bool,
    userType: int,
    district: int,
    state: int)

  /** A facility: its id, its district and state, and the ids of its users. */
  datatype Facility = Facility(
    id: int,
    name: string,
    district: int,
    districtName: string,
    state: int,
    users: set<int>)
}
