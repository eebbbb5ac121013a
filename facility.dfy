/** The facility field checks of `care/facility/api/serializers/facility.py`:
    the middleware address, the feature list, and the hub/spoke link
    validation, with the link table they guard. */
module FacilityRules {
  import opened Wrappers
  import Strings

  // ---------------------------------------------------------------------------
  // validate_middleware_address
  // ---------------------------------------------------------------------------

  datatype AddressError =
    | AddressRequired  // "Middleware Address is required"
    | AddressInvalid   // refused by the middleware domain validator

  /** The middleware address check. `validDomain` stands for the domain
      validator, whose rules are not part of this model. A missing or empty
      value is refused; a blank one becomes ""; anything else is stripped and
      must pass the validator. */
  function ValidateMiddlewareAddress(value: Option<string>, validDomain: string -> bool): (r: Result<string, AddressError>)
    ensures r.Failure? && r.error == AddressRequired <==> value.None? || value.value == ""
    ensures r.Success? ==> r.value == Strings.Strip(value.value)
  {
    if value.None? || value.value == "" then Failure(AddressRequired)
    else
      var stripped := Strings.Strip(value.value);
      if stripped == "" then Success(stripped)
      else if validDomain(stripped) then Success(stripped)
      else Failure(AddressInvalid)
  }

  /** A whitespace-only address is accepted as "" without consulting the
      validator; a non-blank one is accepted exactly when the validator accepts
      its stripped form, which has no surrounding whitespace. */
  lemma MiddlewareAddressCases(value: string, validDomain: string -> bool)
    requires value != ""
    ensures Strings.IsBlank(value) ==> ValidateMiddlewareAddress(Some(value), validDomain) == Success("")
    ensures !Strings.IsBlank(value) ==>
      (ValidateMiddlewareAddress(Some(value), validDomain).Success? <==> validDomain(Strings.Strip(value)))
    ensures ValidateMiddlewareAddress(Some(value), validDomain).Success? ==>
      var r := ValidateMiddlewareAddress(Some(value), validDomain).value;
      r == [] || (!Strings.IsSpace(r[0]) && !Strings.IsSpace(r[|r| - 1]))
  {
    Strings.StripEmptyIffBlank(value);
    Strings.StripTrimmed(value);
  }

  // ---------------------------------------------------------------------------
  // validate_features
  // ---------------------------------------------------------------------------

  function ToSet(s: seq<int>): set<int> {
    set x | x in s
  }

  predicate Distinct(s: seq<int>) {
    forall i, j :: 0 <= i < j < |s| ==> s[i] != s[j]
  }

  const DuplicateFeatures := "Features should not contain duplicate values."

  /** The feature list check: its length must equal its set's size. */
  function ValidateFeatures(value: seq<int>): Result<seq<int>, string> {
    if |value| != |ToSet(value)| then Failure(DuplicateFeatures) else Success(value)
  }

  lemma DistinctAppend(init: seq<int>, x: int)
    ensures Distinct(init + [x]) <==> Distinct(init) && x !in init
  {
    var s := init + [x];
    if x in init {
      var k :| 0 <= k < |init| && init[k] == x;
      assert s[k] == s[|s| - 1];
    } else if Distinct(init) {
      forall i, j | 0 <= i < j < |s| ensures s[i] != s[j] {
        assert s[i] == init[i];
        if j < |init| {
          assert s[j] == init[j];
        }
      }
    } else {
      var i, j :| 0 <= i < j < |init| && init[i] == init[j];
      assert s[i] == s[j];
    }
  }

  /** A list has as many distinct elements as entries exactly when no value
      repeats, and never more. */
  lemma {:induction false} SetSizeIffDistinct(s: seq<int>)
    ensures |ToSet(s)| <= |s|
    ensures |ToSet(s)| == |s| <==> Distinct(s)
  {
    if |s| > 0 {
      var init := s[..|s| - 1];
      var x := s[|s| - 1];
      assert s == init + [x];
      assert ToSet(s) == ToSet(init) + {x};
      SetSizeIffDistinct(init);
      DistinctAppend(init, x);
    }
  }

  /** A feature list is refused exactly when some value repeats, and a list
      that is accepted comes back unchanged. */
  lemma FeaturesRefusedIffDuplicate(value: seq<int>)
    ensures ValidateFeatures(value).Failure? <==> exists i, j :: 0 <= i < j < |value| && value[i] == value[j]
    ensures ValidateFeatures(value).Success? ==> ValidateFeatures(value).value == value
  {
    SetSizeIffDistinct(value);
  }

  // ---------------------------------------------------------------------------
  // FacilitySpokeSerializer
  // ---------------------------------------------------------------------------

  /** A `FacilityHubSpoke` row: hub and spoke facility ids and the relationship. */
  datatype Link = Link(hub: int, spoke: int, relationship: int)

  /** The validated data of a link request; `hub` is absent until `validate`. */
  datatype SpokeRequest = SpokeRequest(hub: Option<int>, spoke: int, relationship: int)

  datatype SpokeError =
    | OwnSpoke       // "Cannot set a facility as it's own spoke"
    | AlreadyLinked  // "Facility is already a spoke/hub"

  /** Some row links the two facilities, in either direction. */
  predicate Linked(links: seq<Link>, a: int, b: int) {
    exists i :: 0 <= i < |links| &&
      ((links[i].hub == a && links[i].spoke == b) || (links[i].hub == b && links[i].spoke == a))
  }

  /** `validate_spoke` for the facility `hub` of the request context. */
  function ValidateSpoke(hub: int, spoke: int, links: seq<Link>): (r: Result<int, SpokeError>)
    ensures r.Success? <==> hub != spoke && !Linked(links, hub, spoke)
    ensures r.Success? ==> r.value == spoke
  {
    if hub == spoke then Failure(OwnSpoke)
    else if Linked(links, hub, spoke) then Failure(AlreadyLinked)
    else Success(spoke)
  }

  /** `validate`: the hub is always the context facility, whatever was sent. */
  function ValidateLink(data: SpokeRequest, facility: int): (r: SpokeRequest)
    ensures r.hub == Some(facility)
    ensures r.spoke == data.spoke && r.relationship == data.relationship
  {
    data.(hub := Some(facility))
  }

  predicate SamePair(l: Link, m: Link) {
    (l.hub == m.hub && l.spoke == m.spoke) || (l.hub == m.spoke && l.spoke == m.hub)
  }

  /** No self-links, and at most one row per unordered pair of facilities. */
  predicate WellLinked(links: seq<Link>) {
    && (forall i :: 0 <= i < |links| ==> links[i].hub != links[i].spoke)
    && (forall i, j :: 0 <= i < j < |links| ==> !SamePair(links[i], links[j]))
  }

  /** Adding a link that passed `validate_spoke` keeps the table well linked. */
  lemma AcceptedLinkKeepsWellLinked(links: seq<Link>, hub: int, spoke: int, relationship: int)
    requires WellLinked(links)
    requires ValidateSpoke(hub, spoke, links).Success?
    ensures WellLinked(links + [Link(hub, spoke, relationship)])
  {
    var links' := links + [Link(hub, spoke, relationship)];
    forall i, j | 0 <= i < j < |links'| ensures !SamePair(links'[i], links'[j]) {
      if j == |links| {
        assert links'[i] == links[i];
      }
    }
  }

  /** The `FacilityHubSpoke` table, as the link endpoint fills it. */
  class HubSpokeStore {
    var links: seq<Link>

    predicate Valid()
      reads this
    {
      WellLinked(links)
    }

    constructor ()
      ensures Valid() && links == []
    {
      links := [];
    }

    /** Create a link from the context facility `facility` to the requested
        spoke: the spoke is validated, the hub set from the context, and the
        row saved. */
    method CreateLink(facility: int, data: SpokeRequest) returns (r: Result<Link, SpokeError>)
      requires Valid()
      modifies this
      ensures Valid()
      ensures r.Success? <==> ValidateSpoke(facility, data.spoke, old(links)).Success?
      ensures r.Success? ==> r.value == Link(facility, data.spoke, data.relationship) &&
                             links == old(links) + [r.value]
      ensures r.Failure? ==> r.error == ValidateSpoke(facility, data.spoke, old(links)).error &&
                             links == old(links)
    {
      var checked := ValidateSpoke(facility, data.spoke, links);
      if checked.Failure? {
        return Failure(checked.error);
      }
      var validated := ValidateLink(data, facility);
      var link := Link(validated.hub.value, checked.value, validated.relationship);
      AcceptedLinkKeepsWellLinked(links, facility, data.spoke, data.relationship);
      links := links + [link];
      r := Success(link);
    }
  }
}
