/** The organisation caches of `care/emr/models/questionnaire.py`: after a
    link between a questionnaire and an organisation is saved, the
    questionnaire's cache is recomputed from all of its links. */
module QuestionnaireCache {

  /** An organisation: its id and the ids of its ancestors (`parent_cache`). */
  datatype Organization = Organization(id: int, parentCache: seq<int>)

  /** A `QuestionnaireOrganization` or `QuestionnaireFacilityOrganization`
      row: the questionnaire id and the linked organisation. */
  datatype OrgLink = OrgLink(questionnaire: int, organization: Organization)

  /** Geo organisations feed `organization_cache`, facility organisations
      feed `internal_organization_cache`. */
  datatype Level = Geo | FacilityLevel

  /** What one link adds to the list: the ancestors, then the organisation. */
  function Contributed(o: Organization): seq<int> {
    o.parentCache + [o.id]
  }

  /** The list the sync loop builds over the rows of `links` that belong to
      the questionnaire, before duplicates are dropped. */
  function Collected(links: seq<OrgLink>, questionnaire: int): seq<int> {
    if |links| == 0 then []
    else
      var last := links[|links| - 1];
      Collected(links[..|links| - 1], questionnaire) +
        (if last.questionnaire == questionnaire then Contributed(last.organization) else [])
  }

  /** `x` is one of the questionnaire's linked organisations or one of their
      ancestors. */
  ghost predicate InCache(links: seq<OrgLink>, questionnaire: int, x: int) {
    exists i :: (0 <= i < |links| && links[i].questionnaire == questionnaire &&
      (x == links[i].organization.id || x in links[i].organization.parentCache))
  }

  lemma InCacheAppend(links: seq<OrgLink>, l: OrgLink, questionnaire: int, x: int)
    ensures InCache(links + [l], questionnaire, x) <==>
      (InCache(links, questionnaire, x) ||
       (l.questionnaire == questionnaire && (x == l.organization.id || x in l.organization.parentCache)))
  {
    var links' := links + [l];
    if InCache(links', questionnaire, x) {
      var i :| (0 <= i < |links'| && links'[i].questionnaire == questionnaire &&
        (x == links'[i].organization.id || x in links'[i].organization.parentCache));
      if i < |links| {
        assert links'[i] == links[i];
      }
    }
    if InCache(links, questionnaire, x) {
      var i :| (0 <= i < |links| && links[i].questionnaire == questionnaire &&
        (x == links[i].organization.id || x in links[i].organization.parentCache));
      assert links'[i] == links[i];
    }
    if l.questionnaire == questionnaire && (x == l.organization.id || x in l.organization.parentCache) {
      assert links'[|links|] == l;
    }
  }

  /** The collected list holds exactly the questionnaire's linked
      organisations and their ancestors; rows of other questionnaires add
      nothing. */
  lemma {:induction false} CollectedMembers(links: seq<OrgLink>, questionnaire: int)
    ensures forall x :: x in Collected(links, questionnaire) <==> InCache(links, questionnaire, x)
  {
    if |links| > 0 {
      var init := links[..|links| - 1];
      var l := links[|links| - 1];
      assert links == init + [l];
      CollectedMembers(init, questionnaire);
      forall x ensures x in Collected(links, questionnaire) <==> InCache(links, questionnaire, x) {
        InCacheAppend(init, l, questionnaire, x);
      }
    }
  }

  /** A new link of another questionnaire leaves this questionnaire's list
      alone; a link of this one adds its organisation and ancestors. */
  lemma CollectedAppend(links: seq<OrgLink>, l: OrgLink, questionnaire: int)
    ensures l.questionnaire != questionnaire ==> Collected(links + [l], questionnaire) == Collected(links, questionnaire)
    ensures l.questionnaire == questionnaire ==>
      Collected(links + [l], questionnaire) == Collected(links, questionnaire) + l.organization.parentCache + [l.organization.id]
  {
    assert (links + [l])[..|links|] == links;
  }

  predicate NoDuplicates(s: seq<int>) {
    forall i, j :: 0 <= i < j < |s| ==> s[i] != s[j]
  }

  /** The sync loop: extend the list by each row's contribution. */
  method CollectCache(links: seq<OrgLink>, questionnaire: int) returns (cache: seq<int>)
    ensures cache == Collected(links, questionnaire)
  {
    cache := [];
    for i := 0 to |links|
      invariant cache == Collected(links[..i], questionnaire)
    {
      assert links[..i + 1][..i] == links[..i];
      var row := links[i];
      if row.questionnaire == questionnaire {
        cache := cache + row.organization.parentCache;
        cache := cache + [row.organization.id];
      }
    }
    assert links[..|links|] == links;
  }

  /** `list(set(cache))`: the same values, each once. */
  method Deduplicate(cache: seq<int>) returns (r: seq<int>)
    ensures NoDuplicates(r)
    ensures forall x :: x in r <==> x in cache
  {
    r := [];
    for i := 0 to |cache|
      invariant NoDuplicates(r)
      invariant forall x :: x in r <==> x in cache[..i]
    {
      assert cache[..i + 1] == cache[..i] + [cache[i]];
      if cache[i] !in r {
        r := r + [cache[i]];
      }
    }
    assert cache[..|cache|] == cache;
  }

  /** The two cache fields of a `Questionnaire`. */
  class Questionnaire {
    const id: int
    var organizationCache: seq<int>
    var internalOrganizationCache: seq<int>

    constructor (id: int)
      ensures this.id == id && organizationCache == [] && internalOrganizationCache == []
    {
      this.id := id;
      organizationCache := [];
      internalOrganizationCache := [];
    }
  }

  /** The link table of one level: `QuestionnaireOrganization` for geo
      organisations, `QuestionnaireFacilityOrganization` for facility
      organisations. */
  class LinkTable {
    const level: Level
    var links: seq<OrgLink>

    constructor (level: Level)
      ensures this.level == level && links == []
    {
      this.level := level;
      links := [];
    }

    /** The cache field this table maintains. */
    function CacheOf(q: Questionnaire): seq<int>
      reads q
    {
      if level == Geo then q.organizationCache else q.internalOrganizationCache
    }

    /** The questionnaire's cache lists each of its linked organisations and
        their ancestors exactly once, and nothing else. */
    ghost predicate Synced(q: Questionnaire)
      reads this, q
    {
      NoDuplicates(CacheOf(q)) && forall x :: x in CacheOf(q) <==> InCache(links, q.id, x)
    }

    /** `sync_questionnaire_cache`: recompute the cache from every current
        link of the questionnaire, whatever it held before, and touch only
        this level's field. */
    method Sync(q: Questionnaire)
      modifies q
      ensures Synced(q)
      ensures level == Geo ==> q.internalOrganizationCache == old(q.internalOrganizationCache)
      ensures level == FacilityLevel ==> q.organizationCache == old(q.organizationCache)
    {
      var cache := CollectCache(links, q.id);
      CollectedMembers(links, q.id);
      cache := Deduplicate(cache);
      if level == Geo {
        q.organizationCache := cache;
      } else {
        q.internalOrganizationCache := cache;
      }
    }

    /** `save`: store the link, then sync its questionnaire. */
    method Save(link: OrgLink, q: Questionnaire)
      requires link.questionnaire == q.id
      modifies this, q
      ensures links == old(links) + [link]
      ensures Synced(q)
      ensures level == Geo ==> q.internalOrganizationCache == old(q.internalOrganizationCache)
      ensures level == FacilityLevel ==> q.organizationCache == old(q.organizationCache)
    {
      links := links + [link];
      Sync(q);
    }
  }

  /** After a save the linked organisation and all its ancestors are in the
      questionnaire's cache, and so is everything an earlier link put there. */
  lemma SavedLinkCached(links: seq<OrgLink>, link: OrgLink, x: int)
    requires x == link.organization.id || x in link.organization.parentCache
    ensures InCache(links + [link], link.questionnaire, x)
    ensures forall y :: InCache(links, link.questionnaire, y) ==> InCache(links + [link], link.questionnaire, y)
  {
    InCacheAppend(links, link, link.questionnaire, x);
    forall y | InCache(links, link.questionnaire, y) ensures InCache(links + [link], link.questionnaire, y) {
      InCacheAppend(links, link, link.questionnaire, y);
    }
  }
}
