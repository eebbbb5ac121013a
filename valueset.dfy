/** `ValueSet` of `care/emr/models/valueset.py`: the grouping of a compose's
    include and exclude entries by code system, and the search and lookup that
    send one terminology query per system. The terminology server is a
    parameter: one function per query kind. */
module ValueSets {
  import opened Wrappers
  import QuestionnaireUtils

  /** A compose include/exclude entry: its code system (which may be absent)
      and the rest of its content, kept opaque. */
  datatype Entry = Entry(system: Option<string>, details: string)

  /** A compose: `exclude` is optional and absent by default. */
  datatype Compose = Compose(includes: seq<Entry>, excludes: Option<seq<Entry>>)

  /** The dictionary built for one system: an `"include"` list and an
      `"exclude"` list, either of which may be missing. */
  datatype Group = Group(includes: Option<seq<Entry>>, excludes: Option<seq<Entry>>)

  /** The `systems` dictionary: its keys in insertion order and its entries. */
  datatype Grouping = Grouping(order: seq<string>, groups: map<string, Group>)

  datatype CompositionError =
    | NoSystem            // an entry without a system (`None.root`)
    | ExcludeNotIterable  // the compose has no exclude list (iterating `None`)
    | NoExcludeKey        // an exclude for a system whose group has no "exclude"

  // ---------------------------------------------------------------------------
  // create_composition as written
  // ---------------------------------------------------------------------------

  /** The grouping with a group for `s`: the existing one, or `opening` added
      as the last key. */
  function Opened(g: Grouping, s: string, opening: Group): Grouping {
    if s in g.groups then g else Grouping(g.order + [s], g.groups[s := opening])
  }

  /** `systems[s]["include"].append(e)`. */
  function AddToIncludes(g: Grouping, s: string, e: Entry): Grouping
    requires s in g.groups && g.groups[s].includes.Some?
  {
    g.(groups := g.groups[s := g.groups[s].(includes := Some(g.groups[s].includes.value + [e]))])
  }

  /** `systems[s]["exclude"].append(e)`. */
  function AddToExcludes(g: Grouping, s: string, e: Entry): Grouping
    requires s in g.groups && g.groups[s].excludes.Some?
  {
    g.(groups := g.groups[s := g.groups[s].(excludes := Some(g.groups[s].excludes.value + [e]))])
  }

  /** One step of the include loop as written. */
  function IncludeStep(g: Grouping, e: Entry): Result<Grouping, CompositionError> {
    if e.system.None? then Failure(NoSystem)
    else
      var s := e.system.value;
      var g1 := Opened(g, s, Group(Some([]), None));
      if g1.groups[s].includes.None? then Failure(NoExcludeKey)
      else Success(AddToIncludes(g1, s, e))
  }

  /** One step of the exclude loop as written: a system seen first here gets a
      group holding only an exclude list. */
  function ExcludeStep(g: Grouping, e: Entry): Result<Grouping, CompositionError> {
    if e.system.None? then Failure(NoSystem)
    else
      var s := e.system.value;
      var g1 := Opened(g, s, Group(None, Some([])));
      if g1.groups[s].excludes.None? then Failure(NoExcludeKey)
      else Success(AddToExcludes(g1, s, e))
  }

  function IncludeAll(g: Grouping, entries: seq<Entry>): Result<Grouping, CompositionError> {
    if |entries| == 0 then Success(g)
    else
      match IncludeAll(g, entries[..|entries| - 1])
      case Failure(err) => Failure(err)
      case Success(g1) => IncludeStep(g1, entries[|entries| - 1])
  }

  function ExcludeAll(g: Grouping, entries: seq<Entry>): Result<Grouping, CompositionError> {
    if |entries| == 0 then Success(g)
    else
      match ExcludeAll(g, entries[..|entries| - 1])
      case Failure(err) => Failure(err)
      case Success(g1) => ExcludeStep(g1, entries[|entries| - 1])
  }

  /** `create_composition` as written: the includes, then the excludes. */
  function CompositionAsWritten(c: Compose): Result<Grouping, CompositionError> {
    match IncludeAll(Grouping([], map[]), c.includes)
    case Failure(err) => Failure(err)
    case Success(g) =>
      if c.excludes.None? then Failure(ExcludeNotIterable)
      else ExcludeAll(g, c.excludes.value)
  }

  /** A compose with one include and no exclude list, the default, is
      refused. */
  lemma NoExcludeListFails()
    ensures CompositionAsWritten(Compose([Entry(Some("http://snomed.info/sct"), "")], None))
      == Failure(ExcludeNotIterable)
  {
    var e := Entry(Some("http://snomed.info/sct"), "");
    assert [e][..0] == [];
  }

  /** A compose that includes and excludes codes of the same system is
      refused: that system's group has no exclude list. */
  lemma ExcludeOnIncludedSystemFails()
    ensures CompositionAsWritten(Compose([Entry(Some("http://loinc.org"), "a")],
                                         Some([Entry(Some("http://loinc.org"), "b")])))
      == Failure(NoExcludeKey)
  {
    var inc := Entry(Some("http://loinc.org"), "a");
    var exc := Entry(Some("http://loinc.org"), "b");
    assert [inc][..0] == [];
    assert [exc][..0] == [];
  }

  // ---------------------------------------------------------------------------
  // create_composition, corrected
  // ---------------------------------------------------------------------------

  /** The systems the entries name, in order of first appearance. */
  function SystemOrder(entries: seq<Entry>): seq<string> {
    if |entries| == 0 then []
    else
      var init := SystemOrder(entries[..|entries| - 1]);
      var e := entries[|entries| - 1];
      if e.system.None? || e.system.value in init then init else init + [e.system.value]
  }

  /** The system order has no repeats and holds exactly the named systems. */
  lemma {:induction false} SystemOrderFacts(entries: seq<Entry>)
    ensures forall i, j :: 0 <= i < j < |SystemOrder(entries)| ==> SystemOrder(entries)[i] != SystemOrder(entries)[j]
    ensures forall s :: s in SystemOrder(entries) <==> exists e :: e in entries && e.system == Some(s)
  {
    if |entries| > 0 {
      var init := entries[..|entries| - 1];
      var e := entries[|entries| - 1];
      assert entries == init + [e];
      SystemOrderFacts(init);
    }
  }

  /** The entries of one system, in their original order. */
  function EntriesFor(entries: seq<Entry>, s: string): seq<Entry> {
    if |entries| == 0 then []
    else
      var e := entries[|entries| - 1];
      EntriesFor(entries[..|entries| - 1], s) + (if e.system == Some(s) then [e] else [])
  }

  /** A system's entries are exactly the entries naming it. */
  lemma {:induction false} EntriesForFacts(entries: seq<Entry>, s: string)
    ensures forall e :: e in EntriesFor(entries, s) <==> e in entries && e.system == Some(s)
    ensures |EntriesFor(entries, s)| <= |entries|
  {
    if |entries| > 0 {
      var init := entries[..|entries| - 1];
      var e := entries[|entries| - 1];
      assert entries == init + [e];
      EntriesForFacts(init, s);
    }
  }

  /** Every entry names a system. */
  predicate AllHaveSystems(entries: seq<Entry>) {
    forall i :: 0 <= i < |entries| ==> entries[i].system.Some?
  }

  function ExcludeList(c: Compose): seq<Entry> {
    if c.excludes.Some? then c.excludes.value else []
  }


  /** The include and exclude lists a group sends, a missing one as []. */
  function Filters(g: Group): (seq<Entry>, seq<Entry>) {
    (if g.includes.Some? then g.includes.value else [], if g.excludes.Some? then g.excludes.value else [])
  }

  /** The dictionary has one group per system the entries name, keyed in
      first-seen order, and sends for each system exactly its own include and
      exclude entries in their original order. */
  ghost predicate GroupsEntries(g: Grouping, incs: seq<Entry>, excs: seq<Entry>) {
    && g.order == SystemOrder(incs + excs)
    && (forall s :: s in g.groups <==> s in g.order)
    && (forall s :: s in g.groups ==> Filters(g.groups[s]) == (EntriesFor(incs, s), EntriesFor(excs, s)))
  }

  /** Every group has both lists. */
  predicate BothLists(g: Grouping) {
    forall s :: s in g.groups ==> g.groups[s].includes.Some? && g.groups[s].excludes.Some?
  }

  /** The grouping the code intends for a compose. */
  ghost predicate IntendedGrouping(c: Compose, g: Grouping) {
    GroupsEntries(g, c.includes, ExcludeList(c)) && BothLists(g)
  }

  /** In the intended grouping every system named by an include or exclude
      entry has exactly one group, listed once in the order. */
  lemma IntendedGroupingSystems(c: Compose, g: Grouping)
    requires IntendedGrouping(c, g)
    ensures forall i, j :: 0 <= i < j < |g.order| ==> g.order[i] != g.order[j]
    ensures forall s :: s in g.groups <==> exists e :: e in c.includes + ExcludeList(c) && e.system == Some(s)
  {
    SystemOrderFacts(c.includes + ExcludeList(c));
  }

  lemma EntriesForAppend(entries: seq<Entry>, e: Entry, s: string)
    ensures EntriesFor(entries + [e], s) == EntriesFor(entries, s) + (if e.system == Some(s) then [e] else [])
  {
    assert (entries + [e])[..|entries|] == entries;
  }

  lemma SystemOrderAppend(entries: seq<Entry>, e: Entry)
    ensures SystemOrder(entries + [e]) ==
      if e.system.None? || e.system.value in SystemOrder(entries) then SystemOrder(entries)
      else SystemOrder(entries) + [e.system.value]
  {
    assert (entries + [e])[..|entries|] == entries;
  }

  lemma {:induction false} NoEntriesForOther(entries: seq<Entry>, s: string)
    requires forall e :: e in entries ==> e.system != Some(s)
    ensures EntriesFor(entries, s) == []
  {
    if |entries| > 0 {
      var init := entries[..|entries| - 1];
      assert entries[|entries| - 1] in entries;
      assert forall e :: e in init ==> e in entries;
      NoEntriesForOther(init, s);
    }
  }

  /** A system no entry names has no entries. */
  lemma NoEntriesForUnseen(incs: seq<Entry>, excs: seq<Entry>, s: string)
    requires s !in SystemOrder(incs + excs)
    ensures EntriesFor(incs, s) == [] && EntriesFor(excs, s) == []
  {
    SystemOrderFacts(incs + excs);
    forall e | e in incs ensures e.system != Some(s) {
      assert e in incs + excs;
    }
    forall e | e in excs ensures e.system != Some(s) {
      assert e in incs + excs;
    }
    NoEntriesForOther(incs, s);
    NoEntriesForOther(excs, s);
  }

  /** Appending an include entry to its system's include list (opening the
      group first if the system is new) keeps the grouping exact. */
  lemma PlaceInclude(g: Grouping, incs: seq<Entry>, e: Entry, opening: Group)
    requires GroupsEntries(g, incs, [])
    requires e.system.Some?
    requires Filters(opening) == ([], [])
    requires Opened(g, e.system.value, opening).groups[e.system.value].includes.Some?
    ensures GroupsEntries(AddToIncludes(Opened(g, e.system.value, opening), e.system.value, e), incs + [e], [])
  {
    var s := e.system.value;
    var g2 := AddToIncludes(Opened(g, s, opening), s, e);
    assert incs + [e] + [] == incs + [e];
    assert incs + [] == incs;
    SystemOrderAppend(incs, e);
    forall t | t in g2.groups ensures Filters(g2.groups[t]) == (EntriesFor(incs + [e], t), EntriesFor([], t)) {
      PlaceIncludeAt(g, incs, e, opening, t);
    }
  }

  lemma PlaceIncludeAt(g: Grouping, incs: seq<Entry>, e: Entry, opening: Group, t: string)
    requires GroupsEntries(g, incs, [])
    requires e.system.Some?
    requires Filters(opening) == ([], [])
    requires Opened(g, e.system.value, opening).groups[e.system.value].includes.Some?
    requires t in AddToIncludes(Opened(g, e.system.value, opening), e.system.value, e).groups
    ensures Filters(AddToIncludes(Opened(g, e.system.value, opening), e.system.value, e).groups[t])
      == (EntriesFor(incs + [e], t), [])
  {
    var s := e.system.value;
    var g1 := Opened(g, s, opening);
    var g2 := AddToIncludes(g1, s, e);
    EntriesForAppend(incs, e, t);
    assert incs + [] == incs;
    if t == s {
      if s !in g.groups {
        NoEntriesForUnseen(incs, [], s);
        assert g1.groups[s] == opening;
      } else {
        assert g1.groups[s] == g.groups[s];
      }
      assert Filters(g1.groups[s]) == (EntriesFor(incs, s), []);
      assert g2.groups[s] == g1.groups[s].(includes := Some(g1.groups[s].includes.value + [e]));
    } else {
      assert t in g.groups;
      assert g2.groups[t] == g1.groups[t] == g.groups[t];
      assert Filters(g.groups[t]) == (EntriesFor(incs, t), EntriesFor([], t));
      assert EntriesFor([], t) == [];
      assert e.system != Some(t);
      assert EntriesFor(incs + [e], t) == EntriesFor(incs, t);
    }
  }

  /** The same for an exclude entry and its system's exclude list. */
  lemma PlaceExclude(g: Grouping, incs: seq<Entry>, excs: seq<Entry>, e: Entry, opening: Group)
    requires GroupsEntries(g, incs, excs)
    requires e.system.Some?
    requires Filters(opening) == ([], [])
    requires Opened(g, e.system.value, opening).groups[e.system.value].excludes.Some?
    ensures GroupsEntries(AddToExcludes(Opened(g, e.system.value, opening), e.system.value, e), incs, excs + [e])
  {
    var s := e.system.value;
    var g2 := AddToExcludes(Opened(g, s, opening), s, e);
    assert incs + (excs + [e]) == (incs + excs) + [e];
    SystemOrderAppend(incs + excs, e);
    forall t | t in g2.groups ensures Filters(g2.groups[t]) == (EntriesFor(incs, t), EntriesFor(excs + [e], t)) {
      PlaceExcludeAt(g, incs, excs, e, opening, t);
    }
  }

  lemma PlaceExcludeAt(g: Grouping, incs: seq<Entry>, excs: seq<Entry>, e: Entry, opening: Group, t: string)
    requires GroupsEntries(g, incs, excs)
    requires e.system.Some?
    requires Filters(opening) == ([], [])
    requires Opened(g, e.system.value, opening).groups[e.system.value].excludes.Some?
    requires t in AddToExcludes(Opened(g, e.system.value, opening), e.system.value, e).groups
    ensures Filters(AddToExcludes(Opened(g, e.system.value, opening), e.system.value, e).groups[t])
      == (EntriesFor(incs, t), EntriesFor(excs + [e], t))
  {
    var s := e.system.value;
    var g1 := Opened(g, s, opening);
    var g2 := AddToExcludes(g1, s, e);
    EntriesForAppend(excs, e, t);
    if t == s {
      if s !in g.groups {
        NoEntriesForUnseen(incs, excs, s);
        assert g1.groups[s] == opening;
      } else {
        assert g1.groups[s] == g.groups[s];
      }
      assert Filters(g1.groups[s]) == (EntriesFor(incs, s), EntriesFor(excs, s));
      assert g2.groups[s] == g1.groups[s].(excludes := Some(g1.groups[s].excludes.value + [e]));
    } else {
      assert t in g.groups;
      assert g2.groups[t] == g1.groups[t] == g.groups[t];
      assert Filters(g.groups[t]) == (EntriesFor(incs, t), EntriesFor(excs, t));
      assert e.system != Some(t);
      assert EntriesFor(excs + [e], t) == EntriesFor(excs, t);
    }
  }

  /** `create_composition` with an absent exclude list read as empty and with
      excludes added to the system's exclude list whether or not the system
      has includes. An entry without a system is still refused. */
  method CreateComposition(c: Compose) returns (r: Result<Grouping, CompositionError>)
    ensures r.Success? <==> AllHaveSystems(c.includes + ExcludeList(c))
    ensures r.Failure? ==> r.error == NoSystem
    ensures r.Success? ==> IntendedGrouping(c, r.value)
  {
    var systems := Grouping([], map[]);
    for i := 0 to |c.includes|
      invariant AllHaveSystems(c.includes[..i])
      invariant GroupsEntries(systems, c.includes[..i], [])
      invariant BothLists(systems)
    {
      var e := c.includes[i];
      assert c.includes[..i + 1] == c.includes[..i] + [e];
      if e.system.None? {
        assert (c.includes + ExcludeList(c))[i] == e;
        return Failure(NoSystem);
      }
      var s := e.system.value;
      PlaceInclude(systems, c.includes[..i], e, Group(Some([]), Some([])));
      systems := Opened(systems, s, Group(Some([]), Some([])));
      systems := AddToIncludes(systems, s, e);
    }
    assert c.includes[..|c.includes|] == c.includes;
    var exclusions := ExcludeList(c);
    assert c.includes + exclusions[..0] == c.includes;
    for j := 0 to |exclusions|
      invariant AllHaveSystems(c.includes + exclusions[..j])
      invariant GroupsEntries(systems, c.includes, exclusions[..j])
      invariant BothLists(systems)
    {
      var e := exclusions[j];
      assert exclusions[..j + 1] == exclusions[..j] + [e];
      assert c.includes + exclusions[..j + 1] == (c.includes + exclusions[..j]) + [e];
      if e.system.None? {
        assert (c.includes + exclusions)[|c.includes| + j] == e;
        return Failure(NoSystem);
      }
      var s := e.system.value;
      PlaceExclude(systems, c.includes, exclusions[..j], e, Group(Some([]), Some([])));
      systems := Opened(systems, s, Group(Some([]), Some([])));
      systems := AddToExcludes(systems, s, e);
    }
    assert exclusions[..|exclusions|] == exclusions;
    r := Success(systems);
  }

  /** The include loop as written, when it succeeds, groups the includes
      exactly. */
  lemma {:induction false} IncludeAllGroups(incs: seq<Entry>)
    requires IncludeAll(Grouping([], map[]), incs).Success?
    ensures GroupsEntries(IncludeAll(Grouping([], map[]), incs).value, incs, [])
  {
    if |incs| == 0 {
      assert incs + [] == [];
    } else {
      var init := incs[..|incs| - 1];
      var e := incs[|incs| - 1];
      assert incs == init + [e];
      IncludeAllGroups(init);
      PlaceInclude(IncludeAll(Grouping([], map[]), init).value, init, e, Group(Some([]), None));
    }
  }

  /** The exclude loop as written, when it succeeds, adds the excludes
      exactly. */
  lemma {:induction false} ExcludeAllGroups(incs: seq<Entry>, g: Grouping, excs: seq<Entry>)
    requires GroupsEntries(g, incs, [])
    requires ExcludeAll(g, excs).Success?
    ensures GroupsEntries(ExcludeAll(g, excs).value, incs, excs)
  {
    if |excs| > 0 {
      var init := excs[..|excs| - 1];
      var e := excs[|excs| - 1];
      assert excs == init + [e];
      ExcludeAllGroups(incs, g, init);
      PlaceExclude(ExcludeAll(g, init).value, incs, init, e, Group(None, Some([])));
    }
  }

  /** Where the code as written succeeds, the corrected grouping asks the
      terminology server the same questions: the same systems in the same
      order, and per system the same include and exclude lists once a missing
      list is read as empty. */
  lemma CorrectionKeepsWorkingComposes(c: Compose, written: Grouping, corrected: Grouping)
    requires CompositionAsWritten(c) == Success(written)
    requires IntendedGrouping(c, corrected)
    ensures written.order == corrected.order
    ensures forall s :: s in written.groups <==> s in corrected.groups
    ensures forall s :: s in written.groups ==> Filters(written.groups[s]) == Filters(corrected.groups[s])
  {
    IncludeAllGroups(c.includes);
    ExcludeAllGroups(c.includes, IncludeAll(Grouping([], map[]), c.includes).value, c.excludes.value);
  }

  /** Each include entry is sent exactly once: the per-system include lists
      of the intended grouping add up to the include list. */
  lemma {:induction false} IncludesPartitioned(entries: seq<Entry>, order: seq<string>)
    requires AllHaveSystems(entries)
    requires forall i, j :: 0 <= i < j < |order| ==> order[i] != order[j]
    requires forall e :: e in entries ==> e.system.value in order
    ensures SumLengths(entries, order) == |entries|
  {
    if |entries| > 0 {
      var init := entries[..|entries| - 1];
      var e := entries[|entries| - 1];
      assert entries == init + [e];
      assert e in entries;
      assert forall x :: x in init ==> x in entries;
      assert AllHaveSystems(init) by {
        forall i | 0 <= i < |init| ensures init[i].system.Some? {
          assert init[i] == entries[i];
        }
      }
      IncludesPartitioned(init, order);
      assert e.system.Some? && e.system.value in order;
      SumLengthsAppend(init, e, order);
      assert SumLengths(entries, order) == SumLengths(init + [e], order);
    } else {
      SumLengthsNone(order);
    }
  }

  /** The total length of the per-system lists of `entries` over `order`. */
  function SumLengths(entries: seq<Entry>, order: seq<string>): nat {
    if |order| == 0 then 0
    else SumLengths(entries, order[..|order| - 1]) + |EntriesFor(entries, order[|order| - 1])|
  }

  lemma {:induction false} SumLengthsNone(order: seq<string>)
    ensures SumLengths([], order) == 0
  {
    if |order| > 0 {
      SumLengthsNone(order[..|order| - 1]);
    }
  }

  lemma {:induction false} SumLengthsAppend(entries: seq<Entry>, e: Entry, order: seq<string>)
    requires e.system.Some?
    requires forall i, j :: 0 <= i < j < |order| ==> order[i] != order[j]
    ensures SumLengths(entries + [e], order) ==
      SumLengths(entries, order) + (if e.system.value in order then 1 else 0)
  {
    if |order| > 0 {
      var init := order[..|order| - 1];
      var last := order[|order| - 1];
      SumLengthsAppend(entries, e, init);
      EntriesForAppend(entries, e, last);
      assert e.system.value in order <==> e.system.value in init || e.system.value == last;
    }
  }

  // ---------------------------------------------------------------------------
  // search / lookup
  // ---------------------------------------------------------------------------

  /** A concept returned by the terminology server. */
  datatype Concept = Concept(system: string, code: string, display: string)

  /** The `$expand` query for one group, search text and count. */
  type SearchFn = (Group, string, int) -> seq<Concept>

  /** The `$validate-code` query for one group and a coding. */
  type LookupFn = (Group, QuestionnaireUtils.Coding) -> bool

  /** The concatenation of the per-system search results, in system order. */
  function SearchResults(order: seq<string>, groups: map<string, Group>, query: SearchFn,
                         text: string, count: int): seq<Concept>
    requires forall s :: s in order ==> s in groups
  {
    if |order| == 0 then []
    else
      SearchResults(order[..|order| - 1], groups, query, text, count) +
      query(groups[order[|order| - 1]], text, count)
  }

  /** Every search result is a result of one system's query, and every such
      result is kept. */
  lemma {:induction false} SearchResultsMembership(order: seq<string>, groups: map<string, Group>,
                                                   query: SearchFn, text: string, count: int)
    requires forall s :: s in order ==> s in groups
    ensures forall x :: x in SearchResults(order, groups, query, text, count) <==>
      exists s :: s in order && x in query(groups[s], text, count)
  {
    if |order| > 0 {
      var init := order[..|order| - 1];
      var s := order[|order| - 1];
      assert order == init + [s];
      SearchResultsMembership(init, groups, query, text, count);
    }
  }

  /** The search loop over the systems of a grouping. */
  method SearchGrouping(g: Grouping, query: SearchFn, text: string, count: int) returns (results: seq<Concept>)
    requires forall s :: s in g.order ==> s in g.groups
    ensures results == SearchResults(g.order, g.groups, query, text, count)
  {
    results := [];
    for i := 0 to |g.order|
      invariant results == SearchResults(g.order[..i], g.groups, query, text, count)
    {
      assert g.order[..i + 1][..i] == g.order[..i];
      results := results + query(g.groups[g.order[i]], text, count);
    }
    assert g.order[..|g.order|] == g.order;
  }

  /** `ValueSet.search` over the corrected grouping. */
  method Search(c: Compose, query: SearchFn, text: string, count: int)
    returns (r: Result<seq<Concept>, CompositionError>)
    ensures r.Success? <==> AllHaveSystems(c.includes + ExcludeList(c))
    ensures r.Success? ==> exists g :: (IntendedGrouping(c, g) &&
      (forall s :: s in g.order ==> s in g.groups) &&
      r.value == SearchResults(g.order, g.groups, query, text, count))
  {
    var systems := CreateComposition(c);
    if systems.Failure? {
      return Failure(systems.error);
    }
    var results := SearchGrouping(systems.value, query, text, count);
    r := Success(results);
  }

  /** The lookup loop over the systems of a grouping, then `any`. */
  method LookupGrouping(g: Grouping, query: LookupFn, code: QuestionnaireUtils.Coding) returns (found: bool)
    requires forall s :: s in g.order ==> s in g.groups
    ensures found <==> exists s :: s in g.order && query(g.groups[s], code)
  {
    var results: seq<bool> := [];
    for i := 0 to |g.order|
      invariant |results| == i
      invariant forall k :: 0 <= k < i ==> results[k] == query(g.groups[g.order[k]], code)
    {
      results := results + [query(g.groups[g.order[i]], code)];
    }
    found := exists k :: 0 <= k < |results| && results[k];
    if !found {
      forall s | s in g.order ensures !query(g.groups[s], code) {
        var k :| 0 <= k < |g.order| && g.order[k] == s;
        assert !results[k];
      }
    }
  }

  /** `ValueSet.lookup` over the corrected grouping: true exactly when some
      system's query accepts the code. */
  method Lookup(c: Compose, query: LookupFn, code: QuestionnaireUtils.Coding)
    returns (r: Result<bool, CompositionError>)
    ensures r.Success? <==> AllHaveSystems(c.includes + ExcludeList(c))
    ensures r.Success? ==> exists g :: (IntendedGrouping(c, g) &&
      (forall s :: s in g.order ==> s in g.groups) &&
      (r.value <==> exists s :: s in g.order && query(g.groups[s], code)))
  {
    var systems := CreateComposition(c);
    if systems.Failure? {
      return Failure(systems.error);
    }
    var found := LookupGrouping(systems.value, query, code);
    r := Success(found);
  }
}
