/** The static gym table that the gym search consults (Database.js). */
module GymDatabase {

  datatype GymRecord = GymRecord(
    id: string,
    name: string,
    address: string,
    equipment: seq<string>,
    hours: string,
    description: string)

  const GymData: seq<GymRecord> := [
    GymRecord("1", "Underground Fitness", "2217 San Ramon Valley Blvd Suite E, San Ramon, CA",
              ["Squat Racks", "Deadlift Platforms", "Bench Press"],
              "Mon-Fri: 6am-10pm, Sat-Sun: 8am-8pm",
              "A premier powerlifting gym with state-of-the-art equipment."),
    GymRecord("2", "Iron Paradise", "456 Elm St, City, State",
              ["Power Racks", "Olympic Platforms", "Specialty Bars"],
              "Mon-Sun: 24 hours",
              "Your 24/7 powerlifting haven with a wide range of specialty equipment."),
    GymRecord("3", "24 Hour Fitness", "4770 Willow Rd, Pleasanton, CA",
              ["Bench Press", "Deadlift Bars", "Squat Racks"],
              "Mon-Sun: 24 hours",
              "This is a test."),
    GymRecord("4", "24 Hour Fitness", "4450 Norris Canyon Rd, San Ramon, CA",
              ["Bench Press", "Deadlift Bars", "Squat Racks"],
              "Mon-Sun: 24 hours",
              "San Ramon 24."),
    GymRecord("5", "California Strength", "1538, 2021 Omega Rd #120, San Ramon, CA",
              ["Bench Press", "Deadlift Bars", "Squat Racks"],
              "Mon-Sun: hours",
              "this is california strength")
  ]

  /** The table's ids are "1" to "5", in order and all different, while
      entries 3 and 4 share a name. */
  lemma GymDataShape()
    ensures |GymData| == 5
    ensures forall k :: 0 <= k < |GymData| ==> GymData[k].id == [('1' as int + k) as char]
    ensures forall j, k :: 0 <= j < k < |GymData| ==> GymData[j].id != GymData[k].id
    ensures GymData[2].name == GymData[3].name == "24 Hour Fitness"
  {
    forall j, k | 0 <= j < k < |GymData| ensures GymData[j].id != GymData[k].id {
      assert GymData[j].id[0] != GymData[k].id[0];
    }
  }
}

/** The rules of the nearby-gyms screen: the search keyword, the equipment
    filter, the marker lookup, and the `handleSearch` state transition. The
    places service is not modelled: its answer is an input. */
module NearbyGyms {
  import opened GymDatabase
  import opened JsArray
  import Text

  /** A place returned by the places service: only the fields the screen reads. */
  datatype Place = Place(placeId: string, name: string, vicinity: string)

  const DefaultKeyword := "gym"
  const MinEquipmentQueryLength := 3
  const EquipmentQueryTooShort := "Equipment search query must be at least 3 characters long."
  const FetchFailedMessage := "Failed to fetch nearby gyms. Please try again."
  const NotAvailable := "Information not available"
  const NoDescription := "No additional information available."

  /** The keyword sent to the places service: the trimmed gym query, or
      "gym" when that is empty. It is never empty and never has surrounding
      whitespace. */
  function SearchKeyword(gymQuery: string): (r: string)
    ensures r != [] && Text.Trim(r) == r
    ensures Text.Trim(gymQuery) != [] ==> r == Text.Trim(gymQuery)
    ensures Text.Trim(gymQuery) == [] ==> r == DefaultKeyword
  {
    Text.TrimIdempotent(gymQuery);
    Text.TrimKeepsTrimmed(DefaultKeyword);
    if Text.Trim(gymQuery) != [] then Text.Trim(gymQuery) else DefaultKeyword
  }

  /** The index of the first entry of `table` named `name`. */
  predicate FirstNamed(table: seq<GymRecord>, name: string, k: int) {
    0 <= k < |table| && table[k].name == name &&
    forall j :: 0 <= j < k ==> table[j].name != name
  }

  /** `gymData.find(g => g.name === name)`: the first entry with that name. */
  function DetailsByName(table: seq<GymRecord>, name: string): (r: Option<GymRecord>)
    ensures r.None? <==> forall k :: 0 <= k < |table| ==> table[k].name != name
    ensures r.Some? ==> exists k :: FirstNamed(table, name, k) && r.value == table[k]
  {
    Find(table, (g: GymRecord) => g.name == name)
  }

  /** Whether some equipment item of g contains the query, both lower-cased. */
  function ListsEquipment(g: GymRecord, query: string): (r: bool)
    ensures r <==> exists e :: 0 <= e < |g.equipment| &&
                              Text.Includes(Text.Lower(g.equipment[e]), Text.Lower(query))
  {
    Any(g.equipment, (eq: string) => Text.Includes(Text.Lower(eq), Text.Lower(query)))
  }

  /** The equipment filter's test: the place's first table entry by name lists
      matching equipment. A place with no table entry is dropped. */
  predicate HasEquipment(table: seq<GymRecord>, p: Place, query: string) {
    match DetailsByName(table, p.name)
    case Some(g) => ListsEquipment(g, query)
    case None => false
  }

  /** A place passes the equipment test exactly when the first table entry
      with its name lists matching equipment. */
  lemma HasEquipmentMeans(table: seq<GymRecord>, p: Place, query: string)
    ensures HasEquipment(table, p, query) <==>
            exists k :: FirstNamed(table, p.name, k) && ListsEquipment(table[k], query)
  {
    var d := DetailsByName(table, p.name);
    if d.Some? {
      var k :| FirstNamed(table, p.name, k) && d.value == table[k];
      assert forall k' :: FirstNamed(table, p.name, k') ==> k' == k;
    }
  }

  /** The equipment filter: the places that pass HasEquipment, and no others. */
  function FilterByEquipment(table: seq<GymRecord>, gyms: seq<Place>, query: string): (r: seq<Place>)
    ensures |r| <= |gyms|
  {
    Filter(gyms, (p: Place) => HasEquipment(table, p, query))
  }

  /** The filter keeps exactly the places that pass the equipment test, each
      as many times as it occurs among the places. */
  lemma FilterByEquipmentKeepsExactly(table: seq<GymRecord>, gyms: seq<Place>, query: string)
    ensures var r := FilterByEquipment(table, gyms, query);
            (forall k :: 0 <= k < |r| ==> HasEquipment(table, r[k], query)) &&
            (forall k :: 0 <= k < |gyms| && HasEquipment(table, gyms[k], query) ==> gyms[k] in r)
    ensures forall p :: multiset(FilterByEquipment(table, gyms, query))[p] ==
                        if HasEquipment(table, p, query) then multiset(gyms)[p] else 0
  {
    FilterKeepsExactly(gyms, (p: Place) => HasEquipment(table, p, query));
    FilterMultiset(gyms, (p: Place) => HasEquipment(table, p, query));
  }

  /** The equipment filter keeps the order of the places: its result is a sub-list of them. */
  lemma FilterByEquipmentIsSublist(table: seq<GymRecord>, gyms: seq<Place>, query: string)
    ensures IsSublist(FilterByEquipment(table, gyms, query), gyms)
  {
    FilterIsSublist(gyms, (p: Place) => HasEquipment(table, p, query));
  }

  /** The comparison ignores letter case: queries that lower-case alike filter alike. */
  lemma FilterIgnoresCase(table: seq<GymRecord>, gyms: seq<Place>, q1: string, q2: string)
    requires Text.Lower(q1) == Text.Lower(q2)
    ensures FilterByEquipment(table, gyms, q1) == FilterByEquipment(table, gyms, q2)
  {
    FilterCongruent(gyms, (p: Place) => HasEquipment(table, p, q1), (p: Place) => HasEquipment(table, p, q2));
  }

  /** Filtering the filtered list again with the same query changes nothing. */
  lemma FilterByEquipmentIdempotent(table: seq<GymRecord>, gyms: seq<Place>, query: string)
    ensures FilterByEquipment(table, FilterByEquipment(table, gyms, query), query) ==
            FilterByEquipment(table, gyms, query)
  {
    FilterIdempotent(gyms, (p: Place) => HasEquipment(table, p, query));
  }

  /** The lookup returns the entry at the first index with the name. */
  lemma DetailsAtFirstNamed(table: seq<GymRecord>, name: string, k: int)
    requires FirstNamed(table, name, k)
    ensures DetailsByName(table, name) == Some(table[k])
  {
    var d := DetailsByName(table, name);
    var i :| FirstNamed(table, name, i) && d.value == table[i];
    assert i == k;
  }

  /** Names shared by two table entries resolve to the first: in the gym
      table, '24 Hour Fitness' is id '3', not '4'. */
  lemma DuplicateNameResolvesToFirst()
    ensures GymData[2].name == GymData[3].name == "24 Hour Fitness"
    ensures DetailsByName(GymData, "24 Hour Fitness") == Some(GymData[2])
    ensures DetailsByName(GymData, "24 Hour Fitness").value.id == "3"
  {
    DetailsAtFirstNamed(GymData, "24 Hour Fitness", 2);
  }

  /** The record a marker press shows for a place the table does not know. */
  function Fallback(p: Place): GymRecord {
    GymRecord(p.placeId, p.name, p.vicinity, [NotAvailable], NotAvailable, NoDescription)
  }

  /** `handleMarkerPress`: the first table entry with the place's name,
      unchanged, or the fallback record when no entry has that name. */
  function GymDetailsFor(table: seq<GymRecord>, p: Place): (r: GymRecord)
    ensures r.name == p.name
    ensures (exists k :: 0 <= k < |table| && table[k].name == p.name) ==>
            exists k :: FirstNamed(table, p.name, k) && r == table[k]
    ensures (forall k :: 0 <= k < |table| ==> table[k].name != p.name) ==>
            r.id == p.placeId && r.address == p.vicinity && r.equipment == [NotAvailable] &&
            r.hours == NotAvailable && r.description == NoDescription
  {
    match DetailsByName(table, p.name)
    case Some(g) => g
    case None => Fallback(p)
  }

  /** What a press of the search button did. */
  datatype SearchOutcome =
    | Cleared                                   // both queries blank: lists emptied, no fetch
    | Rejected(message: string)                 // equipment query of 1 or 2 characters
    | Fetched(keyword: string)                  // the places service answered
    | FetchFailed(keyword: string, message: string)

  /** The screen's search state: the two query inputs and the two lists. */
  datatype SearchState = SearchState(
    gymSearchQuery: string,
    equipmentSearchQuery: string,
    gyms: seq<Place>,
    filteredGyms: seq<Place>)

  predicate QueriesBlank(st: SearchState) {
    Text.Trim(st.gymSearchQuery) == [] && Text.Trim(st.equipmentSearchQuery) == []
  }

  /** An equipment query of one or two characters, counted before trimming. */
  predicate EquipmentQueryShort(st: SearchState) {
    0 < |st.equipmentSearchQuery| < MinEquipmentQueryLength
  }

  /** The filtered list is an order-preserving sub-list of the fetched list. */
  predicate FilteredWithinFetched(st: SearchState) {
    IsSublist(st.filteredGyms, st.gyms)
  }

  /** `handleSearch` as a transition. `fetched` is the places service's answer
      for the keyword SearchKeyword(st.gymSearchQuery): the results, or None
      when the request failed. The equipment filter runs over the list as it
      stands after the fetch step. The queries are never changed. */
  function HandleSearch(table: seq<GymRecord>, st: SearchState, fetched: Option<seq<Place>>): (r: (SearchOutcome, SearchState))
    ensures r.1.gymSearchQuery == st.gymSearchQuery
    ensures r.1.equipmentSearchQuery == st.equipmentSearchQuery
  {
    if QueriesBlank(st) then
      (Cleared, st.(gyms := [], filteredGyms := []))
    else if EquipmentQueryShort(st) then
      (Rejected(EquipmentQueryTooShort), st)
    else
      var f := FetchStep(st, fetched);
      (f.0, EquipmentFilterStep(table, f.1))
  }

  /** The fetch: on an answer both lists become the results; on a failure an
      alert is shown and the lists stay as they were. */
  function FetchStep(st: SearchState, fetched: Option<seq<Place>>): (r: (SearchOutcome, SearchState))
    ensures (r.0.Fetched? || r.0.FetchFailed?) && r.0.keyword == SearchKeyword(st.gymSearchQuery)
    ensures r.0.Fetched? <==> fetched.Some?
    ensures fetched.Some? ==> r.1 == st.(gyms := fetched.value, filteredGyms := fetched.value)
    ensures fetched.None? ==> r.1 == st && r.0.message == FetchFailedMessage
  {
    var keyword := SearchKeyword(st.gymSearchQuery);
    match fetched
    case Some(results) => (Fetched(keyword), st.(gyms := results, filteredGyms := results))
    case None => (FetchFailed(keyword, FetchFailedMessage), st)
  }

  /** After the fetch: an equipment query of 3 or more characters narrows the
      filtered list to the fetched places that pass the equipment test. */
  function EquipmentFilterStep(table: seq<GymRecord>, st: SearchState): SearchState {
    if |st.equipmentSearchQuery| >= MinEquipmentQueryLength then
      st.(filteredGyms := FilterByEquipment(table, st.gyms, st.equipmentSearchQuery))
    else
      st
  }

  /** Past the two guards, a search is the fetch step followed by the filter step. */
  lemma SearchAfterGuards(table: seq<GymRecord>, st: SearchState, fetched: Option<seq<Place>>)
    requires !QueriesBlank(st) && !EquipmentQueryShort(st)
    ensures HandleSearch(table, st, fetched) ==
            (FetchStep(st, fetched).0, EquipmentFilterStep(table, FetchStep(st, fetched).1))
  {
  }

  /** Every search keeps the filtered list an order-preserving sub-list of the fetched list. */
  lemma SearchKeepsFilteredWithinFetched(table: seq<GymRecord>, st: SearchState, fetched: Option<seq<Place>>)
    requires FilteredWithinFetched(st)
    ensures FilteredWithinFetched(HandleSearch(table, st, fetched).1)
  {
    if !QueriesBlank(st) && !EquipmentQueryShort(st) {
      var gyms := if fetched.Some? then fetched.value else st.gyms;
      SublistReflexive(gyms);
      FilterByEquipmentIsSublist(table, gyms, st.equipmentSearchQuery);
    }
  }

  /** Both queries blank after trimming: both lists are emptied and nothing is fetched. */
  lemma SearchClearsBlankQueries(table: seq<GymRecord>, st: SearchState, fetched: Option<seq<Place>>)
    requires QueriesBlank(st)
    ensures HandleSearch(table, st, fetched) == (Cleared, st.(gyms := [], filteredGyms := []))
  {
  }

  /** A one- or two-character equipment query is rejected with an alert,
      nothing is fetched and both lists are unchanged. */
  lemma SearchRejectsShortEquipmentQuery(table: seq<GymRecord>, st: SearchState, fetched: Option<seq<Place>>)
    requires !QueriesBlank(st) && EquipmentQueryShort(st)
    ensures HandleSearch(table, st, fetched) == (Rejected(EquipmentQueryTooShort), st)
  {
  }

  /** A successful fetch replaces both lists by the results; the equipment
      filter then narrows the filtered list only for queries of 3 or more
      characters. */
  lemma SearchWithResults(table: seq<GymRecord>, st: SearchState, results: seq<Place>)
    requires !QueriesBlank(st) && !EquipmentQueryShort(st)
    ensures var (outcome, st') := HandleSearch(table, st, Some(results));
            outcome == Fetched(SearchKeyword(st.gymSearchQuery)) &&
            st'.gyms == results &&
            st'.filteredGyms == if |st.equipmentSearchQuery| >= MinEquipmentQueryLength
                                then FilterByEquipment(table, results, st.equipmentSearchQuery)
                                else results
  {
  }

  /** A failed fetch alerts and keeps the fetched list; the equipment filter
      still runs, over that list, for queries of 3 or more characters. */
  lemma SearchWithFailedFetch(table: seq<GymRecord>, st: SearchState)
    requires !QueriesBlank(st) && !EquipmentQueryShort(st)
    ensures var (outcome, st') := HandleSearch(table, st, None);
            outcome == FetchFailed(SearchKeyword(st.gymSearchQuery), FetchFailedMessage) &&
            st'.gyms == st.gyms &&
            st'.filteredGyms == if |st.equipmentSearchQuery| >= MinEquipmentQueryLength
                                then FilterByEquipment(table, st.gyms, st.equipmentSearchQuery)
                                else st.filteredGyms
  {
  }

  /** `handleSearch` exactly as written: the callback run after the fetch
      filters the list captured when the handler was created, that is the
      list from before the fetch, while the fetch has already replaced it. */
  function HandleSearchAsWritten(table: seq<GymRecord>, st: SearchState, fetched: Option<seq<Place>>): (r: (SearchOutcome, SearchState))
    ensures r.1.gymSearchQuery == st.gymSearchQuery
    ensures r.1.equipmentSearchQuery == st.equipmentSearchQuery
    ensures !QueriesBlank(st) && |st.equipmentSearchQuery| >= MinEquipmentQueryLength ==>
              r.1.filteredGyms == FilterByEquipment(table, st.gyms, st.equipmentSearchQuery)
  {
    if QueriesBlank(st) then
      (Cleared, st.(gyms := [], filteredGyms := []))
    else if EquipmentQueryShort(st) then
      (Rejected(EquipmentQueryTooShort), st)
    else
      var f := FetchStep(st, fetched);
      if |st.equipmentSearchQuery| >= MinEquipmentQueryLength then
        (f.0, f.1.(filteredGyms := FilterByEquipment(table, st.gyms, st.equipmentSearchQuery)))
      else
        (f.0, f.1)
  }

  /** As written, a search can leave on screen gyms that the fetch did not
      return: when some gym of the list on screen passes the equipment test
      and the fetch finds nothing, the fetched list is empty but the
      filtered list is not. */
  lemma StaleFilterShowsUnfetchedGym(table: seq<GymRecord>, st: SearchState)
    requires !QueriesBlank(st) && |st.equipmentSearchQuery| >= MinEquipmentQueryLength
    requires FilterByEquipment(table, st.gyms, st.equipmentSearchQuery) != []
    ensures var r := HandleSearchAsWritten(table, st, Some([])).1;
            r.gyms == [] && r.filteredGyms != [] && !FilteredWithinFetched(r)
  {
  }

  /** A one-entry table whose gym lists a "Rack". */
  const RackTable := [GymRecord("1", "G", "", ["Rack"], "", "")]
  const RackPlace := Place("1", "G", "")

  /** An input that shows it: the rack gym on screen, the equipment query
      "Rack", and a fetch that returns nothing. The state before the search
      has its filtered list within its fetched list; the state after does not. */
  lemma StaleFilterExample()
    ensures var st := SearchState("", "Rack", [RackPlace], [RackPlace]);
            FilteredWithinFetched(st) &&
            !FilteredWithinFetched(HandleSearchAsWritten(RackTable, st, Some([])).1)
  {
    var st := SearchState("", "Rack", [RackPlace], [RackPlace]);
    SublistReflexive(st.gyms);
    Text.TrimKeepsTrimmed(st.equipmentSearchQuery);
    RackGymKept();
    StaleFilterShowsUnfetchedGym(RackTable, st);
  }

  /** Filtering the rack gym alone for "Rack" keeps it. */
  lemma RackGymKept()
    ensures FilterByEquipment(RackTable, [RackPlace], "Rack") == [RackPlace]
  {
    RackGymListsRack();
    FilterSingleton(RackPlace, (g: Place) => HasEquipment(RackTable, g, "Rack"));
  }

  /** The rack gym passes the equipment test for "Rack". */
  lemma RackGymListsRack()
    ensures HasEquipment(RackTable, RackPlace, "Rack")
  {
    DetailsAtFirstNamed(RackTable, RackPlace.name, 0);
    assert Text.OccursAt(Text.Lower("Rack"), Text.Lower("Rack"), 0);
  }

  /** The nearby-gyms screen's search state, updated in place by its handlers. */
  class GymSearch {
    /** The gym table the screen consults. */
    const table: seq<GymRecord>
    var gymSearchQuery: string
    var equipmentSearchQuery: string
    var gyms: seq<Place>
    var filteredGyms: seq<Place>

    function State(): SearchState
      reads this
    {
      SearchState(gymSearchQuery, equipmentSearchQuery, gyms, filteredGyms)
    }

    constructor ()
      ensures table == GymData
      ensures State() == SearchState([], [], [], [])
      ensures FilteredWithinFetched(State())
    {
      table := GymData;
      gymSearchQuery, equipmentSearchQuery := [], [];
      gyms, filteredGyms := [], [];
    }

    /** The two text inputs' change handlers. */
    method EnterQueries(gymQuery: string, equipmentQuery: string)
      modifies this`gymSearchQuery, this`equipmentSearchQuery
      ensures State() == old(State()).(gymSearchQuery := gymQuery, equipmentSearchQuery := equipmentQuery)
    {
      gymSearchQuery, equipmentSearchQuery := gymQuery, equipmentQuery;
    }

    /** `handleSearch`, with the places service's answer as input. */
    method Search(fetched: Option<seq<Place>>) returns (outcome: SearchOutcome)
      modifies this`gyms, this`filteredGyms
      ensures (outcome, State()) == HandleSearch(table, old(State()), fetched)
      ensures FilteredWithinFetched(old(State())) ==> FilteredWithinFetched(State())
    {
      ghost var st := State();
      if Text.Trim(gymSearchQuery) == [] && Text.Trim(equipmentSearchQuery) == [] {
        gyms := [];
        filteredGyms := [];
        SearchClearsBlankQueries(table, st, fetched);
        return Cleared;
      }
      if |equipmentSearchQuery| > 0 && |equipmentSearchQuery| < MinEquipmentQueryLength {
        SearchRejectsShortEquipmentQuery(table, st, fetched);
        return Rejected(EquipmentQueryTooShort);
      }
      var keyword := SearchKeyword(gymSearchQuery);
      match fetched {
        case Some(results) =>
          gyms := results;
          filteredGyms := results;
          outcome := Fetched(keyword);
        case None =>
          outcome := FetchFailed(keyword, FetchFailedMessage);
      }
      assert (outcome, State()) == FetchStep(st, fetched);
      ghost var fetchedState := State();
      if |equipmentSearchQuery| >= MinEquipmentQueryLength {
        var filtered := FilterByEquipment(table, gyms, equipmentSearchQuery);
        assert filtered == FilterByEquipment(table, fetchedState.gyms, fetchedState.equipmentSearchQuery);
        filteredGyms := filtered;
        assert State() == fetchedState.(filteredGyms := filtered);
      }
      assert State() == EquipmentFilterStep(table, fetchedState);
      SearchAfterGuards(table, st, fetched);
      if FilteredWithinFetched(st) {
        SearchKeepsFilteredWithinFetched(table, st, fetched);
      }
    }
  }
}
