/** The dashboard's view state: the filter effect that derives
    `filteredData`, the country and location choices offered in the header,
    and the badges of the history table (frontent/src/components/Dashboard.js). */
module Dashboard {
  import opened Wrappers
  import opened Text
  import opened Collections
  import opened Records

  /** The selector value that switches a filter off. */
  const All := "all"

  // ---------------------------------------------------------------------------
  // the three filter callbacks

  function CountryIs(country: string): VaccinationRecord -> bool
  {
    (d: VaccinationRecord) => d.country == Some(country)
  }

  function LocationIs(location: string): VaccinationRecord -> bool
  {
    (d: VaccinationRecord) => d.locationName == Some(location)
  }

  /** `d.vaccine_type?.toLowerCase().includes(term.toLowerCase())`: a record
      without a vaccine type never matches. */
  function VaccineMentions(term: string): VaccinationRecord -> bool
  {
    (d: VaccinationRecord) => d.vaccineType.Some? && Contains(Lower(d.vaccineType.value), Lower(term))
  }

  /** A record is shown when every filter in force accepts it. */
  predicate Selected(d: VaccinationRecord, country: string, location: string, term: string)
  {
    && (country == All || CountryIs(country)(d))
    && (location == All || LocationIs(location)(d))
    && (term == "" || VaccineMentions(term)(d))
  }

  /** `d => selectedCountry === 'all' || d.country === selectedCountry`. */
  function InCountry(country: string): VaccinationRecord -> bool
  {
    (d: VaccinationRecord) => country == All || CountryIs(country)(d)
  }

  function Selection(country: string, location: string, term: string): VaccinationRecord -> bool
  {
    (d: VaccinationRecord) => Selected(d, country, location, term)
  }

  /** The records the dashboard shows for the given selections. */
  function Visible(allData: seq<VaccinationRecord>, country: string, location: string, term: string): (r: seq<VaccinationRecord>)
    ensures |r| <= |allData|
    ensures forall d :: d in r <==> d in allData && Selected(d, country, location, term)
  {
    Filter(allData, Selection(country, location, term))
  }

  /** The shown records are an order-preserving selection of the fetched ones. */
  lemma VisibleIsSubsequence(allData: seq<VaccinationRecord>, country: string, location: string, term: string)
    ensures IsSubsequence(Visible(allData, country, location, term), allData)
    ensures |Visible(allData, country, location, term)| <= |allData|
  {
    FilterIsSubsequence(allData, Selection(country, location, term));
    SubsequenceLength(Visible(allData, country, location, term), allData);
  }

  /** Each filter in force holds of every record shown, and a record is shown
      exactly when it was fetched and all filters in force accept it. */
  lemma VisibleHonoursFilters(allData: seq<VaccinationRecord>, country: string, location: string, term: string)
    ensures forall d :: d in Visible(allData, country, location, term) <==> d in allData && Selected(d, country, location, term)
    ensures country != All ==> forall d :: d in Visible(allData, country, location, term) ==> d.country == Some(country)
    ensures location != All ==> forall d :: d in Visible(allData, country, location, term) ==> d.locationName == Some(location)
    ensures term != "" ==> forall d :: d in Visible(allData, country, location, term) ==>
      d.vaccineType.Some? && Contains(Lower(d.vaccineType.value), Lower(term))
  {
  }

  /** The search ignores case: terms that lower-case alike select the same
      records, and lower-casing the term first changes nothing. */
  lemma SearchIgnoresCase(allData: seq<VaccinationRecord>, country: string, location: string, term: string, other: string)
    requires Lower(other) == Lower(term)
    ensures Visible(allData, country, location, other) == Visible(allData, country, location, term)
    ensures Visible(allData, country, location, Lower(term)) == Visible(allData, country, location, term)
  {
    LowerIdempotent(term);
    assert |other| == |Lower(other)| == |Lower(term)| == |term|;
    FilterCongruent(allData, Selection(country, location, other), Selection(country, location, term));
    FilterCongruent(allData, Selection(country, location, Lower(term)), Selection(country, location, term));
  }

  /** With no filter in force every fetched record is shown, in order. */
  lemma {:induction false} NoFilterShowsEverything(allData: seq<VaccinationRecord>)
    ensures Visible(allData, All, All, "") == allData
  {
    FilterAll(allData, Selection(All, All, ""));
  }

  // ---------------------------------------------------------------------------
  // the header's choices

  function CountryColumn(allData: seq<VaccinationRecord>): seq<Option<string>>
  {
    seq(|allData|, i requires 0 <= i < |allData| => allData[i].country)
  }

  function LocationColumn(rows: seq<VaccinationRecord>): seq<Option<string>>
  {
    seq(|rows|, i requires 0 <= i < |rows| => rows[i].locationName)
  }

  /** `Array.from(new Set(allData.map(d => d.country)))`. */
  function Countries(allData: seq<VaccinationRecord>): (r: seq<Option<string>>)
    ensures NoDuplicates(r) && |r| <= |allData|
  {
    Unique(CountryColumn(allData))
  }

  /** The distinct locations of the records of the selected country, or of
      all records when no country is selected. */
  function Locations(allData: seq<VaccinationRecord>, country: string): (r: seq<Option<string>>)
    ensures NoDuplicates(r) && |r| <= |allData|
  {
    Unique(LocationColumn(Filter(allData, InCountry(country))))
  }

  /** Each country value of the data is offered once, and nothing else is. */
  lemma CountriesAreTheDataCountries(allData: seq<VaccinationRecord>)
    ensures NoDuplicates(Countries(allData))
    ensures forall c :: c in Countries(allData) <==> exists d :: d in allData && d.country == c
  {
    var col := CountryColumn(allData);
    forall c
      ensures c in col <==> exists d :: d in allData && d.country == c
    {
      if c in col {
        var i :| 0 <= i < |col| && col[i] == c;
        assert allData[i] in allData;
      }
      if exists d :: d in allData && d.country == c {
        var d :| d in allData && d.country == c;
        var i :| 0 <= i < |allData| && allData[i] == d;
        assert col[i] == c;
      }
    }
  }

  /** Each location is offered once, and exactly the locations of records
      that pass the country selection are offered. */
  lemma LocationsFollowCountry(allData: seq<VaccinationRecord>, country: string)
    ensures NoDuplicates(Locations(allData, country))
    ensures forall l :: l in Locations(allData, country) <==>
      exists d :: d in allData && (country == All || d.country == Some(country)) && d.locationName == l
  {
    var rows := Filter(allData, InCountry(country));
    var col := LocationColumn(rows);
    forall l
      ensures l in col <==> exists d :: d in allData && (country == All || d.country == Some(country)) && d.locationName == l
    {
      if l in col {
        var i :| 0 <= i < |col| && col[i] == l;
        assert rows[i] in rows && InCountry(country)(rows[i]);
        assert CountryIs(country)(rows[i]) <==> rows[i].country == Some(country);
      }
      if exists d :: d in allData && (country == All || d.country == Some(country)) && d.locationName == l {
        var d :| d in allData && (country == All || d.country == Some(country)) && d.locationName == l;
        assert CountryIs(country)(d) <==> d.country == Some(country);
        assert InCountry(country)(d);
        assert d in rows;
        var i :| 0 <= i < |rows| && rows[i] == d;
        assert col[i] == l;
      }
    }
  }

  // ---------------------------------------------------------------------------
  // the history table

  /** The badges of a history cell: `field?.split(', ')`. */
  function Badges(field: Option<string>): (r: seq<string>)
    ensures field.None? <==> r == []
    ensures field.Some? ==> IsPrefix(r[0], field.value)
  {
    match field
    case None => []
    case Some(s) => Split(s, ", ")
  }

  /** A null cell has no badge; otherwise the badges joined back give the
      cell, and no badge holds the separator. */
  lemma BadgesPartitionTheCell(field: Option<string>)
    ensures field.None? ==> Badges(field) == []
    ensures field.Some? ==> |Badges(field)| >= 1 && Join(Badges(field), ", ") == field.value
    ensures forall b :: b in Badges(field) ==> !Contains(b, ", ")
  {
    if field.Some? {
      JoinSplit(field.value, ", ");
      SplitPiecesAvoidSeparator(field.value, ", ");
    }
  }

  // ---------------------------------------------------------------------------
  // the component's state

  class DashboardState {
    var allData: seq<VaccinationRecord>
    var filteredData: seq<VaccinationRecord>
    var searchTerm: string
    var selectedCountry: string
    var selectedLocation: string

    /** Once the filter effect has run, the shown records follow the selections. */
    ghost predicate Valid()
      reads this
    {
      filteredData == Visible(allData, selectedCountry, selectedLocation, searchTerm)
    }

    constructor ()
      ensures allData == [] && filteredData == [] && searchTerm == ""
      ensures selectedCountry == All && selectedLocation == All
      ensures Valid()
    {
      allData, filteredData, searchTerm := [], [], "";
      selectedCountry, selectedLocation := All, All;
    }

    /** The filter effect: narrow `allData` by each filter in force, in turn. */
    method ApplyFilters()
      modifies this
      ensures filteredData == Visible(allData, selectedCountry, selectedLocation, searchTerm)
      ensures allData == old(allData) && searchTerm == old(searchTerm)
      ensures selectedCountry == old(selectedCountry) && selectedLocation == old(selectedLocation)
    {
      var country, location, term := selectedCountry, selectedLocation, searchTerm;
      ghost var byCountry := InCountry(country);
      ghost var byLocation := (d: VaccinationRecord) => location == All || LocationIs(location)(d);
      ghost var byTerm := (d: VaccinationRecord) => term == "" || VaccineMentions(term)(d);
      ghost var byBoth := (d: VaccinationRecord) => byCountry(d) && byLocation(d);

      var results := allData;
      if country != All {
        results := Filter(results, CountryIs(country));
        FilterCongruent(allData, CountryIs(country), byCountry);
      } else {
        FilterAll(allData, byCountry);
      }
      assert results == Filter(allData, byCountry);

      ghost var before := results;
      if location != All {
        results := Filter(results, LocationIs(location));
        FilterCongruent(before, LocationIs(location), byLocation);
      } else {
        FilterAll(before, byLocation);
      }
      FilterFilter(allData, byCountry, byLocation, byBoth);
      assert results == Filter(allData, byBoth);

      before := results;
      if term != "" {
        results := Filter(results, VaccineMentions(term));
        FilterCongruent(before, VaccineMentions(term), byTerm);
      } else {
        FilterAll(before, byTerm);
      }
      FilterFilter(allData, byBoth, byTerm, Selection(country, location, term));
      filteredData := results;
    }

    /** `fetchData` succeeded: the data is replaced wholesale and the filter
        effect runs again. */
    method DataFetched(records: seq<VaccinationRecord>)
      modifies this
      ensures allData == records && Valid()
      ensures searchTerm == old(searchTerm)
      ensures selectedCountry == old(selectedCountry) && selectedLocation == old(selectedLocation)
    {
      allData := records;
      filteredData := records;
      ApplyFilters();
    }

    /** The search box changed. */
    method SetSearchTerm(term: string)
      modifies this
      ensures searchTerm == term && Valid()
      ensures allData == old(allData)
      ensures selectedCountry == old(selectedCountry) && selectedLocation == old(selectedLocation)
    {
      searchTerm := term;
      ApplyFilters();
    }

    /** The country selector changed: the location selection is reset. */
    method SelectCountry(country: string)
      modifies this
      ensures selectedCountry == country && selectedLocation == All && Valid()
      ensures allData == old(allData) && searchTerm == old(searchTerm)
    {
      selectedCountry := country;
      selectedLocation := All;
      ApplyFilters();
    }

    /** The location selector changed. */
    method SelectLocation(location: string)
      modifies this
      ensures selectedLocation == location && Valid()
      ensures allData == old(allData) && searchTerm == old(searchTerm)
      ensures selectedCountry == old(selectedCountry)
    {
      selectedLocation := location;
      ApplyFilters();
    }
  }
}
