/** The bar chart of records per age group
    (frontent/src/components/AgeGroupChart.js). */
module AgeGroupChart {
  import opened Wrappers
  import opened Collections
  import opened Records

  const Unknown := "Unknown"

  /** `curr.age_group || 'Unknown'`. */
  function GroupOf(d: VaccinationRecord): (g: string)
    ensures g != ""
    ensures d.ageGroup.Some? && d.ageGroup.value != "" ==> g == d.ageGroup.value
    ensures d.ageGroup.None? || d.ageGroup.value == "" ==> g == Unknown
  {
    if d.ageGroup.None? || d.ageGroup.value == "" then Unknown else d.ageGroup.value
  }

  function Groups(data: seq<VaccinationRecord>): seq<string>
  {
    MapSeq(data, GroupOf)
  }

  /** The chart the component draws for `data`. */
  function Chart(data: seq<VaccinationRecord>): seq<Bucket<string>>
  {
    Histogram(Groups(data))
  }

  /** The `reduce` over the records: `acc[group] = (acc[group] || 0) + 1`,
      with the object's keys kept in insertion order. */
  method CountByGroup(data: seq<VaccinationRecord>) returns (keys: seq<string>, acc: map<string, nat>)
    ensures keys == Unique(Groups(data))
    ensures forall g :: g in acc <==> g in keys
    ensures forall g :: g in acc ==> acc[g] == Count(Groups(data), g)
  {
    keys, acc := [], map[];
    ghost var seen: seq<string> := [];
    for i := 0 to |data|
      invariant seen == Groups(data[..i])
      invariant keys == Unique(seen)
      invariant forall g :: g in acc <==> g in keys
      invariant forall g :: g in acc ==> acc[g] == Count(seen, g)
    {
      var group := GroupOf(data[i]);
      GroupsStep(data, i);
      TallyStep(seen, keys, acc, group);
      if group in acc {
        acc := acc[group := acc[group] + 1];
      } else {
        acc := acc[group := 1];
        keys := keys + [group];
      }
      seen := seen + [group];
    }
    assert data[..|data|] == data;
  }

  lemma GroupsStep(data: seq<VaccinationRecord>, i: nat)
    requires i < |data|
    ensures Groups(data[..i + 1]) == Groups(data[..i]) + [GroupOf(data[i])]
  {
  }

  /** `Object.keys(processed).map(key => ({ name: key, count: processed[key] }))`. */
  method ChartData(data: seq<VaccinationRecord>) returns (chart: seq<Bucket<string>>)
    ensures chart == Chart(data)
  {
    var keys, acc := CountByGroup(data);
    chart := seq(|keys|, i requires 0 <= i < |keys| => Bucket(keys[i], acc[keys[i]]));
  }

  /** The bars add up to the number of records. */
  lemma ChartTotal(data: seq<VaccinationRecord>)
    ensures Total(Chart(data)) == |data|
  {
    HistogramTotal(Groups(data));
  }

  /** Every bar has its own name and at least one record; each name is the
      group of some record, every record's group has a bar, and each bar
      counts exactly the records of its group. No records, no bars. */
  lemma ChartBars(data: seq<VaccinationRecord>)
    ensures NoDuplicates(KeysOf(Chart(data)))
    ensures forall d :: d in data ==> GroupOf(d) in KeysOf(Chart(data))
    ensures forall g :: g in KeysOf(Chart(data)) ==> exists d :: d in data && GroupOf(d) == g
    ensures forall b :: b in Chart(data) ==>
      b.count >= 1 && b.count == |Filter(data, (d: VaccinationRecord) => GroupOf(d) == b.key)|
    ensures data == [] ==> Chart(data) == []
  {
    HistogramShape(Groups(data));
    forall d | d in data
      ensures GroupOf(d) in Groups(data)
    {
      var i :| 0 <= i < |data| && data[i] == d;
      assert Groups(data)[i] == GroupOf(d);
    }
    forall g | g in Groups(data)
      ensures exists d :: d in data && GroupOf(d) == g
    {
      var i :| 0 <= i < |data| && Groups(data)[i] == g;
      assert data[i] in data;
    }
    forall b | b in Chart(data)
      ensures b.count == |Filter(data, (d: VaccinationRecord) => GroupOf(d) == b.key)|
    {
      CountMapped(data, GroupOf, b.key, (d: VaccinationRecord) => GroupOf(d) == b.key);
    }
  }

  predicate HasNoGroup(d: VaccinationRecord)
  {
    d.ageGroup == None || d.ageGroup == Some("")
  }

  /** The `'Unknown'` bar counts the records without an age group together
      with those whose group is literally `'Unknown'`. */
  lemma UnknownCollectsMissingGroups(data: seq<VaccinationRecord>)
    ensures Count(Groups(data), Unknown) ==
      |Filter(data, HasNoGroup)| + |Filter(data, (d: VaccinationRecord) => d.ageGroup == Some(Unknown))|
  {
    var isUnknown := (d: VaccinationRecord) => GroupOf(d) == Unknown;
    CountMapped(data, GroupOf, Unknown, isUnknown);
    FilterDisjointLength(data, HasNoGroup, (d: VaccinationRecord) => d.ageGroup == Some(Unknown), isUnknown);
  }
}
