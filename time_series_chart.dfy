/** The area chart of records per calendar month
    (frontent/src/components/TimeSeriesChart.js). */
module TimeSeriesChart {
  import opened Wrappers
  import opened Text
  import opened Decimal
  import opened Collections
  import opened Records

  // ---------------------------------------------------------------------------
  // the month key

  /** `String(month).padStart(2, '0')`. */
  function MonthDigits(m: Month): string
  {
    PadStart(NatToString(m), 2, '0')
  }

  /** `${date.getFullYear()}-${String(date.getMonth() + 1).padStart(2, '0')}`;
      an invalid date renders both parts as `NaN`. */
  function MonthKey(date: ReportDate): (k: string)
    requires !date.Missing?
    ensures date.Unparseable? ==> k == "NaN-NaN"
    ensures date.Parsed? ==> IsPrefix(IntToString(date.year) + "-", k)
  {
    match date
    case Unparseable => "NaN-NaN"
    case Parsed(year, month) =>
      assert (IntToString(year) + "-" + MonthDigits(month))[..|IntToString(year)| + 1] == IntToString(year) + "-";
      IntToString(year) + "-" + MonthDigits(month)
  }

  /** The month part is two digits that read back as the month. */
  lemma MonthDigitsReadBack(m: Month)
    ensures |MonthDigits(m)| == 2 && IsDigit(MonthDigits(m)[0]) && IsDigit(MonthDigits(m)[1])
    ensures Value(MonthDigits(m)) == m
    ensures MonthDigits(m) == FixedDigits(m, 2)
  {
    ValueOfNatToString(m);
    if m < 10 {
      var p := MonthDigits(m);
      assert p == ['0', DigitChar(m)];
      assert p[..1] == ['0'] && ['0'][..0] == [];
      assert FixedDigits(m, 2) == FixedDigits(0, 1) + [DigitChar(m)];
    } else {
      NatToStringIsFixed(m, 2);
    }
  }

  /** A parsed date's key is the year, a dash, and the two-digit month. */
  lemma MonthKeyLayout(year: int, month: Month)
    ensures var key := MonthKey(Parsed(year, month));
      && key[..|key| - 3] == IntToString(year)
      && key[|key| - 3] == '-'
      && Value(key[|key| - 2..]) == month
  {
    MonthDigitsReadBack(month);
    var key := MonthKey(Parsed(year, month));
    assert key[|key| - 2..] == MonthDigits(month);
  }

  /** With a four-digit year the key is four year digits, a dash and two
      month digits. */
  lemma FourDigitYearKey(year: int, month: Month)
    requires 1000 <= year <= 9999
    ensures MonthKey(Parsed(year, month)) == FixedDigits(year, 4) + ("-" + FixedDigits(month, 2))
  {
    assert Pow10(3) == 1000 && Pow10(4) == 10000;
    NatToStringIsFixed(year, 4);
    MonthDigitsReadBack(month);
  }

  /** For four-digit years the string order of keys is the chronological
      order, and equal keys mean the same month. */
  lemma KeyOrderIsChronological(y1: int, m1: Month, y2: int, m2: Month)
    requires 1000 <= y1 <= 9999 && 1000 <= y2 <= 9999
    ensures Below(MonthKey(Parsed(y1, m1)), MonthKey(Parsed(y2, m2))) <==> y1 < y2 || (y1 == y2 && m1 < m2)
    ensures MonthKey(Parsed(y1, m1)) == MonthKey(Parsed(y2, m2)) <==> y1 == y2 && m1 == m2
  {
    FourDigitYearKey(y1, m1);
    FourDigitYearKey(y2, m2);
    var a1, a2 := FixedDigits(y1, 4), FixedDigits(y2, 4);
    var b1, b2 := "-" + FixedDigits(m1, 2), "-" + FixedDigits(m2, 2);
    FixedDigitsOrder(y1, y2, 4);
    FixedDigitsOrder(m1, m2, 2);
    BelowAppend(a1, b1, a2, b2);
    BelowAppend("-", FixedDigits(m1, 2), "-", FixedDigits(m2, 2));
    if a1 + b1 == a2 + b2 {
      assert (a1 + b1)[..4] == a1 && (a2 + b2)[..4] == a2;
      assert (a1 + b1)[5..] == FixedDigits(m1, 2) && (a2 + b2)[5..] == FixedDigits(m2, 2);
    }
  }

  // ---------------------------------------------------------------------------
  // bucketing

  predicate HasDate(d: VaccinationRecord)
  {
    !d.reportDate.Missing?
  }

  /** The keys of the records the `reduce` does not skip, in order. */
  function MonthKeys(data: seq<VaccinationRecord>): (keys: seq<string>)
  {
    if data == [] then []
    else
      var d := data[|data| - 1];
      MonthKeys(data[..|data| - 1]) + (if HasDate(d) then [MonthKey(d.reportDate)] else [])
  }

  lemma MonthKeysSnoc(data: seq<VaccinationRecord>, d: VaccinationRecord)
    ensures MonthKeys(data + [d]) == MonthKeys(data) + (if HasDate(d) then [MonthKey(d.reportDate)] else [])
  {
    assert (data + [d])[..|data|] == data;
  }

  lemma MonthKeysStep(data: seq<VaccinationRecord>, i: nat)
    requires i < |data|
    ensures MonthKeys(data[..i + 1]) == MonthKeys(data[..i]) + (if HasDate(data[i]) then [MonthKey(data[i].reportDate)] else [])
  {
    assert data[..i + 1] == data[..i] + [data[i]];
    MonthKeysSnoc(data[..i], data[i]);
  }

  /** One key per record with a truthy date. */
  lemma {:induction false} MonthKeysLength(data: seq<VaccinationRecord>)
    ensures |MonthKeys(data)| == |Filter(data, HasDate)|
    decreases |data|
  {
    if data != [] {
      var init := data[..|data| - 1];
      MonthKeysLength(init);
      assert data == init + [data[|data| - 1]];
      FilterSnoc(init, data[|data| - 1], HasDate);
    }
  }

  /** The `reduce`: skip a record with a falsy date, otherwise
      `acc[monthYear] = (acc[monthYear] || 0) + 1`. */
  method CountByMonth(data: seq<VaccinationRecord>) returns (keys: seq<string>, acc: map<string, nat>)
    ensures keys == Unique(MonthKeys(data))
    ensures forall k :: k in acc <==> k in keys
    ensures forall k :: k in acc ==> acc[k] == Count(MonthKeys(data), k)
  {
    keys, acc := [], map[];
    ghost var seen: seq<string> := [];
    for i := 0 to |data|
      invariant seen == MonthKeys(data[..i])
      invariant keys == Unique(seen)
      invariant forall k :: k in acc <==> k in keys
      invariant forall k :: k in acc ==> acc[k] == Count(seen, k)
    {
      MonthKeysStep(data, i);
      if !data[i].reportDate.Missing? {
        var monthYear := MonthKey(data[i].reportDate);
        TallyStep(seen, keys, acc, monthYear);
        if monthYear in acc {
          acc := acc[monthYear := acc[monthYear] + 1];
        } else {
          acc := acc[monthYear := 1];
          keys := keys + [monthYear];
        }
        seen := seen + [monthYear];
      }
    }
    assert data[..|data|] == data;
  }

  // ---------------------------------------------------------------------------
  // sorting by key

  predicate Ascending(h: seq<Bucket<string>>)
  {
    forall i :: 0 < i < |h| ==> Below(h[i - 1].key, h[i].key)
  }

  /** Insert one bar into bars sorted by key. */
  function Insert(b: Bucket<string>, h: seq<Bucket<string>>): (r: seq<Bucket<string>>)
    requires Ascending(h) && b.key !in KeysOf(h)
    ensures Ascending(r)
    ensures multiset(r) == multiset(h) + multiset{b}
    ensures Total(r) == Total(h) + b.count
    ensures r[0] == b || (h != [] && r[0] == h[0])
  {
    if h == [] then
      [b]
    else if Below(b.key, h[0].key) then
      assert ([b] + h)[1..] == h;
      [b] + h
    else
      assert KeysOf(h)[0] == h[0].key;
      assert b.key !in KeysOf(h[1..]) by {
        assert KeysOf(h[1..]) == KeysOf(h)[1..];
      }
      var rest := Insert(b, h[1..]);
      InsertStep(b, h, rest);
      [h[0]] + rest
  }

  lemma InsertStep(b: Bucket<string>, h: seq<Bucket<string>>, rest: seq<Bucket<string>>)
    requires h != [] && Ascending(h) && b.key != h[0].key && !Below(b.key, h[0].key)
    requires rest != [] && Ascending(rest) && (rest[0] == b || (|h| > 1 && rest[0] == h[1]))
    requires multiset(rest) == multiset(h[1..]) + multiset{b}
    requires Total(rest) == Total(h[1..]) + b.count
    ensures Ascending([h[0]] + rest)
    ensures multiset([h[0]] + rest) == multiset(h) + multiset{b}
    ensures Total([h[0]] + rest) == Total(h) + b.count
  {
    BelowTotal(b.key, h[0].key);
    var r := [h[0]] + rest;
    assert r[1..] == rest;
    forall i | 0 < i < |r|
      ensures Below(r[i - 1].key, r[i].key)
    {
      if i > 1 {
        assert r[i - 1] == rest[i - 2] && r[i] == rest[i - 1];
      }
    }
    assert h == [h[0]] + h[1..];
  }

  /** `.sort((a, b) => a.date.localeCompare(b.date))` on bars with distinct keys. */
  function SortByKey(h: seq<Bucket<string>>): (r: seq<Bucket<string>>)
    requires NoDuplicates(KeysOf(h))
    ensures Ascending(r)
    ensures multiset(r) == multiset(h)
    ensures Total(r) == Total(h)
  {
    if h == [] then
      []
    else
      assert KeysOf(h[1..]) == KeysOf(h)[1..];
      var rest := SortByKey(h[1..]);
      FirstKeyIsFresh(h, rest);
      assert h == [h[0]] + h[1..];
      Insert(h[0], rest)
  }

  /** A rearrangement of the bars after the first holds no bar with the first key. */
  lemma FirstKeyIsFresh(h: seq<Bucket<string>>, rest: seq<Bucket<string>>)
    requires h != [] && NoDuplicates(KeysOf(h))
    requires multiset(rest) == multiset(h[1..])
    ensures h[0].key !in KeysOf(rest)
  {
    forall x | x in rest
      ensures x.key != h[0].key
    {
      assert x in multiset(h[1..]);
      var i :| 0 <= i < |h[1..]| && h[1..][i] == x;
      assert KeysOf(h)[i + 1] == x.key && KeysOf(h)[0] == h[0].key;
    }
  }

  /** In ascending bars every later key is larger, so keys are distinct. */
  lemma {:induction false} AscendingIsStrict(h: seq<Bucket<string>>, i: int, j: int)
    requires Ascending(h) && 0 <= i < j < |h|
    ensures Below(h[i].key, h[j].key) && h[i].key != h[j].key
    decreases j - i
  {
    if j == i + 1 {
    } else {
      AscendingIsStrict(h, i, j - 1);
      BelowTransitive(h[i].key, h[j - 1].key, h[j].key);
    }
    if h[i].key == h[j].key {
      BelowIrreflexive(h[i].key);
    }
  }

  // ---------------------------------------------------------------------------
  // the series

  /** The series the component draws for `data`. */
  function Series(data: seq<VaccinationRecord>): seq<Bucket<string>>
  {
    SortByKey(Histogram(MonthKeys(data)))
  }

  /** The bucketing followed by the sort. */
  method ChartData(data: seq<VaccinationRecord>) returns (chart: seq<Bucket<string>>)
    ensures chart == Series(data)
  {
    var keys, acc := CountByMonth(data);
    var unsorted := seq(|keys|, i requires 0 <= i < |keys| => Bucket(keys[i], acc[keys[i]]));
    assert unsorted == Histogram(MonthKeys(data));
    chart := SortByKey(unsorted);
  }

  /** The counts add up to the number of records with a truthy date. */
  lemma SeriesTotal(data: seq<VaccinationRecord>)
    ensures Total(Series(data)) == |Filter(data, HasDate)|
  {
    HistogramTotal(MonthKeys(data));
    MonthKeysLength(data);
  }

  /** Keys are strictly ascending, hence distinct. */
  lemma SeriesAscending(data: seq<VaccinationRecord>)
    ensures forall i, j :: 0 <= i < j < |Series(data)| ==> Below(Series(data)[i].key, Series(data)[j].key)
    ensures NoDuplicates(KeysOf(Series(data)))
  {
    var s := Series(data);
    forall i, j | 0 <= i < j < |s|
      ensures Below(s[i].key, s[j].key) && KeysOf(s)[i] != KeysOf(s)[j]
    {
      AscendingIsStrict(s, i, j);
    }
  }

  /** The points are the month buckets: the keys are exactly the keys of the
      dated records, each counted by its number of records and at least
      once. No records, no points. */
  lemma SeriesPoints(data: seq<VaccinationRecord>)
    ensures forall k :: k in KeysOf(Series(data)) <==> k in MonthKeys(data)
    ensures forall b :: b in Series(data) ==> b.count >= 1 && b.count == Count(MonthKeys(data), b.key)
    ensures data == [] ==> Series(data) == []
  {
    var s, h := Series(data), Histogram(MonthKeys(data));
    HistogramShape(MonthKeys(data));
    forall b | b in s
      ensures b in h
    {
      assert b in multiset(h);
    }
    forall k | k in KeysOf(s)
      ensures k in KeysOf(h)
    {
      var i :| 0 <= i < |s| && s[i].key == k;
      assert s[i] in h;
      var j :| 0 <= j < |h| && h[j] == s[i];
      assert KeysOf(h)[j] == k;
    }
    forall k | k in KeysOf(h)
      ensures k in KeysOf(s)
    {
      var j :| 0 <= j < |h| && h[j].key == k;
      assert h[j] in multiset(s);
      var i :| 0 <= i < |s| && s[i] == h[j];
      assert KeysOf(s)[i] == k;
    }
  }

  /** A record with a falsy date adds to no bucket. */
  lemma UndatedRecordsAreSkipped(data: seq<VaccinationRecord>, d: VaccinationRecord)
    requires d.reportDate.Missing?
    ensures Series(data + [d]) == Series(data)
  {
    MonthKeysSnoc(data, d);
    assert MonthKeys(data + [d]) == MonthKeys(data);
  }
}
