/** The array idioms the charts and the dashboard are built from:
    `filter`, `Array.from(new Set(xs))`, and counting occurrences into an
    insertion-ordered object. */
module Collections {

  // ---------------------------------------------------------------------------
  // Array.prototype.filter

  /** `s.filter(p)`: the elements satisfying `p`, in their original order. */
  function Filter<T(==,!new)>(s: seq<T>, p: T -> bool): (r: seq<T>)
    ensures |r| <= |s|
    ensures forall x :: x in r <==> x in s && p(x)
    ensures forall i :: 0 <= i < |r| ==> p(r[i])
  {
    if s == [] then [] else (if p(s[0]) then [s[0]] else []) + Filter(s[1..], p)
  }

  /** `a` can be obtained from `b` by deleting elements. */
  predicate IsSubsequence<T(==,!new)>(a: seq<T>, b: seq<T>)
    decreases |b|
  {
    if a == [] then true
    else if b == [] then false
    else (a[0] == b[0] && IsSubsequence(a[1..], b[1..])) || IsSubsequence(a, b[1..])
  }

  lemma {:induction false} SubsequenceLength<T(!new)>(a: seq<T>, b: seq<T>)
    requires IsSubsequence(a, b)
    ensures |a| <= |b|
    decreases |b|
  {
    if a != [] {
      if a[0] == b[0] && IsSubsequence(a[1..], b[1..]) {
        SubsequenceLength(a[1..], b[1..]);
      } else {
        SubsequenceLength(a, b[1..]);
      }
    }
  }

  /** Filtering keeps the order of what it keeps. */
  lemma {:induction false} FilterIsSubsequence<T(!new)>(s: seq<T>, p: T -> bool)
    ensures IsSubsequence(Filter(s, p), s)
    decreases |s|
  {
    if s != [] {
      FilterIsSubsequence(s[1..], p);
      if p(s[0]) {
        assert Filter(s, p) == [s[0]] + Filter(s[1..], p);
        assert Filter(s, p)[1..] == Filter(s[1..], p);
      } else {
        assert Filter(s, p) == Filter(s[1..], p);
      }
    }
  }

  /** Filtering by a predicate that holds everywhere changes nothing. */
  lemma {:induction false} FilterAll<T(!new)>(s: seq<T>, p: T -> bool)
    requires forall x :: x in s ==> p(x)
    ensures Filter(s, p) == s
    decreases |s|
  {
    if s != [] {
      FilterAll(s[1..], p);
      assert s == [s[0]] + s[1..];
    }
  }

  /** Filtering twice is filtering once by the conjunction. */
  lemma {:induction false} FilterFilter<T(!new)>(s: seq<T>, p: T -> bool, q: T -> bool, pq: T -> bool)
    requires forall x :: pq(x) == (p(x) && q(x))
    ensures Filter(Filter(s, p), q) == Filter(s, pq)
    decreases |s|
  {
    if s != [] {
      FilterFilter(s[1..], p, q, pq);
      var rest := Filter(s[1..], p);
      if p(s[0]) {
        assert Filter(s, p) == [s[0]] + rest;
        assert ([s[0]] + rest)[1..] == rest;
        assert Filter([s[0]] + rest, q) == (if q(s[0]) then [s[0]] else []) + Filter(rest, q);
      } else {
        assert Filter(s, p) == rest;
      }
    }
  }

  /** Filters that agree on every element give the same result. */
  lemma {:induction false} FilterCongruent<T(!new)>(s: seq<T>, p: T -> bool, q: T -> bool)
    requires forall x :: p(x) == q(x)
    ensures Filter(s, p) == Filter(s, q)
    decreases |s|
  {
    if s != [] {
      FilterCongruent(s[1..], p, q);
    }
  }

  /** Filtering an extended sequence filters the extension last. */
  lemma {:induction false} FilterSnoc<T(!new)>(s: seq<T>, x: T, p: T -> bool)
    ensures Filter(s + [x], p) == Filter(s, p) + (if p(x) then [x] else [])
    decreases |s|
  {
    if s == [] {
      assert [x][1..] == [];
    } else {
      assert (s + [x])[0] == s[0] && (s + [x])[1..] == s[1..] + [x];
      FilterSnoc(s[1..], x, p);
    }
  }

  /** `s.map(f)`. */
  function MapSeq<A, B>(s: seq<A>, f: A -> B): (r: seq<B>)
    ensures |r| == |s|
  {
    seq(|s|, i requires 0 <= i < |s| => f(s[i]))
  }

  /** Filtering by one of two exclusive conditions keeps what each keeps. */
  lemma {:induction false} FilterDisjointLength<T(!new)>(s: seq<T>, p: T -> bool, q: T -> bool, pq: T -> bool)
    requires forall x :: pq(x) == (p(x) || q(x)) && !(p(x) && q(x))
    ensures |Filter(s, pq)| == |Filter(s, p)| + |Filter(s, q)|
    decreases |s|
  {
    if s != [] {
      FilterDisjointLength(s[1..], p, q, pq);
    }
  }

  // ---------------------------------------------------------------------------
  // Array.from(new Set(xs))

  predicate NoDuplicates<T(==,!new)>(s: seq<T>)
  {
    forall i, j :: 0 <= i < j < |s| ==> s[i] != s[j]
  }

  /** `Array.from(new Set(s))`: each distinct element once, in the order of
      its first occurrence. */
  function Unique<T(==,!new)>(s: seq<T>): (r: seq<T>)
    ensures NoDuplicates(r)
    ensures forall x :: x in r <==> x in s
    ensures |r| <= |s|
  {
    if s == [] then []
    else
      var r := Unique(s[..|s| - 1]);
      if s[|s| - 1] in r then r else r + [s[|s| - 1]]
  }

  lemma UniqueSnoc<T(!new)>(s: seq<T>, x: T)
    ensures Unique(s + [x]) == if x in Unique(s) then Unique(s) else Unique(s) + [x]
  {
    assert (s + [x])[..|s|] == s;
  }

  // ---------------------------------------------------------------------------
  // counting into an object: acc[k] = (acc[k] || 0) + 1

  /** The number of occurrences of `x` in `s`. */
  function Count<T(==,!new)>(s: seq<T>, x: T): nat
  {
    if s == [] then 0 else Count(s[..|s| - 1], x) + (if s[|s| - 1] == x then 1 else 0)
  }

  lemma CountSnoc<T(!new)>(s: seq<T>, x: T)
    ensures forall y :: Count(s + [x], y) == Count(s, y) + (if x == y then 1 else 0)
  {
    assert (s + [x])[..|s|] == s;
  }

  /** An element occurs a positive number of times exactly when it is present. */
  lemma {:induction false} CountPositive<T(!new)>(s: seq<T>, x: T)
    ensures Count(s, x) > 0 <==> x in s
    decreases |s|
  {
    if s != [] {
      CountPositive(s[..|s| - 1], x);
      assert s == s[..|s| - 1] + [s[|s| - 1]];
    }
  }

  /** Counting `k` among the images of `s` under `f` counts the elements
      that `f` sends to `k`. */
  lemma {:induction false} CountMapped<A(!new), B(!new)>(s: seq<A>, f: A -> B, k: B, hit: A -> bool)
    requires forall x :: hit(x) == (f(x) == k)
    ensures Count(MapSeq(s, f), k) == |Filter(s, hit)|
    decreases |s|
  {
    if s != [] {
      var init, x := s[..|s| - 1], s[|s| - 1];
      CountMapped(init, f, k, hit);
      assert MapSeq(s, f) == MapSeq(init, f) + [f(x)];
      CountSnoc(MapSeq(init, f), f(x));
      assert s == init + [x];
      FilterSnoc(init, x, hit);
    }
  }

  /** In a duplicate-free sequence every member occurs once. */
  lemma {:induction false} CountInDistinct<T(!new)>(s: seq<T>, x: T)
    requires NoDuplicates(s)
    ensures Count(s, x) == if x in s then 1 else 0
    decreases |s|
  {
    if s != [] {
      var init := s[..|s| - 1];
      CountInDistinct(init, x);
      assert s == init + [s[|s| - 1]];
      if s[|s| - 1] == x {
        assert x !in init;
      }
    }
  }

  /** Tallying one more key into an insertion-ordered object keeps the
      object in step with the keys tallied so far. */
  lemma TallyStep<K(!new)>(seen: seq<K>, order: seq<K>, acc: map<K, nat>, k: K)
    requires order == Unique(seen)
    requires forall x :: x in acc <==> x in order
    requires forall x :: x in acc ==> acc[x] == Count(seen, x)
    ensures k in acc ==> order == Unique(seen + [k])
    ensures k !in acc ==> order + [k] == Unique(seen + [k])
    ensures var acc' := acc[k := if k in acc then acc[k] + 1 else 1];
      forall x :: x in acc' ==> acc'[x] == Count(seen + [k], x)
  {
    UniqueSnoc(seen, k);
    CountSnoc(seen, k);
    if k !in acc {
      CountPositive(seen, k);
    }
  }

  /** One bar of a chart: a key and how many records fell under it. */
  datatype Bucket<K> = Bucket(key: K, count: nat)

  /** Bars for the keys of `order`, each counting its occurrences in `keys`. */
  function Buckets<K(==,!new)>(order: seq<K>, keys: seq<K>): (r: seq<Bucket<K>>)
    ensures |r| == |order|
    ensures forall i :: 0 <= i < |r| ==> r[i] == Bucket(order[i], Count(keys, order[i]))
  {
    if order == [] then []
    else Buckets(order[..|order| - 1], keys) + [Bucket(order[|order| - 1], Count(keys, order[|order| - 1]))]
  }

  /** What counting `keys` into a fresh object and listing its entries yields:
      one bar per distinct key, in first-insertion order. */
  function Histogram<K(==,!new)>(keys: seq<K>): (h: seq<Bucket<K>>)
    ensures NoDuplicates(KeysOf(h))
  {
    var u := Unique(keys);
    assert KeysOf(Buckets(u, keys)) == u;
    Buckets(u, keys)
  }

  /** The sum of the bars' counts. */
  function Total<K>(h: seq<Bucket<K>>): nat
  {
    if h == [] then 0 else h[0].count + Total(h[1..])
  }

  lemma {:induction false} TotalSnoc<K>(h: seq<Bucket<K>>, b: Bucket<K>)
    ensures Total(h + [b]) == Total(h) + b.count
    decreases |h|
  {
    if h != [] {
      assert (h + [b])[1..] == h[1..] + [b];
      TotalSnoc(h[1..], b);
    }
  }

  function KeysOf<K>(h: seq<Bucket<K>>): seq<K>
  {
    seq(|h|, i requires 0 <= i < |h| => h[i].key)
  }

  /** Counting one more key adds one to the total, split over the bars by
      how often that key is listed. */
  lemma {:induction false} TotalBucketsSnoc<K(!new)>(order: seq<K>, keys: seq<K>, x: K)
    ensures Total(Buckets(order, keys + [x])) == Total(Buckets(order, keys)) + Count(order, x)
    decreases |order|
  {
    CountSnoc(keys, x);
    if order != [] {
      var init := order[..|order| - 1];
      var last := order[|order| - 1];
      TotalBucketsSnoc(init, keys, x);
      TotalSnoc(Buckets(init, keys + [x]), Bucket(last, Count(keys + [x], last)));
      TotalSnoc(Buckets(init, keys), Bucket(last, Count(keys, last)));
      assert order == init + [last];
    }
  }

  /** The bars add up to the number of keys counted. */
  lemma {:induction false} HistogramTotal<K(!new)>(keys: seq<K>)
    ensures Total(Histogram(keys)) == |keys|
    decreases |keys|
  {
    if keys != [] {
      var init, x := keys[..|keys| - 1], keys[|keys| - 1];
      assert keys == init + [x];
      HistogramTotal(init);
      var u := Unique(init);
      UniqueSnoc(init, x);
      TotalBucketsSnoc(u, init, x);
      CountInDistinct(u, x);
      if x !in u {
        CountPositive(init, x);
        CountSnoc(init, x);
        assert (u + [x])[..|u|] == u;
        TotalSnoc(Buckets(u, keys), Bucket(x, Count(keys, x)));
      }
    }
  }

  /** One bar per distinct key, each key once, every bar non-empty, each bar
      counting exactly the occurrences of its key, and nothing for no input. */
  lemma HistogramShape<K(!new)>(keys: seq<K>)
    ensures NoDuplicates(KeysOf(Histogram(keys)))
    ensures forall k :: k in KeysOf(Histogram(keys)) <==> k in keys
    ensures forall b :: b in Histogram(keys) ==> b.count == Count(keys, b.key) && b.count >= 1
    ensures keys == [] ==> Histogram(keys) == []
  {
    var h, u := Histogram(keys), Unique(keys);
    assert KeysOf(h) == u;
    forall b | b in h
      ensures b.count == Count(keys, b.key) && b.count >= 1
    {
      CountPositive(keys, b.key);
    }
  }
}
