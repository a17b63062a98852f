/**
 * The query engine of src/hooks/use-doctors.ts: the specialty universe,
 * the autocomplete suggestions and the filter-then-sort pipeline.
 * The doctor list is an input: fetching it is not part of this model.
 */
module UseDoctors {

  import opened Wrappers
  import opened DoctorTypes
  import opened Strings

  /** The hook's four query parameters. */
  datatype Query = Query(
    search: string,
    consultation: Option<string>,
    specialties: seq<string>,
    sortBy: Option<string>)

  /** JavaScript truthiness of a `string | null`: `null` and `''` are both false. */
  predicate Truthy(o: Option<string>)
  {
    o.Some? && o.value != ""
  }

  // ---------------------------------------------------------------------------
  // Specialty universe
  // ---------------------------------------------------------------------------

  /** Some doctor among the first `n` lists `x` as a speciality. */
  predicate ListedBefore(ds: seq<Doctor>, n: int, x: string)
  {
    exists i :: 0 <= i < n && i < |ds| && x in ds[i].speciality
  }

  /** A string below the head of a strictly ascending list is below all of it. */
  lemma BelowHead(x: string, s: seq<string>)
    requires StrictlyAscending(s) && s != [] && LexLess(x, s[0])
    ensures forall j :: 0 <= j < |s| ==> LexLess(x, s[j])
  {
    forall j | 0 < j < |s| ensures LexLess(x, s[j]) {
      LexLessTransitive(x, s[0], s[j]);
    }
  }

  /** Insert a new string into a strictly ascending list at its place. */
  function InsertString(x: string, s: seq<string>): (r: seq<string>)
    requires StrictlyAscending(s) && x !in s
    ensures StrictlyAscending(r)
    ensures |r| == |s| + 1
    ensures forall y :: y in r <==> y == x || y in s
  {
    if s == [] then [x]
    else if LexLess(x, s[0]) then
      BelowHead(x, s);
      [x] + s
    else
      LexLessTotal(x, s[0]);
      var rest := InsertString(x, s[1..]);
      assert forall j :: 0 <= j < |rest| ==> rest[j] in rest;
      [s[0]] + rest
  }

  /**
   * `Array.from(set).sort()` on the distinct specialities: the same strings,
   * strictly ascending.
   */
  function SortStrings(s: seq<string>): (r: seq<string>)
    requires Distinct(s)
    ensures StrictlyAscending(r)
    ensures |r| == |s|
    ensures forall y :: y in r <==> y in s
  {
    if s == [] then []
    else
      assert s[0] !in s[1..] by {
        forall j | 0 <= j < |s[1..]| ensures s[1..][j] != s[0] {
          assert s[1..][j] == s[j + 1];
        }
      }
      InsertString(s[0], SortStrings(s[1..]))
  }

  /**
   * The effect's specialty extraction: every speciality of every doctor is
   * added to a set (kept here as a list without repeats, in insertion order,
   * as a JavaScript `Set` keeps it), which is then sorted.
   */
  method AllSpecialties(ds: seq<Doctor>) returns (r: seq<string>)
    ensures StrictlyAscending(r)
    ensures forall x :: x in r <==> ListedBefore(ds, |ds|, x)
  {
    var seen: seq<string> := [];
    var i := 0;
    while i < |ds|
      invariant 0 <= i <= |ds|
      invariant Distinct(seen)
      invariant forall x :: x in seen <==> ListedBefore(ds, i, x)
    {
      var specs := ds[i].speciality;
      var j := 0;
      while j < |specs|
        invariant 0 <= j <= |specs|
        invariant Distinct(seen)
        invariant forall x :: x in seen <==> ListedBefore(ds, i, x) || x in specs[..j]
      {
        if specs[j] !in seen {
          seen := seen + [specs[j]];
        }
        assert specs[..j + 1] == specs[..j] + [specs[j]];
        j := j + 1;
      }
      assert specs[..j] == specs;
      forall x ensures ListedBefore(ds, i + 1, x) <==> ListedBefore(ds, i, x) || x in specs {
        if ListedBefore(ds, i + 1, x) && !(x in specs) {
          var k :| 0 <= k < i + 1 && k < |ds| && x in ds[k].speciality;
          assert k < i;
        }
      }
      i := i + 1;
    }
    r := SortStrings(seen);
  }

  // ---------------------------------------------------------------------------
  // Matching on names
  // ---------------------------------------------------------------------------

  /** `doctor.name.toLowerCase().includes(text.toLowerCase())`. */
  predicate NameMatches(d: Doctor, text: string)
  {
    Includes(Lower(d.name), Lower(text))
  }

  /** Matching ignores the case of the text searched for. */
  lemma NameMatchesIgnoresCase(d: Doctor, text: string)
    ensures NameMatches(d, Lower(text)) == NameMatches(d, text)
  {
    LowerIdempotent(text);
  }

  // ---------------------------------------------------------------------------
  // Suggestions
  // ---------------------------------------------------------------------------

  /** `doctors.filter(d => NameMatches(d, query))`. */
  function Matching(ds: seq<Doctor>, query: string): (r: seq<Doctor>)
    ensures |r| <= |ds|
  {
    if ds == [] then []
    else (if NameMatches(ds[0], query) then [ds[0]] else []) + Matching(ds[1..], query)
  }

  /** Every doctor kept is from the input and matches the query. */
  lemma {:induction false} MatchingSound(ds: seq<Doctor>, query: string)
    ensures forall d :: d in Matching(ds, query) ==> d in ds && NameMatches(d, query)
  {
    if ds != [] {
      MatchingSound(ds[1..], query);
    }
  }

  /** `.map(doctor => doctor.name)`. */
  function Names(ds: seq<Doctor>): (r: seq<string>)
    ensures |r| == |ds|
    ensures forall i :: 0 <= i < |ds| ==> r[i] == ds[i].name
  {
    if ds == [] then [] else [ds[0].name] + Names(ds[1..])
  }

  /** `.slice(0, n)`. */
  function Take<T>(s: seq<T>, n: nat): (r: seq<T>)
    ensures r <= s
    ensures |r| == if |s| <= n then |s| else n
  {
    if |s| <= n then s else s[..n]
  }

  /**
   * `getSuggestions(query)`: nothing for the empty query, otherwise the names
   * of the first three doctors whose name contains the query, ignoring case.
   */
  function Suggestions(ds: seq<Doctor>, query: string): (r: seq<string>)
    ensures |r| <= 3
    ensures query == "" ==> r == []
    ensures forall i :: 0 <= i < |r| ==> exists d :: d in ds && d.name == r[i] && NameMatches(d, query)
  {
    if query == "" then []
    else
      var m := Matching(ds, query);
      MatchingSound(ds, query);
      assert forall i :: 0 <= i < |m| ==> m[i] in m;
      Take(Names(m), 3)
  }

  /**
   * An independent reading of the suggestion rule: walk the list once, emit
   * the name of each matching doctor, and stop after `n` names.
   */
  function FirstMatchNames(ds: seq<Doctor>, query: string, n: nat): (r: seq<string>)
    ensures |r| <= n
  {
    if n == 0 || ds == [] then []
    else if NameMatches(ds[0], query) then [ds[0].name] + FirstMatchNames(ds[1..], query, n - 1)
    else FirstMatchNames(ds[1..], query, n)
  }

  lemma NamesCons(d: Doctor, m: seq<Doctor>)
    ensures Names([d] + m) == [d.name] + Names(m)
  {
    assert ([d] + m)[1..] == m;
  }

  lemma TakeCons<T>(x: T, s: seq<T>, n: nat)
    requires n > 0
    ensures Take([x] + s, n) == [x] + Take(s, n - 1)
  {
    if |s| + 1 > n {
      assert ([x] + s)[..n] == [x] + s[..n - 1];
    }
  }

  lemma {:induction false} TakeNamesIsScan(ds: seq<Doctor>, query: string, n: nat)
    ensures Take(Names(Matching(ds, query)), n) == FirstMatchNames(ds, query, n)
  {
    if ds != [] {
      var m := Matching(ds[1..], query);
      var hit := NameMatches(ds[0], query);
      assert Matching(ds, query) == (if hit then [ds[0]] else []) + m;
      if !hit {
        assert Matching(ds, query) == m;
        TakeNamesIsScan(ds[1..], query, n);
      } else if n > 0 {
        NamesCons(ds[0], m);
        TakeCons(ds[0].name, Names(m), n);
        TakeNamesIsScan(ds[1..], query, n - 1);
      }
    }
  }

  /** The suggestions are the names met by a left-to-right scan that stops at three. */
  lemma SuggestionsAreFirstThreeMatches(ds: seq<Doctor>, query: string)
    requires query != ""
    ensures Suggestions(ds, query) == FirstMatchNames(ds, query, 3)
  {
    TakeNamesIsScan(ds, query, 3);
  }

  lemma {:induction false} MatchingComplete(ds: seq<Doctor>, query: string, d: Doctor)
    requires d in ds && NameMatches(d, query)
    ensures d in Matching(ds, query)
  {
    if ds[0] != d {
      MatchingComplete(ds[1..], query, d);
    }
  }

  /** Fewer than three suggestions means every matching doctor is suggested. */
  lemma SuggestionsComplete(ds: seq<Doctor>, query: string, d: Doctor)
    requires query != "" && d in ds && NameMatches(d, query)
    requires |Suggestions(ds, query)| < 3
    ensures d.name in Suggestions(ds, query)
  {
    MatchingComplete(ds, query, d);
    var m := Matching(ds, query);
    var k :| 0 <= k < |m| && m[k] == d;
    assert Names(m)[k] == d.name;
  }

  /** A query and its lower-cased form suggest the same names. */
  lemma SuggestionsIgnoreCase(ds: seq<Doctor>, query: string)
    ensures Suggestions(ds, Lower(query)) == Suggestions(ds, query)
  {
    if query != "" {
      TakeNamesIsScan(ds, query, 3);
      TakeNamesIsScan(ds, Lower(query), 3);
      ScanIgnoresCase(ds, query, 3);
    }
  }

  lemma {:induction false} ScanIgnoresCase(ds: seq<Doctor>, query: string, n: nat)
    ensures FirstMatchNames(ds, Lower(query), n) == FirstMatchNames(ds, query, n)
  {
    if n > 0 && ds != [] {
      NameMatchesIgnoresCase(ds[0], query);
      ScanIgnoresCase(ds[1..], query, n);
      ScanIgnoresCase(ds[1..], query, n - 1);
    }
  }

  // ---------------------------------------------------------------------------
  // Filtering
  // ---------------------------------------------------------------------------

  /** `doctor.moc.includes(c)`: the doctor offers the consultation mode labelled `c`. */
  predicate OffersMode(d: Doctor, c: string)
  {
    exists i :: 0 <= i < |d.moc| && d.moc[i].Label() == c
  }

  /** `selected.some(s => doctor.speciality.includes(s))`. */
  predicate SharesSpecialty(d: Doctor, selected: seq<string>)
  {
    exists i :: 0 <= i < |selected| && selected[i] in d.speciality
  }

  /** The filter callback, with its early returns in source order. */
  predicate Keep(q: Query, d: Doctor)
  {
    if q.search != "" && !NameMatches(d, q.search) then false
    else if Truthy(q.consultation) && !OffersMode(d, q.consultation.value) then false
    else if |q.specialties| > 0 then SharesSpecialty(d, q.specialties)
    else true
  }

  /** The callback keeps a doctor exactly when all three tests pass. */
  lemma KeepIff(q: Query, d: Doctor)
    ensures Keep(q, d) <==>
      && (q.search == "" || NameMatches(d, q.search))
      && (!Truthy(q.consultation) || OffersMode(d, q.consultation.value))
      && (q.specialties == [] || SharesSpecialty(d, q.specialties))
  {
  }

  /** `doctors.filter(Keep)`: the kept doctors in their original order. */
  function FilterDoctors(ds: seq<Doctor>, q: Query): (r: seq<Doctor>)
    ensures |r| <= |ds|
    ensures multiset(r) <= multiset(ds)
    ensures forall d :: d in r ==> Keep(q, d)
  {
    if ds == [] then []
    else
      assert ds == [ds[0]] + ds[1..];
      (if Keep(q, ds[0]) then [ds[0]] else []) + FilterDoctors(ds[1..], q)
  }

  lemma {:induction false} FilterMembership(ds: seq<Doctor>, q: Query, d: Doctor)
    ensures d in FilterDoctors(ds, q) <==> d in ds && Keep(q, d)
  {
    if ds != [] {
      FilterMembership(ds[1..], q, d);
    }
  }

  lemma {:induction false} FilterKeepsAllKept(ds: seq<Doctor>, q: Query)
    requires forall d :: d in ds ==> Keep(q, d)
    ensures FilterDoctors(ds, q) == ds
  {
    if ds != [] {
      assert ds[0] in ds;
      FilterKeepsAllKept(ds[1..], q);
      assert ds == [ds[0]] + ds[1..];
    }
  }

  /**
   * Filtering a concatenation filters each part: the kept doctors stay in
   * input order, each as often as it occurs.
   */
  lemma {:induction false} FilterConcat(a: seq<Doctor>, b: seq<Doctor>, q: Query)
    ensures FilterDoctors(a + b, q) == FilterDoctors(a, q) + FilterDoctors(b, q)
  {
    if a == [] {
      assert a + b == b;
    } else {
      assert (a + b)[1..] == a[1..] + b;
      FilterConcat(a[1..], b, q);
    }
  }

  /** Filtering the filtered list changes nothing. */
  lemma FilterIdempotent(ds: seq<Doctor>, q: Query)
    ensures FilterDoctors(FilterDoctors(ds, q), q) == FilterDoctors(ds, q)
  {
    FilterKeepsAllKept(FilterDoctors(ds, q), q);
  }

  // ---------------------------------------------------------------------------
  // Sorting
  // ---------------------------------------------------------------------------

  /** The sort key: ascending fee, descending experience, or all equal. */
  function Rank(sortBy: Option<string>, d: Doctor): int
  {
    if sortBy == Some("fees") then d.fee
    else if sortBy == Some("experience") then -d.experience
    else 0
  }

  /** The comparator passed to `sort`; it orders doctors by `Rank`. */
  function Compare(sortBy: Option<string>, a: Doctor, b: Doctor): (c: int)
    ensures c == Rank(sortBy, a) - Rank(sortBy, b)
  {
    if sortBy == Some("fees") then a.fee - b.fee
    else if sortBy == Some("experience") then b.experience - a.experience
    else 0
  }

  predicate SortedBy(sortBy: Option<string>, s: seq<Doctor>)
  {
    forall i, j :: 0 <= i < j < |s| ==> Rank(sortBy, s[i]) <= Rank(sortBy, s[j])
  }

  /** The doctors of `s` whose rank is `k`, in the order of `s`. */
  function WithRank(sortBy: Option<string>, s: seq<Doctor>, k: int): seq<Doctor>
  {
    if s == [] then []
    else (if Rank(sortBy, s[0]) == k then [s[0]] else []) + WithRank(sortBy, s[1..], k)
  }

  /** Insert `x` before the first element it does not compare above. */
  function Insert(sortBy: Option<string>, x: Doctor, s: seq<Doctor>): (r: seq<Doctor>)
    ensures |r| == |s| + 1
    ensures multiset(r) == multiset(s) + multiset{x}
  {
    if s == [] || Compare(sortBy, x, s[0]) <= 0 then [x] + s
    else
      assert s == [s[0]] + s[1..];
      [s[0]] + Insert(sortBy, x, s[1..])
  }

  /**
   * A stable sort under `Compare`, as `Array.prototype.sort` must be since
   * ECMAScript 2019: insertion sort from the back of the list.
   */
  function StableSort(sortBy: Option<string>, s: seq<Doctor>): (r: seq<Doctor>)
    ensures |r| == |s|
    ensures multiset(r) == multiset(s)
  {
    if s == [] then []
    else
      assert s == [s[0]] + s[1..];
      Insert(sortBy, s[0], StableSort(sortBy, s[1..]))
  }

  lemma SortedTail(sortBy: Option<string>, s: seq<Doctor>)
    requires s != [] && SortedBy(sortBy, s)
    ensures SortedBy(sortBy, s[1..])
  {
    var t := s[1..];
    forall i, j | 0 <= i < j < |t| ensures Rank(sortBy, t[i]) <= Rank(sortBy, t[j]) {
      assert t[i] == s[i + 1] && t[j] == s[j + 1];
    }
  }

  /** Inserting keeps every rank at or above a common lower bound. */
  lemma {:induction false} InsertAbove(sortBy: Option<string>, x: Doctor, s: seq<Doctor>, lo: int)
    requires lo <= Rank(sortBy, x)
    requires forall j :: 0 <= j < |s| ==> lo <= Rank(sortBy, s[j])
    ensures forall j :: 0 <= j < |s| + 1 ==> lo <= Rank(sortBy, Insert(sortBy, x, s)[j])
  {
    if s != [] && Compare(sortBy, x, s[0]) > 0 {
      var t := s[1..];
      assert forall j :: 0 <= j < |t| ==> t[j] == s[j + 1];
      InsertAbove(sortBy, x, t, lo);
      var rest := Insert(sortBy, x, t);
      assert Insert(sortBy, x, s) == [s[0]] + rest;
      forall j | 0 <= j < |s| + 1 ensures lo <= Rank(sortBy, ([s[0]] + rest)[j]) {
        if j > 0 { assert ([s[0]] + rest)[j] == rest[j - 1]; }
      }
    } else {
      assert Insert(sortBy, x, s) == [x] + s;
      forall j | 0 <= j < |s| + 1 ensures lo <= Rank(sortBy, ([x] + s)[j]) {
        if j > 0 { assert ([x] + s)[j] == s[j - 1]; }
      }
    }
  }

  lemma {:induction false} InsertSorted(sortBy: Option<string>, x: Doctor, s: seq<Doctor>)
    requires SortedBy(sortBy, s)
    ensures SortedBy(sortBy, Insert(sortBy, x, s))
  {
    if s != [] && Compare(sortBy, x, s[0]) > 0 {
      var t := s[1..];
      SortedTail(sortBy, s);
      InsertSorted(sortBy, x, t);
      assert forall j :: 0 <= j < |t| ==> t[j] == s[j + 1];
      InsertAbove(sortBy, x, t, Rank(sortBy, s[0]));
      var rest := Insert(sortBy, x, t);
      var r := [s[0]] + rest;
      assert Insert(sortBy, x, s) == r;
      forall i, j | 0 <= i < j < |r| ensures Rank(sortBy, r[i]) <= Rank(sortBy, r[j]) {
        assert r[j] == rest[j - 1];
        if i > 0 {
          assert r[i] == rest[i - 1];
        }
      }
    } else {
      var r := [x] + s;
      assert Insert(sortBy, x, s) == r;
      forall i, j | 0 <= i < j < |r| ensures Rank(sortBy, r[i]) <= Rank(sortBy, r[j]) {
        assert r[j] == s[j - 1];
        if i > 0 {
          assert r[i] == s[i - 1];
        } else if s != [] {
          assert Rank(sortBy, s[0]) <= Rank(sortBy, s[j - 1]);
        }
      }
    }
  }

  lemma {:induction false} StableSortSorted(sortBy: Option<string>, s: seq<Doctor>)
    ensures SortedBy(sortBy, StableSort(sortBy, s))
  {
    if s != [] {
      StableSortSorted(sortBy, s[1..]);
      InsertSorted(sortBy, s[0], StableSort(sortBy, s[1..]));
    }
  }

  lemma WithRankCons(sortBy: Option<string>, a: Doctor, t: seq<Doctor>, k: int)
    ensures WithRank(sortBy, [a] + t, k) == (if Rank(sortBy, a) == k then [a] else []) + WithRank(sortBy, t, k)
  {
    assert ([a] + t)[0] == a && ([a] + t)[1..] == t;
  }

  lemma {:induction false} InsertWithRank(sortBy: Option<string>, x: Doctor, s: seq<Doctor>, k: int)
    ensures WithRank(sortBy, Insert(sortBy, x, s), k)
         == (if Rank(sortBy, x) == k then [x] else []) + WithRank(sortBy, s, k)
  {
    if s == [] || Compare(sortBy, x, s[0]) <= 0 {
      WithRankCons(sortBy, x, s, k);
    } else {
      var rest := Insert(sortBy, x, s[1..]);
      WithRankCons(sortBy, s[0], rest, k);
      WithRankCons(sortBy, s[0], s[1..], k);
      assert [s[0]] + s[1..] == s;
      InsertWithRank(sortBy, x, s[1..], k);
      if Rank(sortBy, x) == k {
        // `s[0]` ranks strictly below `x`, so it is not among rank `k`.
        assert WithRank(sortBy, [s[0]] + rest, k) == WithRank(sortBy, rest, k);
        assert WithRank(sortBy, s, k) == WithRank(sortBy, s[1..], k);
      } else {
        assert WithRank(sortBy, rest, k) == WithRank(sortBy, s[1..], k);
      }
    }
  }

  /** Equal-rank doctors keep their relative order. */
  lemma {:induction false} StableSortStable(sortBy: Option<string>, s: seq<Doctor>, k: int)
    ensures WithRank(sortBy, StableSort(sortBy, s), k) == WithRank(sortBy, s, k)
  {
    if s != [] {
      StableSortStable(sortBy, s[1..], k);
      InsertWithRank(sortBy, s[0], StableSort(sortBy, s[1..]), k);
    }
  }

  /** An already sorted list is left exactly as it is. */
  lemma {:induction false} StableSortOfSorted(sortBy: Option<string>, s: seq<Doctor>)
    requires SortedBy(sortBy, s)
    ensures StableSort(sortBy, s) == s
  {
    if s != [] {
      SortedTail(sortBy, s);
      StableSortOfSorted(sortBy, s[1..]);
      assert s == [s[0]] + s[1..];
    }
  }

  lemma {:induction false} WithRankEmpty(sortBy: Option<string>, s: seq<Doctor>, k: int)
    requires forall j :: 0 <= j < |s| ==> Rank(sortBy, s[j]) != k
    ensures WithRank(sortBy, s, k) == []
  {
    if s != [] {
      WithRankEmpty(sortBy, s[1..], k);
    }
  }

  /** What `WithRank` says about the head of a list, and below it. */
  lemma WithRankFacts(sortBy: Option<string>, s: seq<Doctor>, k: int)
    ensures s != [] ==>
      WithRank(sortBy, s, k) == (if Rank(sortBy, s[0]) == k then [s[0]] else []) + WithRank(sortBy, s[1..], k)
    ensures SortedBy(sortBy, s) && (s == [] || k < Rank(sortBy, s[0])) ==> WithRank(sortBy, s, k) == []
  {
    if SortedBy(sortBy, s) && (s == [] || k < Rank(sortBy, s[0])) {
      WithRankEmpty(sortBy, s, k);
    }
  }

  /**
   * Sortedness and stability pin the result down: two sorted lists with the
   * same doctors at every rank, in the same order, are equal.
   */
  lemma {:induction false} SortedSameRanksEqual(sortBy: Option<string>, a: seq<Doctor>, b: seq<Doctor>)
    requires SortedBy(sortBy, a) && SortedBy(sortBy, b)
    requires forall k :: WithRank(sortBy, a, k) == WithRank(sortBy, b, k)
    ensures a == b
  {
    if a != [] && b != [] {
      var ka, kb := Rank(sortBy, a[0]), Rank(sortBy, b[0]);
      WithRankFacts(sortBy, a, ka);
      WithRankFacts(sortBy, b, ka);
      WithRankFacts(sortBy, a, kb);
      WithRankFacts(sortBy, b, kb);
      if ka == kb {
        assert WithRank(sortBy, a, ka) == WithRank(sortBy, b, ka);
        assert a[0] == WithRank(sortBy, a, ka)[0] == b[0];
        forall k ensures WithRank(sortBy, a[1..], k) == WithRank(sortBy, b[1..], k) {
          WithRankFacts(sortBy, a, k);
          WithRankFacts(sortBy, b, k);
          assert WithRank(sortBy, a, k) == WithRank(sortBy, b, k);
          if k == ka {
            assert WithRank(sortBy, a, k)[1..] == WithRank(sortBy, a[1..], k);
            assert WithRank(sortBy, b, k)[1..] == WithRank(sortBy, b[1..], k);
          } else {
            assert WithRank(sortBy, a, k) == WithRank(sortBy, a[1..], k);
            assert WithRank(sortBy, b, k) == WithRank(sortBy, b[1..], k);
          }
        }
        SortedSameRanksEqual(sortBy, a[1..], b[1..]);
        assert a == [a[0]] + a[1..] && b == [b[0]] + b[1..];
      }
    } else {
      var k := if a != [] then Rank(sortBy, a[0]) else if b != [] then Rank(sortBy, b[0]) else 0;
      WithRankFacts(sortBy, a, k);
      WithRankFacts(sortBy, b, k);
    }
  }

  /**
   * Any sorted rearrangement that keeps equal-rank doctors in input order is
   * the one `StableSort` produces.
   */
  lemma StableSortUnique(sortBy: Option<string>, s: seq<Doctor>, r: seq<Doctor>)
    requires SortedBy(sortBy, r)
    requires forall k :: WithRank(sortBy, r, k) == WithRank(sortBy, s, k)
    ensures r == StableSort(sortBy, s)
  {
    StableSortSorted(sortBy, s);
    forall k ensures WithRank(sortBy, r, k) == WithRank(sortBy, StableSort(sortBy, s), k) {
      StableSortStable(sortBy, s, k);
    }
    SortedSameRanksEqual(sortBy, r, StableSort(sortBy, s));
  }

  // ---------------------------------------------------------------------------
  // The pipeline
  // ---------------------------------------------------------------------------

  /** `filteredDoctors`: filter, then stable-sort by the selected key. */
  function VisibleDoctors(ds: seq<Doctor>, q: Query): (r: seq<Doctor>)
    ensures |r| <= |ds|
    ensures multiset(r) <= multiset(ds)
  {
    StableSort(q.sortBy, FilterDoctors(ds, q))
  }

  /** A doctor is listed exactly when it is in the input and passes the filter. */
  lemma VisibleMembership(ds: seq<Doctor>, q: Query, d: Doctor)
    ensures d in VisibleDoctors(ds, q) <==> d in ds && Keep(q, d)
  {
    var f := FilterDoctors(ds, q);
    assert d in VisibleDoctors(ds, q) <==> d in multiset(f);
    FilterMembership(ds, q, d);
  }

  /** The listed doctors are a rearrangement of the filtered ones. */
  lemma VisiblePermutation(ds: seq<Doctor>, q: Query)
    ensures multiset(VisibleDoctors(ds, q)) == multiset(FilterDoctors(ds, q))
    ensures multiset(VisibleDoctors(ds, q)) <= multiset(ds)
  {
  }

  /** With `'fees'` the listed fees never decrease. */
  lemma VisibleByFee(ds: seq<Doctor>, q: Query)
    requires q.sortBy == Some("fees")
    ensures forall i, j :: 0 <= i < j < |VisibleDoctors(ds, q)| ==>
      VisibleDoctors(ds, q)[i].fee <= VisibleDoctors(ds, q)[j].fee
  {
    StableSortSorted(q.sortBy, FilterDoctors(ds, q));
  }

  /** With `'experience'` the listed experience never increases. */
  lemma VisibleByExperience(ds: seq<Doctor>, q: Query)
    requires q.sortBy == Some("experience")
    ensures forall i, j :: 0 <= i < j < |VisibleDoctors(ds, q)| ==>
      VisibleDoctors(ds, q)[i].experience >= VisibleDoctors(ds, q)[j].experience
  {
    StableSortSorted(q.sortBy, FilterDoctors(ds, q));
  }

  /** Doctors with an equal sort key appear in their filtered (input) order. */
  lemma VisibleStable(ds: seq<Doctor>, q: Query, k: int)
    ensures WithRank(q.sortBy, VisibleDoctors(ds, q), k) == WithRank(q.sortBy, FilterDoctors(ds, q), k)
  {
    StableSortStable(q.sortBy, FilterDoctors(ds, q), k);
  }

  /** Without a recognised sort key the filtered order is kept. */
  lemma VisibleUnsorted(ds: seq<Doctor>, q: Query)
    requires q.sortBy != Some("fees") && q.sortBy != Some("experience")
    ensures VisibleDoctors(ds, q) == FilterDoctors(ds, q)
  {
    StableSortOfSorted(q.sortBy, FilterDoctors(ds, q));
  }

  /** Applying the same query to the listed doctors lists them again unchanged. */
  lemma VisibleIdempotent(ds: seq<Doctor>, q: Query)
    ensures VisibleDoctors(VisibleDoctors(ds, q), q) == VisibleDoctors(ds, q)
  {
    var v := VisibleDoctors(ds, q);
    forall d | d in v ensures Keep(q, d) {
      VisibleMembership(ds, q, d);
    }
    FilterKeepsAllKept(v, q);
    StableSortSorted(q.sortBy, FilterDoctors(ds, q));
    StableSortOfSorted(q.sortBy, v);
  }

  /** A doctor without specialities is never listed once a specialty is selected. */
  lemma NoSpecialityExcluded(ds: seq<Doctor>, q: Query, d: Doctor)
    requires q.specialties != [] && d.speciality == []
    ensures d !in VisibleDoctors(ds, q)
  {
    VisibleMembership(ds, q, d);
  }
}
