/**
 * The page controller of src/pages/Index.tsx: four pieces of query state,
 * read from the URL once, changed only by the page's handlers, and written
 * back to the URL whenever they change.
 */
module IndexPage {

  import opened Wrappers
  import opened DoctorTypes
  import opened Strings
  import opened UseDoctors
  import opened SearchParams

  // ---------------------------------------------------------------------------
  // URL -> state
  // ---------------------------------------------------------------------------

  /** `value || ''` for a `string | null`. */
  function OrEmpty(o: Option<string>): (s: string)
    ensures Truthy(o) ==> s == o.value
    ensures !Truthy(o) ==> s == ""
  {
    match o
    case None => ""
    case Some(v) => v
  }

  /** `(value as T) || null`: the cast checks nothing; only `''` and `null` become `null`. */
  function OrNull(o: Option<string>): (r: Option<string>)
    ensures r == None <==> !Truthy(o)
    ensures r != None ==> r == o
  {
    if Truthy(o) then o else None
  }

  /**
   * A state the URL round-trip can reproduce: the two single selections are
   * `null` or a non-empty string.
   */
  predicate WellFormed(q: Query)
  {
    q.consultation != Some("") && q.sortBy != Some("")
  }

  /** The `useState` initialisers: the state read from the URL's pairs. */
  function Parse(ps: seq<Pair>): (q: Query)
    ensures WellFormed(q)
  {
    Query(
      OrEmpty(Get(ps, "search")),
      OrNull(Get(ps, "consultation")),
      GetAll(ps, "specialty"),
      OrNull(Get(ps, "sort")))
  }

  /** What parsing keeps and what it defaults, stated through `get`/`getAll`. */
  lemma ParseFields(ps: seq<Pair>)
    ensures !HasKey(ps, "search") ==> Parse(ps).search == ""
    ensures Get(ps, "consultation") in {None, Some("")} <==> Parse(ps).consultation == None
    ensures Get(ps, "sort") in {None, Some("")} <==> Parse(ps).sortBy == None
    ensures forall v :: v in Parse(ps).specialties <==> ("specialty", v) in ps
    ensures HasKey(ps, "search") ==> Parse(ps).search == Get(ps, "search").value
    ensures Truthy(Get(ps, "consultation")) ==> Parse(ps).consultation == Get(ps, "consultation")
    ensures Truthy(Get(ps, "sort")) ==> Parse(ps).sortBy == Get(ps, "sort")
    ensures Parse(ps).specialties == GetAll(ps, "specialty")
  {
  }

  /** A URL without query pairs gives the default state. */
  lemma ParseEmpty()
    ensures Parse([]) == Query("", None, [], None)
  {
  }

  // ---------------------------------------------------------------------------
  // state -> URL
  // ---------------------------------------------------------------------------

  /** One `specialty` pair per selected specialty, in list order. */
  function SpecialtyPairs(ss: seq<string>): (r: seq<Pair>)
    ensures |r| == |ss|
    ensures forall i :: 0 <= i < |ss| ==> r[i] == ("specialty", ss[i])
  {
    seq(|ss|, i requires 0 <= i < |ss| => ("specialty", ss[i]))
  }

  /**
   * The pairs the URL effect produces: `search` and `consultation` when set,
   * then the specialties, then `sort` when set.
   */
  function Encode(q: Query): (r: seq<Pair>)
    ensures forall p :: p in r ==> p.0 in {"search", "consultation", "specialty", "sort"}
  {
    (if q.search != "" then [("search", q.search)] else [])
    + (if Truthy(q.consultation) then [("consultation", q.consultation.value)] else [])
    + SpecialtyPairs(q.specialties)
    + (if Truthy(q.sortBy) then [("sort", q.sortBy.value)] else [])
  }

  /** An all-default state writes no pairs at all, and only such a state does. */
  lemma EncodeEmptyIffDefault(q: Query)
    ensures Encode(q) == [] <==>
      q.search == "" && !Truthy(q.consultation) && q.specialties == [] && !Truthy(q.sortBy)
  {
    if Encode(q) == [] {
      assert |SpecialtyPairs(q.specialties)| <= |Encode(q)|;
    }
  }

  lemma {:induction false} SpecialtyPairsGetAll(ss: seq<string>, k: string)
    ensures GetAll(SpecialtyPairs(ss), k) == if k == "specialty" then ss else []
  {
    if ss != [] {
      assert SpecialtyPairs(ss)[1..] == SpecialtyPairs(ss[1..]);
      SpecialtyPairsGetAll(ss[1..], k);
    }
  }

  /** The values `Encode` writes under each name. */
  lemma EncodeGetAll(q: Query, k: string)
    ensures GetAll(Encode(q), k)
         == (if q.search != "" && k == "search" then [q.search] else [])
          + (if Truthy(q.consultation) && k == "consultation" then [q.consultation.value] else [])
          + (if k == "specialty" then q.specialties else [])
          + (if Truthy(q.sortBy) && k == "sort" then [q.sortBy.value] else [])
  {
    var a := if q.search != "" then [("search", q.search)] else [];
    var b := if Truthy(q.consultation) then [("consultation", q.consultation.value)] else [];
    var c := SpecialtyPairs(q.specialties);
    var d := if Truthy(q.sortBy) then [("sort", q.sortBy.value)] else [];
    assert Encode(q) == a + b + c + d;
    GetAllOptional(q.search != "", "search", q.search, k);
    GetAllOptional(Truthy(q.consultation), "consultation", OrEmpty(q.consultation), k);
    GetAllOptional(Truthy(q.sortBy), "sort", OrEmpty(q.sortBy), k);
    SpecialtyPairsGetAll(q.specialties, k);
    GetAllConcat(a, b, k);
    GetAllConcat(a + b, c, k);
    GetAllConcat(a + b + c, d, k);
  }

  /** Before `sort` is set, the pairs under construction carry no `sort` name. */
  lemma NoSortKey(head: seq<Pair>, ss: seq<string>)
    requires forall j :: 0 <= j < |head| ==> head[j].0 in {"search", "consultation"}
    ensures !HasKey(head + SpecialtyPairs(ss), "sort")
  {
    var ps := head + SpecialtyPairs(ss);
    forall j | 0 <= j < |ps| ensures ps[j].0 != "sort" {
      if j >= |head| {
        assert ps[j] == SpecialtyPairs(ss)[j - |head|];
      }
    }
  }

  /** Reading the written URL back gives the same state. */
  lemma ParseEncode(q: Query)
    requires WellFormed(q)
    ensures Parse(Encode(q)) == q
  {
    var e := Encode(q);
    EncodeGetAll(q, "search");
    EncodeGetAll(q, "consultation");
    EncodeGetAll(q, "specialty");
    EncodeGetAll(q, "sort");
    GetIsFirstOfGetAll(e, "search");
    GetIsFirstOfGetAll(e, "consultation");
    GetIsFirstOfGetAll(e, "sort");
  }

  // ---------------------------------------------------------------------------
  // Handlers
  // ---------------------------------------------------------------------------

  /** `prev => prev === x ? null : x`: a single-select toggle. */
  function Toggle(prev: Option<string>, x: string): (r: Option<string>)
    ensures r != prev
    ensures r == None || r == Some(x)
    ensures r == None ==> prev == Some(x)
  {
    if prev == Some(x) then None else Some(x)
  }

  /** Toggling the same value twice from "nothing selected" or "that value selected" restores it. */
  lemma ToggleTwice(prev: Option<string>, x: string)
    requires prev == None || prev == Some(x)
    ensures Toggle(Toggle(prev, x), x) == prev
  {
  }

  /** `prev.filter(s => s !== x)`. */
  function RemoveAll(xs: seq<string>, x: string): (r: seq<string>)
    ensures |r| <= |xs|
    ensures forall y :: y in r <==> y in xs && y != x
  {
    if xs == [] then []
    else
      assert xs == [xs[0]] + xs[1..];
      (if xs[0] == x then [] else [xs[0]]) + RemoveAll(xs[1..], x)
  }

  /** The multi-select toggle: drop every copy when present, else append. */
  function ToggleSpecialty(prev: seq<string>, x: string): (r: seq<string>)
    ensures x in r <==> x !in prev
    ensures forall y :: y != x ==> (y in r <==> y in prev)
    ensures x !in prev ==> r == prev + [x]
  {
    if x in prev then RemoveAll(prev, x) else prev + [x]
  }

  /**
   * Removing from a concatenation removes from each part: the other
   * specialties keep their order and multiplicity.
   */
  lemma {:induction false} RemoveAllConcat(a: seq<string>, b: seq<string>, x: string)
    ensures RemoveAll(a + b, x) == RemoveAll(a, x) + RemoveAll(b, x)
  {
    if a == [] {
      assert a + b == b;
    } else {
      assert (a + b)[1..] == a[1..] + b;
      RemoveAllConcat(a[1..], b, x);
    }
  }

  lemma {:induction false} RemoveAllAbsent(xs: seq<string>, x: string)
    requires x !in xs
    ensures RemoveAll(xs, x) == xs
  {
    if xs != [] {
      RemoveAllAbsent(xs[1..], x);
    }
  }

  /** Selecting a specialty that was not selected and then deselecting it gives back the exact list. */
  lemma ToggleSpecialtyTwice(prev: seq<string>, x: string)
    requires x !in prev
    ensures ToggleSpecialty(ToggleSpecialty(prev, x), x) == prev
  {
    var ys := prev + [x];
    assert ys[..|prev|] == prev;
    RemoveAllSuffix(prev, x);
  }

  lemma {:induction false} RemoveAllSuffix(xs: seq<string>, x: string)
    requires x !in xs
    ensures RemoveAll(xs + [x], x) == xs
  {
    if xs == [] {
      assert [x][1..] == [];
    } else {
      assert (xs + [x])[1..] == xs[1..] + [x];
      RemoveAllSuffix(xs[1..], x);
    }
  }

  lemma {:induction false} RemoveAllDistinct(xs: seq<string>, x: string)
    requires Distinct(xs)
    ensures Distinct(RemoveAll(xs, x))
  {
    if xs != [] {
      var rest := RemoveAll(xs[1..], x);
      RemoveAllDistinct(xs[1..], x);
      assert xs[0] !in xs[1..] by {
        forall j | 0 <= j < |xs[1..]| ensures xs[1..][j] != xs[0] {
          assert xs[1..][j] == xs[j + 1];
        }
      }
      assert xs[0] !in rest;
      assert forall j :: 0 <= j < |rest| ==> rest[j] in rest;
    }
  }

  /** A list without repeats stays without repeats. */
  lemma ToggleSpecialtyDistinct(prev: seq<string>, x: string)
    requires Distinct(prev)
    ensures Distinct(ToggleSpecialty(prev, x))
  {
    if x in prev {
      RemoveAllDistinct(prev, x);
    } else {
      assert forall j :: 0 <= j < |prev| ==> prev[j] in prev;
    }
  }

  /** The state "Clear all filters" sets. */
  function Cleared(): (q: Query)
    ensures WellFormed(q)
  {
    Query("", None, [], None)
  }

  /** After clearing, the URL has no pairs and every doctor is listed in fetch order. */
  lemma ClearedShowsAll(ds: seq<Doctor>)
    ensures Encode(Cleared()) == []
    ensures VisibleDoctors(ds, Cleared()) == ds
  {
    FilterKeepsAllKept(ds, Cleared());
    VisibleUnsorted(ds, Cleared());
  }

  /** `activeFiltersCount` of the filter bar (TopFilters). */
  function ActiveFiltersCount(q: Query): (n: nat)
    ensures n == 0 <==> !Truthy(q.consultation) && q.specialties == [] && !Truthy(q.sortBy)
    ensures n >= |q.specialties|
  {
    (if Truthy(q.consultation) then 1 else 0) + |q.specialties| + (if Truthy(q.sortBy) then 1 else 0)
  }

  /**
   * The body of the URL effect: a fresh `URLSearchParams` filled with `set`
   * and `append`, one `specialty` pair per selected specialty.
   */
  method BuildParams(q: Query) returns (ps: seq<Pair>)
    ensures ps == Encode(q)
  {
    var p := new URLSearchParams();
    ghost var a: seq<Pair> := if q.search != "" then [("search", q.search)] else [];
    ghost var b: seq<Pair> := if Truthy(q.consultation) then [("consultation", q.consultation.value)] else [];
    if q.search != "" {
      p.Set("search", q.search);
    }
    assert p.pairs == a;
    if Truthy(q.consultation) {
      assert !HasKey(p.pairs, "consultation");
      p.Set("consultation", q.consultation.value);
    }
    assert p.pairs == a + b;
    var specialties := q.specialties;
    var i := 0;
    while i < |specialties|
      invariant 0 <= i <= |specialties|
      invariant p.pairs == a + b + SpecialtyPairs(specialties[..i])
    {
      p.Append("specialty", specialties[i]);
      assert SpecialtyPairs(specialties[..i + 1])
          == SpecialtyPairs(specialties[..i]) + [("specialty", specialties[i])];
      i := i + 1;
    }
    assert specialties[..i] == specialties;
    if Truthy(q.sortBy) {
      NoSortKey(a + b, specialties);
      p.Set("sort", q.sortBy.value);
    }
    ps := p.pairs;
  }

  // ---------------------------------------------------------------------------
  // The page
  // ---------------------------------------------------------------------------

  /** The page's four `useState` fields and the URL they are mirrored to. */
  class DirectoryPage {

    var searchQuery: string
    var consultationType: Option<string>
    var selectedSpecialties: seq<string>
    var sortBy: Option<string>
    var url: seq<Pair>

    /** The query passed to the doctors hook. */
    function State(): Query
      reads this
    {
      Query(searchQuery, consultationType, selectedSpecialties, sortBy)
    }

    ghost predicate Valid()
      reads this
    {
      WellFormed(State())
    }

    /** First render: the state is read from the URL. */
    constructor (params: seq<Pair>)
      ensures Valid()
      ensures State() == Parse(params) && url == params
    {
      searchQuery := OrEmpty(Get(params, "search"));
      consultationType := OrNull(Get(params, "consultation"));
      selectedSpecialties := GetAll(params, "specialty");
      sortBy := OrNull(Get(params, "sort"));
      url := params;
    }

    /** `handleSearchChange`: the typed text, stored verbatim. */
    method HandleSearchChange(value: string)
      requires Valid()
      modifies this
      ensures Valid()
      ensures State() == old(State()).(search := value) && url == old(url)
    {
      searchQuery := value;
    }

    /** `handleSuggestionClick`: the clicked name becomes the search text. */
    method HandleSuggestionClick(suggestion: string)
      requires Valid()
      modifies this
      ensures Valid()
      ensures State() == old(State()).(search := suggestion) && url == old(url)
    {
      searchQuery := suggestion;
    }

    /** `handleConsultationChange`. */
    method HandleConsultationChange(t: ConsultationType)
      requires Valid()
      modifies this
      ensures Valid()
      ensures State() == old(State()).(consultation := Toggle(old(consultationType), t.Label()))
      ensures url == old(url)
    {
      consultationType := Toggle(consultationType, t.Label());
    }

    /** `handleSpecialtyChange`. */
    method HandleSpecialtyChange(specialty: string)
      requires Valid()
      modifies this
      ensures Valid()
      ensures State() == old(State()).(specialties := ToggleSpecialty(old(selectedSpecialties), specialty))
      ensures url == old(url)
    {
      selectedSpecialties := ToggleSpecialty(selectedSpecialties, specialty);
    }

    /** `handleSortChange`. */
    method HandleSortChange(t: SortType)
      requires Valid()
      modifies this
      ensures Valid()
      ensures State() == old(State()).(sortBy := Toggle(old(sortBy), t.Label()))
      ensures url == old(url)
    {
      sortBy := Toggle(sortBy, t.Label());
    }

    /** The "Clear all filters" button: all four fields reset together. */
    method ClearAll()
      modifies this
      ensures Valid()
      ensures State() == Cleared() && url == old(url)
    {
      searchQuery := "";
      consultationType := None;
      selectedSpecialties := [];
      sortBy := None;
    }

    /** The URL effect: the page's URL becomes the serialised state. */
    method SyncUrl()
      requires Valid()
      modifies this`url
      ensures Valid() && State() == old(State())
      ensures url == Encode(State())
      ensures Parse(url) == State()
    {
      url := BuildParams(State());
      ParseEncode(State());
    }
  }
}
