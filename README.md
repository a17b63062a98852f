# Campus doctor directory: query engine and query state

This project models the logic core of a browser directory of campus doctors.
The user searches doctors by name, filters them by consultation mode
(`Video Consult` or `In Clinic`) and by specialty, and sorts them by fee or
by experience. The model covers three pieces of that system.

- **Data model** (`doctor_types.dfy`, module `DoctorTypes`). It holds the
  `Doctor` record and the two string enumerations `ConsultationType` and
  `SortType`. Each enumeration value carries the string it stands for at run
  time.
- **Query engine** (`use_doctors.dfy`, module `UseDoctors`). These are pure
  functions over the fetched doctor list:
  - the specialty universe: every distinct speciality, sorted;
  - autocomplete suggestions;
  - the filter-then-stable-sort pipeline that produces the visible list.
- **Page controller** (`index_page.dfy`, module `IndexPage`). A class
  `DirectoryPage` holds four fields: search text, consultation type, selected
  specialties and sort key. They are read from the URL once. The page's
  handlers change them, and an effect writes them back to the URL.

The URL is a list of (name, value) pairs (`search_params.dfy`, module
`SearchParams`). It offers `get`, `getAll`, `set` and `append`, as
section 6.2 of the WHATWG URL Standard defines them. `strings.dfy` (module
`Strings`) models the JavaScript string operations the engine uses:
`toLowerCase`, `includes`, and the default `sort()` order.

The consultation type and sort key are kept as `Option<string>`, not as
enumeration values. The page casts URL strings to those types without
checking them, so any non-empty string can end up in the state. JavaScript
truthiness treats `''` like `null`. The model writes that out through
`Truthy`, `OrEmpty` and `OrNull`.

The page's states are exactly those with `WellFormed`: consultation and sort
key are each `null` or a non-empty string. Parsing yields only such states
(`Parse`). Every handler keeps them well formed (`DirectoryPage.Valid`). For
all of them, writing the URL and reading it back gives the same state
(`ParseEncode`).

Sorting is modelled as a stable insertion sort on a rank:
- the fee, ascending, for `'fees'`;
- the negated experience, for `'experience'`;
- a constant for any other key.

The comparator `Compare` is the source's comparator, and it equals the
difference of ranks. `StableSortUnique` shows that any sorted, stable
rearrangement equals the insertion sort's output. So the model's result is
the one any conforming `Array.prototype.sort` returns. Section 22.1.3.27 of
ECMA-262, 10th edition (ECMAScript 2019), requires that sort to be stable.

Notes on the code's behaviour:
- Records are stored as fetched: no honorific stripping, no fee parsing, no
  defaults.
- URL values for `consultation` and `sort` are not validated.
- Selected specialties are a list, not a set. Toggling appends or removes
  every copy, so order and duplicates from the URL are kept.
- The URL round trip holds for well-formed states. Those are all the states
  the page can reach.

## Model

| member | source | states |
|---|---|---|
| `DoctorTypes.ConsultationLabelInjective` | src/types/doctor.ts:12 | the two consultation types have different strings: `'Video Consult'` and `'In Clinic'` |
| `DoctorTypes.SortLabelInjective` | src/types/doctor.ts:13 | the two sort types have different strings: `'fees'` and `'experience'` |
| `DoctorTypes.ConsultationType.Label` | src/types/doctor.ts:12 | a consultation type stands for `'Video Consult'` or `'In Clinic'`, never for `''` |
| `DoctorTypes.SortType.Label` | src/types/doctor.ts:13 | a sort type stands for `'fees'` or `'experience'`, never for `''` |
| `Strings.Lower` | src/hooks/use-doctors.ts:53 | lower-casing keeps the length; no position of the result holds an upper-case letter; every other character is kept; an upper-case letter becomes the same letter in lower case |
| `Strings.LowerIdempotent` | src/hooks/use-doctors.ts:53 | lower-casing twice is the same as lower-casing once |
| `Strings.IncludesIff` | src/hooks/use-doctors.ts:53 | the scanning `includes` is true exactly when the needle occurs at some index of the haystack |
| `Strings.Includes` | src/hooks/use-doctors.ts:53 | every string includes the empty string; a string includes only needles no longer than itself |
| `Strings.LexLess` | src/hooks/use-doctors.ts:35 | the default string sort order: the first differing character decides, and a proper prefix comes first (no contract of its own; its order properties are the four lemmas below) |
| `Strings.LexLessIrreflexive` | src/hooks/use-doctors.ts:35 | the default string sort order is irreflexive |
| `Strings.LexLessTransitive` | src/hooks/use-doctors.ts:35 | the default string sort order is transitive |
| `Strings.LexLessTotal` | src/hooks/use-doctors.ts:35 | any two different strings are ordered one way or the other |
| `Strings.LexLessAsymmetric` | src/hooks/use-doctors.ts:35 | the default string sort order is asymmetric |
| `Strings.StrictlyAscendingIsDistinct` | src/hooks/use-doctors.ts:35 | a strictly ascending list has no repeats |
| `UseDoctors.SortStrings` | src/hooks/use-doctors.ts:35 | sorting a repeat-free list gives the same strings, as many of them, strictly ascending |
| `UseDoctors.AllSpecialties` | src/hooks/use-doctors.ts:31-35 | the specialty universe is strictly ascending, so sorted and without repeats; a string is in it exactly when some doctor lists it as a speciality |
| `UseDoctors.NameMatchesIgnoresCase` | src/hooks/use-doctors.ts:53 | name matching gives the same answer for a text and its lower-cased form |
| `UseDoctors.Matching` | src/hooks/use-doctors.ts:51-53 | the name filter never yields more doctors than it is given |
| `UseDoctors.Names` | src/hooks/use-doctors.ts:54 | the name list has one entry per doctor, the name of the doctor at the same position |
| `UseDoctors.Take` | src/hooks/use-doctors.ts:55 | `slice(0, n)` gives a prefix of the list, of length `n` or the whole list when it is shorter |
| `UseDoctors.FirstMatchNames` | src/hooks/use-doctors.ts:51-55 | the reference scan emits at most `n` names |
| `UseDoctors.MatchingSound` | src/hooks/use-doctors.ts:51-53 | every doctor kept is from the input and its lower-cased name includes the lower-cased query |
| `UseDoctors.Suggestions` | src/hooks/use-doctors.ts:48-58 | at most 3 names; none for the empty query; each is the name of an input doctor whose name matches the query, ignoring case |
| `UseDoctors.SuggestionsAreFirstThreeMatches` | src/hooks/use-doctors.ts:51-55 | for a non-empty query, the suggestions equal a left-to-right scan that emits each matching doctor's name, duplicates included, and stops after three |
| `UseDoctors.SuggestionsComplete` | src/hooks/use-doctors.ts:51-55 | with fewer than 3 suggestions, every matching doctor's name is among them |
| `UseDoctors.SuggestionsIgnoreCase` | src/hooks/use-doctors.ts:53 | a query and its lower-cased form give the same suggestions |
| `UseDoctors.Keep` | src/hooks/use-doctors.ts:63-82 | the filter callback with its early returns in source order (no contract of its own; `KeepIff` states its meaning) |
| `UseDoctors.KeepIff` | src/hooks/use-doctors.ts:63-82 | the filter callback, with its early returns, keeps a doctor exactly when three tests all pass: the search is empty or matches the name; the consultation is unset or in `moc`; no specialty is selected or one selected specialty is in `speciality` |
| `UseDoctors.FilterDoctors` | src/hooks/use-doctors.ts:62-82 | the filtered list is no longer than the input, is a sub-multiset of it, and holds only doctors the callback keeps |
| `UseDoctors.FilterConcat` | src/hooks/use-doctors.ts:62-82 | filtering a concatenation is the concatenation of the filtered parts, so kept doctors stay in input order and keep their multiplicity |
| `UseDoctors.FilterMembership` | src/hooks/use-doctors.ts:62-82 | a doctor is in the filtered list exactly when it is in the input and the callback keeps it |
| `UseDoctors.FilterKeepsAllKept` | src/hooks/use-doctors.ts:62-82 | a list whose doctors all pass is left unchanged by the filter |
| `UseDoctors.FilterIdempotent` | src/hooks/use-doctors.ts:62-82 | filtering the filtered list changes nothing |
| `UseDoctors.Rank` | src/hooks/use-doctors.ts:83-91 | the sort key: the fee for `'fees'`, the negated experience for `'experience'`, a constant otherwise (no contract of its own; `Compare` ties it to the comparator) |
| `UseDoctors.Compare` | src/hooks/use-doctors.ts:83-91 | the comparator (`a.fee - b.fee`, `b.experience - a.experience`, or 0) is the difference of the two doctors' ranks |
| `UseDoctors.Insert` | src/hooks/use-doctors.ts:83-91 | insertion adds exactly the one doctor to the list's multiset |
| `UseDoctors.StableSort` | src/hooks/use-doctors.ts:83-91 | sorting keeps the length and is a permutation |
| `UseDoctors.InsertSorted` | src/hooks/use-doctors.ts:83-91 | inserting into a sorted list keeps it sorted |
| `UseDoctors.StableSortSorted` | src/hooks/use-doctors.ts:83-91 | the sorted list is in non-decreasing rank order |
| `UseDoctors.InsertWithRank` | src/hooks/use-doctors.ts:83-91 | insertion puts the new doctor before every doctor of equal rank |
| `UseDoctors.StableSortStable` | src/hooks/use-doctors.ts:83-91 | for every rank, the doctors of that rank appear in the same order before and after sorting |
| `UseDoctors.StableSortOfSorted` | src/hooks/use-doctors.ts:83-91 | sorting an already sorted list returns it unchanged |
| `UseDoctors.WithRankEmpty` | src/hooks/use-doctors.ts:83-91 | a list without doctors of a rank has an empty subsequence for that rank |
| `UseDoctors.WithRankFacts` | src/hooks/use-doctors.ts:83-91 | how the head of a list enters its per-rank subsequences; in a sorted list no rank below the head's occurs |
| `UseDoctors.SortedSameRanksEqual` | src/hooks/use-doctors.ts:83-91 | two sorted lists with the same per-rank subsequences are equal |
| `UseDoctors.StableSortUnique` | src/hooks/use-doctors.ts:83-91 | every sorted rearrangement that keeps equal-rank doctors in input order equals the model's sort |
| `UseDoctors.VisibleDoctors` | src/hooks/use-doctors.ts:61-92 | `filteredDoctors`: filter, then sort; never longer than the input and a sub-multiset of it |
| `UseDoctors.VisibleMembership` | src/hooks/use-doctors.ts:61-92 | a doctor is listed exactly when it is in the input and passes all three tests |
| `UseDoctors.VisiblePermutation` | src/hooks/use-doctors.ts:61-92 | the listed doctors are a permutation of the filtered ones and a sub-multiset of the input |
| `UseDoctors.VisibleByFee` | src/hooks/use-doctors.ts:84-85 | with sort key `'fees'`, listed fees never decrease |
| `UseDoctors.VisibleByExperience` | src/hooks/use-doctors.ts:87-88 | with sort key `'experience'`, listed experience never increases |
| `UseDoctors.VisibleStable` | src/hooks/use-doctors.ts:83-91 | doctors with an equal sort key keep their input relative order |
| `UseDoctors.VisibleUnsorted` | src/hooks/use-doctors.ts:90 | with a null sort key, or any key other than `'fees'`/`'experience'`, the listed doctors are the filtered ones in input order |
| `UseDoctors.VisibleIdempotent` | src/hooks/use-doctors.ts:61-92 | running the pipeline again on its own output, with the same query, returns the same list |
| `UseDoctors.NoSpecialityExcluded` | src/hooks/use-doctors.ts:75-79 | once any specialty is selected, a doctor with no speciality is never listed |
| `SearchParams.Get` | src/pages/Index.tsx:16 | `get` is null exactly when no pair has the name; otherwise its value belongs to the first pair with that name |
| `SearchParams.GetAll` | src/pages/Index.tsx:21 | `getAll` holds exactly the values paired with the name |
| `SearchParams.GetIsFirstOfGetAll` | src/pages/Index.tsx:16-24 | `get` is the first element of `getAll`, or null when that is empty |
| `SearchParams.GetAllConcat` | src/pages/Index.tsx:37-57 | `getAll` over two concatenated pair lists is the concatenation of the two results |
| `SearchParams.NoKeyNoValues` | src/pages/Index.tsx:16-24 | a name without pairs has no values |
| `SearchParams.SetValueGetAll` | src/pages/Index.tsx:41 | after `set`, the name has exactly the new value, and every other name keeps its values |
| `SearchParams.GetAllOptional` | src/pages/Index.tsx:40-54 | a list of zero or one pair holds the pair's value under its name and nothing under any other name |
| `SearchParams.AppendGetAll` | src/pages/Index.tsx:49 | `append` adds the value at the end of that name's values, and every other name keeps its values |
| `SearchParams.URLSearchParams.constructor` | src/pages/Index.tsx:38 | a new params object has no pairs |
| `SearchParams.URLSearchParams.Set` | src/pages/Index.tsx:41 | the object's pairs become those of `set` |
| `SearchParams.URLSearchParams.Append` | src/pages/Index.tsx:49 | the object's pairs gain the new pair at the end |
| `IndexPage.OrEmpty` | src/pages/Index.tsx:16 | the logical-or default to `''`: the value when truthy, `''` otherwise |
| `IndexPage.Parse` | src/pages/Index.tsx:16-25 | every parsed state is well formed: neither consultation nor sort is `''` |
| `IndexPage.ParseFields` | src/pages/Index.tsx:16-25 | a missing `search` gives `''` and a present one is kept as-is; consultation and sort are null exactly when missing or empty, and any other string is kept as-is; the specialties are the `specialty` values in URL order |
| `IndexPage.ParseEmpty` | src/pages/Index.tsx:16-25 | a URL without pairs gives the default state |
| `IndexPage.SpecialtyPairsGetAll` | src/pages/Index.tsx:48-50 | the appended pairs hold the selected specialties, in list order, under `specialty` and nothing under any other name |
| `IndexPage.Encode` | src/pages/Index.tsx:37-57 | the written URL uses only the names `search`, `consultation`, `specialty` and `sort` |
| `IndexPage.EncodeGetAll` | src/pages/Index.tsx:37-57 | the written URL holds, under each name, exactly: the search text if non-empty; the consultation if truthy; every specialty in order; the sort key if truthy |
| `IndexPage.EncodeEmptyIffDefault` | src/pages/Index.tsx:40-54 | the written URL is empty exactly when the search is `''`, consultation and sort are unset, and no specialty is selected |
| `IndexPage.NoSortKey` | src/pages/Index.tsx:40-50 | before `sort` is set, the pairs under construction have no `sort` name, so `set('sort', …)` appends |
| `IndexPage.ParseEncode` | src/pages/Index.tsx:16-57 | parsing the written URL of a well-formed state gives back all four fields |
| `IndexPage.BuildParams` | src/pages/Index.tsx:37-55 | the `set`/`append` sequence of the effect, with its loop over specialties, yields exactly the encoded pair list |
| `IndexPage.Toggle` | src/pages/Index.tsx:71 | a single-select toggle always changes the value; the result is null or the argument, and null only when the previous value was the argument |
| `IndexPage.ToggleTwice` | src/pages/Index.tsx:71 | toggling the same value twice, starting from null or from that value, restores the start |
| `IndexPage.RemoveAll` | src/pages/Index.tsx:78 | removing a specialty keeps every other member and drops every copy of that one; with `RemoveAllConcat`, the other specialties keep their order and multiplicity |
| `IndexPage.RemoveAllConcat` | src/pages/Index.tsx:78 | removing from a concatenation is the concatenation of the removals, so the other specialties keep their order and multiplicity |
| `IndexPage.ToggleSpecialty` | src/pages/Index.tsx:76-82 | the toggled specialty is a member afterwards exactly when it was not before; every other membership is unchanged; an absent specialty is appended at the end; a present one is removed by `RemoveAll`, so the other specialties keep their order and multiplicity |
| `IndexPage.RemoveAllAbsent` | src/pages/Index.tsx:78 | removing an absent specialty changes nothing |
| `IndexPage.RemoveAllSuffix` | src/pages/Index.tsx:78-80 | removing a just-appended, previously absent specialty gives back the list before the append |
| `IndexPage.ToggleSpecialtyTwice` | src/pages/Index.tsx:76-82 | toggling an absent specialty twice restores the exact list |
| `IndexPage.RemoveAllDistinct` | src/pages/Index.tsx:78 | removal keeps a repeat-free list free of repeats |
| `IndexPage.ToggleSpecialtyDistinct` | src/pages/Index.tsx:76-82 | a specialty list without repeats stays without repeats |
| `IndexPage.Cleared` | src/pages/Index.tsx:155-160 | the cleared state is well formed |
| `IndexPage.ClearedShowsAll` | src/pages/Index.tsx:155-160 | after clearing, the URL has no pairs and every doctor is listed in fetch order |
| `IndexPage.ActiveFiltersCount` | src/components/TopFilters.tsx:49 | the active-filter count is zero exactly when consultation and sort are unset and no specialty is selected; it is at least the number of selected specialties |
| `IndexPage.DirectoryPage.constructor` | src/pages/Index.tsx:16-25 | the initial state is the parsed URL, and it is well formed |
| `IndexPage.DirectoryPage.HandleSearchChange` | src/pages/Index.tsx:60-62 | the search text becomes the typed value verbatim; nothing else changes |
| `IndexPage.DirectoryPage.HandleSuggestionClick` | src/pages/Index.tsx:65-67 | the search text becomes the clicked suggestion verbatim; nothing else changes |
| `IndexPage.DirectoryPage.HandleConsultationChange` | src/pages/Index.tsx:70-72 | the consultation type is toggled with the type's string; nothing else changes; the state stays well formed |
| `IndexPage.DirectoryPage.HandleSpecialtyChange` | src/pages/Index.tsx:75-83 | the specialty list is toggled; nothing else changes |
| `IndexPage.DirectoryPage.HandleSortChange` | src/pages/Index.tsx:86-88 | the sort key is toggled with the key's string; nothing else changes; the state stays well formed |
| `IndexPage.DirectoryPage.ClearAll` | src/pages/Index.tsx:155-160 | all four fields reset together to `''`, null, `[]`, null, whatever they were |
| `IndexPage.DirectoryPage.SyncUrl` | src/pages/Index.tsx:37-57 | the URL becomes the encoded state, the state is unchanged, and parsing the URL gives the state back |

## Left out

- Fetching: the `fetch` call, the `response.ok` check, and the loading and error flags (src/hooks/use-doctors.ts:19-45) are I/O. The doctor list is an input to every function instead.
- The error toast (src/pages/Index.tsx:91-95) is presentation of a fetch failure.
- React machinery is not modelled. `useMemo` and `useEffect` re-evaluation become plain calls of the functions, and `SyncUrl` is the URL effect. `setState` batching and `setSearchParams` history entries are not modelled.
- Percent-encoding of the query string is not modelled. A URL is the list of decoded pairs.
- Record normalisation: the code has none, so the model has none either.
- UseDoctors.AllSpecialties: a record whose JSON lacks `speciality` would make line 33 throw. In the model the field is always a list, so that failure cannot occur.
- Strings.Lower: only ASCII `A`–`Z` are lower-cased, not full Unicode case mapping. Non-ASCII names match case-sensitively in the model.
- Strings.LexLess: the order compares characters. JavaScript compares UTF-16 code units, and the two orders differ only for characters outside the Basic Multilingual Plane.
- `fee` and `experience` are JavaScript numbers. They are modelled as unbounded integers, so fractions, NaN and floating-point subtraction in the comparator are not modelled.
- UseDoctors.StableSort: the engine's sorting algorithm is not modelled, only its result. `StableSortUnique` shows that the result is fixed by sortedness and stability.
- Rendering is not modelled. This covers the rest of src/pages/Index.tsx, src/pages/Home.tsx, src/components/DoctorCard.tsx, src/components/DoctorProfileCard.tsx (including its fixed availability and contact data), src/components/FilterPanel.tsx, src/components/SearchBar.tsx (suggestion visibility and the outside-click listener), src/components/TopFilters.tsx apart from its active-filter count, src/App.tsx (routing) and src/hooks/use-fallback-image.ts.
- IndexPage.ToggleSpecialty: toggling a specialty that is present twice in a row does not restore the list. The specialty moves to the end, as in the code, so no round-trip lemma is stated for that case.
