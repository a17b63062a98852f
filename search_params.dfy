/**
 * The part of the URLSearchParams interface (section 6.2 of the WHATWG URL
 * Standard) that the directory page uses: an ordered list of name-value
 * pairs with `get`, `getAll`, `set` and `append`. Percent-encoding is not
 * modelled: names and values are the decoded strings.
 */
module SearchParams {

  import opened Wrappers

  /** A (name, value) pair of the query string. */
  type Pair = (string, string)

  predicate HasKey(ps: seq<Pair>, k: string)
  {
    exists i :: 0 <= i < |ps| && ps[i].0 == k
  }

  /** `get(name)`: the value of the first pair called `k`, or `null`. */
  function Get(ps: seq<Pair>, k: string): (r: Option<string>)
    ensures r.None? <==> !HasKey(ps, k)
    ensures r.Some? ==> exists i :: 0 <= i < |ps| && ps[i] == (k, r.value) && forall j :: 0 <= j < i ==> ps[j].0 != k
  {
    if ps == [] then None
    else if ps[0].0 == k then Some(ps[0].1)
    else
      var r := Get(ps[1..], k);
      assert HasKey(ps[1..], k) ==> HasKey(ps, k) by {
        if HasKey(ps[1..], k) {
          var i :| 0 <= i < |ps[1..]| && ps[1..][i].0 == k;
          assert ps[i + 1].0 == k;
        }
      }
      if r.Some? then
        var i :| 0 <= i < |ps[1..]| && ps[1..][i] == (k, r.value) && forall j :: 0 <= j < i ==> ps[1..][j].0 != k;
        assert ps[i + 1] == (k, r.value);
        assert forall j :: 0 <= j < i + 1 ==> ps[j].0 != k by {
          forall j | 0 < j < i + 1 ensures ps[j].0 != k {
            assert ps[j] == ps[1..][j - 1];
          }
        }
        r
      else
        r
  }

  /** `getAll(name)`: the values of every pair called `k`, in list order. */
  function GetAll(ps: seq<Pair>, k: string): (r: seq<string>)
    ensures |r| <= |ps|
    ensures forall v :: v in r <==> (k, v) in ps
  {
    if ps == [] then []
    else
      assert ps == [ps[0]] + ps[1..];
      (if ps[0].0 == k then [ps[0].1] else []) + GetAll(ps[1..], k)
  }

  /** `get` is the head of `getAll`. */
  lemma {:induction false} GetIsFirstOfGetAll(ps: seq<Pair>, k: string)
    ensures Get(ps, k) == if GetAll(ps, k) == [] then None else Some(GetAll(ps, k)[0])
  {
    if ps != [] && ps[0].0 != k {
      GetIsFirstOfGetAll(ps[1..], k);
    }
  }

  lemma {:induction false} GetAllConcat(ps: seq<Pair>, qs: seq<Pair>, k: string)
    ensures GetAll(ps + qs, k) == GetAll(ps, k) + GetAll(qs, k)
  {
    if ps == [] {
      assert ps + qs == qs;
    } else {
      assert (ps + qs)[1..] == ps[1..] + qs;
      GetAllConcat(ps[1..], qs, k);
    }
  }

  lemma {:induction false} NoKeyNoValues(ps: seq<Pair>, k: string)
    requires !HasKey(ps, k)
    ensures GetAll(ps, k) == []
  {
    if ps != [] {
      assert ps[0].0 != k;
      assert !HasKey(ps[1..], k) by {
        forall i | 0 <= i < |ps[1..]| ensures ps[1..][i].0 != k {
          assert ps[1..][i] == ps[i + 1];
        }
      }
      NoKeyNoValues(ps[1..], k);
    }
  }

  /** Every pair called `k` removed, the others kept in order. */
  function RemoveKey(ps: seq<Pair>, k: string): (r: seq<Pair>)
    ensures !HasKey(r, k)
    ensures GetAll(r, k) == []
    ensures forall k' :: k' != k ==> GetAll(r, k') == GetAll(ps, k')
  {
    if ps == [] then []
    else if ps[0].0 == k then RemoveKey(ps[1..], k)
    else
      var rest := RemoveKey(ps[1..], k);
      assert ([ps[0]] + rest)[1..] == rest;
      [ps[0]] + rest
  }

  /** The first pair called `k` gets value `v`; later pairs called `k` go. */
  function ReplaceFirst(ps: seq<Pair>, k: string, v: string): (r: seq<Pair>)
    requires HasKey(ps, k)
    ensures GetAll(r, k) == [v]
    ensures forall k' :: k' != k ==> GetAll(r, k') == GetAll(ps, k')
  {
    if ps[0].0 == k then
      var rest := RemoveKey(ps[1..], k);
      assert ([(k, v)] + rest)[1..] == rest;
      [(k, v)] + rest
    else
      assert HasKey(ps[1..], k) by {
        var i :| 0 <= i < |ps| && ps[i].0 == k;
        assert ps[1..][i - 1].0 == k;
      }
      var rest := ReplaceFirst(ps[1..], k, v);
      assert ([ps[0]] + rest)[1..] == rest;
      [ps[0]] + rest
  }

  /**
   * `set(name, value)`: replace the first pair called `k` and drop the rest,
   * or append a new pair when there is none.
   */
  function SetValue(ps: seq<Pair>, k: string, v: string): (r: seq<Pair>)
    ensures !HasKey(ps, k) ==> r == ps + [(k, v)]
  {
    if HasKey(ps, k) then ReplaceFirst(ps, k, v) else ps + [(k, v)]
  }

  /** After `set`, the name has exactly the one new value; other names keep theirs. */
  lemma SetValueGetAll(ps: seq<Pair>, k: string, v: string)
    ensures GetAll(SetValue(ps, k, v), k) == [v]
    ensures Get(SetValue(ps, k, v), k) == Some(v)
    ensures forall k' :: k' != k ==> GetAll(SetValue(ps, k, v), k') == GetAll(ps, k')
  {
    var r := SetValue(ps, k, v);
    if !HasKey(ps, k) {
      NoKeyNoValues(ps, k);
      forall k' ensures GetAll(r, k') == GetAll(ps, k') + GetAll([(k, v)], k') {
        GetAllConcat(ps, [(k, v)], k');
      }
    }
    GetIsFirstOfGetAll(r, k);
  }

  /** Appending adds one value at the end of that name's values. */
  lemma AppendGetAll(ps: seq<Pair>, k: string, v: string)
    ensures GetAll(ps + [(k, v)], k) == GetAll(ps, k) + [v]
    ensures forall k' :: k' != k ==> GetAll(ps + [(k, v)], k') == GetAll(ps, k')
  {
    GetAllConcat(ps, [(k, v)], k);
    forall k' | k' != k ensures GetAll(ps + [(k, v)], k') == GetAll(ps, k') {
      GetAllConcat(ps, [(k, v)], k');
    }
  }

  /** The values a list of at most one pair holds under a name. */
  lemma GetAllOptional(present: bool, name: string, v: string, k: string)
    ensures GetAll(if present then [(name, v)] else [], k) == if present && k == name then [v] else []
  {
    if present {
      assert [(name, v)][1..] == [];
    }
  }

  /** A `URLSearchParams` object, built in place. */
  class URLSearchParams {

    var pairs: seq<Pair>

    /** `new URLSearchParams()`: no pairs. */
    constructor ()
      ensures pairs == []
    {
      pairs := [];
    }

    method Set(k: string, v: string)
      modifies this
      ensures pairs == SetValue(old(pairs), k, v)
    {
      pairs := SetValue(pairs, k, v);
    }

    method Append(k: string, v: string)
      modifies this
      ensures pairs == old(pairs) + [(k, v)]
    {
      pairs := pairs + [(k, v)];
    }
  }
}
