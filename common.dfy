/** Small shared vocabulary for the two GTFS conversion scripts and the browser client. */
module Common {

  datatype Option<+T> = None | Some(value: T) {
    /** Python's `row.get(column, default)`: the value when the column exists, else the default. */
    function GetOr(default: T): T {
      match this
      case Some(v) => v
      case None => default
    }
  }

  /** The index of the last key equal to `id`, or -1 when no key is equal to it.
      A Python dict filled row by row keeps, for every key, the value of this row. */
  function LastIndex<K(==)>(keys: seq<K>, id: K): (k: int)
    ensures -1 <= k < |keys|
    ensures k >= 0 ==> keys[k] == id && forall j :: k < j < |keys| ==> keys[j] != id
    ensures k < 0 ==> forall j :: 0 <= j < |keys| ==> keys[j] != id
  {
    if |keys| == 0 then -1
    else if keys[|keys| - 1] == id then |keys| - 1
    else LastIndex(keys[..|keys| - 1], id)
  }

  /** Extending the keys by one element moves the last index only for that element's key. */
  lemma LastIndexSnoc<K>(keys: seq<K>, x: K, id: K)
    ensures LastIndex(keys + [x], id) == if x == id then |keys| else LastIndex(keys, id)
  {
    assert (keys + [x])[..|keys|] == keys;
  }

  /** The elements of `s`, each kept at its first occurrence: the key order of a Python dict
      whose keys were inserted in the order of `s`. */
  function FirstOccurrences<K(==, !new)>(s: seq<K>): (r: seq<K>)
    ensures forall x :: x in r <==> x in s
    ensures forall i, j :: 0 <= i < j < |r| ==> r[i] != r[j]
  {
    if |s| == 0 then []
    else
      var p := FirstOccurrences(s[..|s| - 1]);
      assert forall x :: x in s <==> x in s[..|s| - 1] || x == s[|s| - 1];
      if s[|s| - 1] in p then p else p + [s[|s| - 1]]
  }

  /** A key comes before another in the dict order exactly when it first occurs earlier in `s`. */
  lemma {:induction false} FirstOccurrencesOrder<K(!new)>(s: seq<K>, i: nat, j: nat)
    requires i < j < |FirstOccurrences(s)|
    ensures exists a :: 0 <= a < |s| && s[a] == FirstOccurrences(s)[i]
                        && forall b :: 0 <= b <= a ==> s[b] != FirstOccurrences(s)[j]
  {
    var n := |s| - 1;
    var init := s[..n];
    var p := FirstOccurrences(init);
    assert forall x :: x in s <==> x in init || x == s[n];
    if j < |p| {
      FirstOccurrencesOrder(init, i, j);
      var a :| 0 <= a < |init| && init[a] == p[i] && forall b :: 0 <= b <= a ==> init[b] != p[j];
      assert s[a] == FirstOccurrences(s)[i];
    } else {
      // the new key s[n] is placed last, so it never occurred in `init`
      assert FirstOccurrences(s)[j] == s[n] && s[n] !in p && s[n] !in init;
      var x := p[i];
      assert x in init;
      var a :| 0 <= a < |init| && init[a] == x;
      assert s[a] == FirstOccurrences(s)[i];
      forall b | 0 <= b <= a ensures s[b] != FirstOccurrences(s)[j] {
        assert s[b] == init[b];
      }
    }
  }
}
