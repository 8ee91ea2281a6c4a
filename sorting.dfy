/** The two `List.Sort` calls on the routed records: by `id` after a
    binary scan, and by `(group, id)` in `ProcessRecordsAndHeaders`. */
module Sorting {
  import opened Base
  import opened Router

  /** A sort key compared as a `ValueTuple`: first component, then second. */
  type Key = (int, int)

  predicate KeyLe(a: Key, b: Key)
  {
    a.0 < b.0 || (a.0 == b.0 && a.1 <= b.1)
  }

  /** `(a.Item1.group, a.Item1.id).CompareTo(...)` */
  function GroupIdKey(e: Entry): Key
  {
    (e.record.group, e.record.id)
  }

  /** `a.Item1.id.CompareTo(b.Item1.id)`: the second component never decides. */
  function IdKey(e: Entry): Key
  {
    (e.record.id, 0)
  }

  predicate SortedBy(key: Entry -> Key, es: seq<Entry>)
  {
    forall i, j :: 0 <= i < j < |es| ==> KeyLe(key(es[i]), key(es[j]))
  }

  /** `e` placed in front of the first element of `es` with a key not below its own. */
  function Insert(key: Entry -> Key, e: Entry, es: seq<Entry>): (r: seq<Entry>)
    requires SortedBy(key, es)
    ensures SortedBy(key, r)
    ensures multiset(r) == multiset(es) + multiset{e}
    ensures forall x :: x in r ==> x == e || x in es
  {
    if es == [] then [e]
    else if KeyLe(key(e), key(es[0])) then [e] + es
    else
      var rest := Insert(key, e, es[1..]);
      HeadTail(es);
      assert forall x :: x in rest ==> KeyLe(key(es[0]), key(x)) by {
        forall x | x in rest ensures KeyLe(key(es[0]), key(x)) {
          if x != e {
            var k :| 0 <= k < |es[1..]| && es[1..][k] == x;
            assert es[k + 1] == x;
          }
        }
      }
      [es[0]] + rest
  }

  /** A sort by `key`: the result is ordered by `key` and holds the same
      entries as `es`, each as often. */
  function SortBy(key: Entry -> Key, es: seq<Entry>): (r: seq<Entry>)
    ensures SortedBy(key, r)
    ensures multiset(r) == multiset(es)
    ensures |r| == |es|
  {
    if es == [] then []
    else
      HeadTail(es);
      assert multiset(es) == multiset{es[0]} + multiset(es[1..]);
      Insert(key, es[0], SortBy(key, es[1..]))
  }
}
