/** The diff engine: `parsed_address_mapping` turns a mapping into a set of
    (name, sorted addresses) pairs, and the names to update are the pairs of
    the current mapping minus those of the snapshot. */
module DiffEngine {
  import opened Sorting
  import opened AddressGrouping

  /** One element of the parsed mapping: a public DNS name and its sorted
      private addresses (the Python tuple). */
  type Entry = (string, seq<string>)

  /** `set(parsed_address_mapping(m))`: one pair per name of `m`, carrying
      that name's addresses sorted, and nothing else. */
  function Parsed(m: Mapping): (r: set<Entry>)
    ensures forall e :: e in r <==> e.0 in m && e.1 == Sort(m[e.0])
  {
    set name | name in m :: (name, Sort(m[name]))
  }

  /** `set(parsed(current)) - set(parsed(snapshot))`: every pair carries a
      current name with its full sorted list (`DiffMembership` says exactly
      which names are there). */
  function Diff(current: Mapping, snapshot: Mapping): (r: set<Entry>)
    ensures forall e :: e in r ==> e.0 in current && e.1 == Sort(current[e.0])
  {
    Parsed(current) - Parsed(snapshot)
  }

  /** A pair is in the diff exactly when its name is in the current mapping,
      it carries that name's full sorted list, and the snapshot either lacks
      the name or holds a list that is not a permutation of the current one.
      Address order never causes an entry, and a name found only in the
      snapshot never appears. */
  lemma DiffMembership(current: Mapping, snapshot: Mapping, name: string, addresses: seq<string>)
    ensures (name, addresses) in Diff(current, snapshot) <==>
      && name in current
      && addresses == Sort(current[name])
      && (name !in snapshot || multiset(snapshot[name]) != multiset(current[name]))
  {
    if name in current && name in snapshot {
      SortCanonical(snapshot[name], current[name]);
      if addresses == Sort(current[name]) && multiset(snapshot[name]) == multiset(current[name]) {
        assert (name, Sort(snapshot[name])) in Parsed(snapshot);
      }
    }
    if name in current && addresses == Sort(current[name]) {
      assert (name, Sort(current[name])) in Parsed(current);
    }
  }

  /** The diff is empty exactly when every current name is in the snapshot
      with a permutation of its list; in particular a current mapping with the
      snapshot's keys and permuted lists gives no entry at all. */
  lemma DiffEmptyIff(current: Mapping, snapshot: Mapping)
    ensures Diff(current, snapshot) == {} <==>
      forall name :: name in current ==>
        name in snapshot && multiset(snapshot[name]) == multiset(current[name])
  {
    if Diff(current, snapshot) == {} {
      forall name | name in current
        ensures name in snapshot && multiset(snapshot[name]) == multiset(current[name])
      {
        DiffMembership(current, snapshot, name, Sort(current[name]));
      }
    } else {
      var e :| e in Diff(current, snapshot);
      DiffMembership(current, snapshot, e.0, e.1);
    }
  }

  /** An empty current mapping has nothing to add. */
  lemma EmptyCurrentNoDiff(current: Mapping, snapshot: Mapping)
    requires |current| == 0
    ensures Diff(current, snapshot) == {}
  {
    assert current == map[];
  }

  /** A name appears at most once in the diff. */
  lemma DiffOneEntryPerName(current: Mapping, snapshot: Mapping, name: string, a: seq<string>, b: seq<string>)
    requires (name, a) in Diff(current, snapshot) && (name, b) in Diff(current, snapshot)
    ensures a == b
  {
    DiffMembership(current, snapshot, name, a);
    DiffMembership(current, snapshot, name, b);
  }

  /** A list of the diff's entries, each once: the order in which Python
      happens to iterate the set, which the language leaves unspecified. */
  ghost predicate Enumerates(order: seq<Entry>, diff: set<Entry>)
  {
    && (forall i, j :: 0 <= i < j < |order| ==> order[i] != order[j])
    && (forall e :: e in order ==> e in diff)
    && (forall e :: e in diff ==> e in order)
  }

  /** An enumeration has as many elements as the set it enumerates. */
  lemma {:induction false} EnumerationSize(order: seq<Entry>, diff: set<Entry>)
    requires Enumerates(order, diff)
    ensures |order| == |diff|
  {
    if |order| > 0 {
      var n := |order| - 1;
      var rest := diff - {order[n]};
      forall e | e in order[..n]
        ensures e in rest
      {
        var k :| 0 <= k < n && order[k] == e;
      }
      forall e | e in rest
        ensures e in order[..n]
      {
        var k :| 0 <= k < |order| && order[k] == e;
      }
      EnumerationSize(order[..n], rest);
    }
  }
}
