/** The change batch sent to the DNS service: one UPSERT of an A record per
    diff entry, on the private name the static table gives the entry's public
    name, with a TTL of 30 seconds and the entry's full address list. */
module ChangeBatch {
  import opened Wrappers
  import opened DiffEngine

  /** `{'Name': ..., 'Type': ..., 'TTL': ..., 'ResourceRecords': [{'Value': ip}, ...]}`;
      `values` lists the `Value` of each resource record, in order. */
  datatype ResourceRecordSet = ResourceRecordSet(name: string, recordType: string, ttl: int, values: seq<string>)

  /** `{'Action': ..., 'ResourceRecordSet': ...}`. */
  datatype Change = Change(action: string, recordSet: ResourceRecordSet)

  /** The list comprehension that builds `ChangeBatch['Changes']`, walking the
      entries in iteration order. `DNS_MAPPING[public_dns]` raises `KeyError`
      on a name missing from the table; the comprehension stops there and the
      result is `Failure` carrying that name. */
  function BuildChanges(dnsMapping: map<string, string>, entries: seq<Entry>): (r: Result<seq<Change>, string>)
    ensures r.Success? <==> forall i :: 0 <= i < |entries| ==> entries[i].0 in dnsMapping
    ensures r.Success? ==>
      && |r.value| == |entries|
      && forall i :: 0 <= i < |entries| ==>
           r.value[i] == Change("UPSERT", ResourceRecordSet(dnsMapping[entries[i].0], "A", 30, entries[i].1))
    ensures r.Failure? ==>
      && r.error !in dnsMapping
      && exists i :: 0 <= i < |entries| && entries[i].0 == r.error
           && forall j :: 0 <= j < i ==> entries[j].0 in dnsMapping
  {
    if |entries| == 0 then
      Success([])
    else if entries[0].0 !in dnsMapping then
      Failure(entries[0].0)
    else
      match BuildChanges(dnsMapping, entries[1..])
      case Failure(missing) =>
        assert forall j :: 1 <= j < |entries| ==> entries[j] == entries[1..][j - 1];
        Failure(missing)
      case Success(rest) =>
        assert forall j :: 1 <= j < |entries| ==> entries[j] == entries[1..][j - 1];
        var (publicDns, privateIps) := entries[0];
        Success([Change("UPSERT", ResourceRecordSet(dnsMapping[publicDns], "A", 30, privateIps))] + rest)
  }

  /** The change `BuildChanges` emits for one entry. */
  function UpsertOf(dnsMapping: map<string, string>, e: Entry): Change
    requires e.0 in dnsMapping
  {
    Change("UPSERT", ResourceRecordSet(dnsMapping[e.0], "A", 30, e.1))
  }

  /** `changes` holds exactly one UPSERT per entry of `diff` and nothing else. */
  ghost predicate OnePerEntry(dnsMapping: map<string, string>, changes: seq<Change>, diff: set<Entry>)
  {
    && |changes| == |diff|
    && CoversDiff(dnsMapping, changes, diff)
    && WithinDiff(dnsMapping, changes, diff)
  }

  /** Every diff entry has its UPSERT among the changes. */
  ghost predicate CoversDiff(dnsMapping: map<string, string>, changes: seq<Change>, diff: set<Entry>)
  {
    forall e :: e in diff ==>
      e.0 in dnsMapping && exists i :: 0 <= i < |changes| && changes[i] == UpsertOf(dnsMapping, e)
  }

  /** Every change is the UPSERT of some diff entry. */
  ghost predicate WithinDiff(dnsMapping: map<string, string>, changes: seq<Change>, diff: set<Entry>)
  {
    forall i :: 0 <= i < |changes| ==> IsUpsertOfEntry(dnsMapping, changes[i], diff)
  }

  /** `change` is the UPSERT of some entry of `diff`. */
  ghost predicate IsUpsertOfEntry(dnsMapping: map<string, string>, change: Change, diff: set<Entry>)
  {
    exists e :: e in diff && e.0 in dnsMapping && change == UpsertOf(dnsMapping, e)
  }

  /** Built from an enumeration of a diff whose names are all in the table,
      the batch holds exactly one UPSERT per diff entry and nothing else. */
  lemma BatchMatchesDiff(dnsMapping: map<string, string>, order: seq<Entry>, diff: set<Entry>)
    requires Enumerates(order, diff)
    requires forall e :: e in diff ==> e.0 in dnsMapping
    ensures BuildChanges(dnsMapping, order).Success?
    ensures OnePerEntry(dnsMapping, BuildChanges(dnsMapping, order).value, diff)
  {
    EnumerationSize(order, diff);
    BatchOfEnumeration(dnsMapping, order, diff, BuildChanges(dnsMapping, order).value);
  }

  lemma BatchOfEnumeration(dnsMapping: map<string, string>, order: seq<Entry>, diff: set<Entry>, changes: seq<Change>)
    requires forall i :: 0 <= i < |order| ==> order[i] in diff && order[i].0 in dnsMapping
    requires (forall e :: e in diff ==> e in order) && |order| == |diff|
    requires |changes| == |order|
    requires forall i :: 0 <= i < |order| ==> changes[i] == UpsertOf(dnsMapping, order[i])
    ensures OnePerEntry(dnsMapping, changes, diff)
  {
    assert |changes| == |diff|;
    BatchCoversDiff(dnsMapping, order, diff, changes);
    BatchWithinDiff(dnsMapping, order, diff, changes);
  }

  /** A change list built entry by entry from a list that holds every diff
      entry has an UPSERT for each of them. */
  lemma BatchCoversDiff(dnsMapping: map<string, string>, order: seq<Entry>, diff: set<Entry>, changes: seq<Change>)
    requires forall i :: 0 <= i < |order| ==> order[i].0 in dnsMapping
    requires forall e :: e in diff ==> e in order
    requires |changes| == |order|
    requires forall i :: 0 <= i < |order| ==> changes[i] == UpsertOf(dnsMapping, order[i])
    ensures CoversDiff(dnsMapping, changes, diff)
  {
    forall e | e in diff
      ensures e.0 in dnsMapping
      ensures exists i :: 0 <= i < |changes| && changes[i] == UpsertOf(dnsMapping, e)
    {
      var i :| 0 <= i < |order| && order[i] == e;
      assert changes[i] == UpsertOf(dnsMapping, e);
    }
  }

  /** A change list built entry by entry from diff entries holds nothing but
      their UPSERTs. */
  lemma BatchWithinDiff(dnsMapping: map<string, string>, order: seq<Entry>, diff: set<Entry>, changes: seq<Change>)
    requires forall i :: 0 <= i < |order| ==> order[i] in diff && order[i].0 in dnsMapping
    requires |changes| == |order|
    requires forall i :: 0 <= i < |order| ==> changes[i] == UpsertOf(dnsMapping, order[i])
    ensures WithinDiff(dnsMapping, changes, diff)
  {
    forall i | 0 <= i < |changes|
      ensures IsUpsertOfEntry(dnsMapping, changes[i], diff)
    {
      assert order[i] in diff && order[i].0 in dnsMapping;
      assert changes[i] == UpsertOf(dnsMapping, order[i]);
    }
  }
}
