/** Concrete runs of the handler with the shipped configuration: one public
    name that resolves to one address, whose one interface carries the
    private address 10.0.0.1. */
module Scenarios {
  import opened Wrappers
  import opened Config
  import opened PublicIp
  import opened AddressGrouping
  import opened DiffEngine
  import opened ChangeBatch
  import opened Persistence
  import opened Handler

  const PUBLIC := "public.example.com"
  const PRIVATE := "private.example.com"
  const PUBLIC_IP := "203.0.113.10"

  function Resolved(): Resolver
  {
    map[PUBLIC := Some([PUBLIC_IP])]
  }

  function OneInterface(): seq<Interface>
  {
    [Interface(PUBLIC_IP, ["10.0.0.1"])]
  }

  /** The shipped table resolves to an index with one address. */
  lemma ShippedIndex()
    ensures IndexOf(Shipped().publicNames, Resolved()) == map[PUBLIC_IP := PUBLIC]
  {
    var names := Shipped().publicNames;
    assert names[..0] == [];
    assert (map ip | ip in [PUBLIC_IP] :: PUBLIC) == map[PUBLIC_IP := PUBLIC];
  }

  /** The inventory's answer groups into `{public: [10.0.0.1]}`. */
  lemma ShippedMapping()
    ensures InventoryAnswers(Shipped().publicNames, Resolved(), OneInterface())
    ensures AddressMappingOf(Shipped().publicNames, Resolved(), OneInterface()) == Some(map[PUBLIC := ["10.0.0.1"]])
  {
    ShippedIndex();
    var index := map[PUBLIC_IP := PUBLIC];
    assert OneInterface()[..0] == [];
    assert [] + ["10.0.0.1"] == ["10.0.0.1"];
    assert GroupOf(index, OneInterface()) == map[PUBLIC := ["10.0.0.1"]];
  }

  /** The first run's diff holds the one name with its one address. */
  lemma FirstRunDiff()
    ensures Diff(map[PUBLIC := ["10.0.0.1"]], map[]) == {(PUBLIC, ["10.0.0.1"])}
  {
    var current := map[PUBLIC := ["10.0.0.1"]];
    forall e | e in Diff(current, map[])
      ensures e == (PUBLIC, ["10.0.0.1"])
    {
      DiffMembership(current, map[], e.0, e.1);
    }
    DiffMembership(current, map[], PUBLIC, ["10.0.0.1"]);
  }

  /** With no snapshot, the first run upserts `private.example.com` with
      `[10.0.0.1]` and persists the mapping in the single target. */
  lemma FirstRunUpserts(arn: string, id: string)
    ensures var world := World(Resolved(), OneInterface(), true, Some([Target(arn, id)]));
      var order := [(PUBLIC, ["10.0.0.1"])];
      && Admissible(Shipped(), Payload(None), world, order)
      && LambdaHandler(Shipped(), Payload(None), world, order) == Run(
           [ ChangeRecordSets("", [Change("UPSERT", ResourceRecordSet(PRIVATE, "A", 30, ["10.0.0.1"]))]),
             PutTargetsCall(PutTargets("", [TargetInput(arn, id, Payload(Some(map[PUBLIC := ["10.0.0.1"]])))])) ],
           None)
  {
    RunWithOneEntry(Some([Target(arn, id)]));
  }

  /** With two targets the batch is submitted, nothing is persisted and the
      run still ends cleanly. */
  lemma TwoTargetsSkipPersistence(a: Target, b: Target)
    ensures var world := World(Resolved(), OneInterface(), true, Some([a, b]));
      var order := [(PUBLIC, ["10.0.0.1"])];
      && Admissible(Shipped(), Payload(None), world, order)
      && LambdaHandler(Shipped(), Payload(None), world, order) == Run(
           [ChangeRecordSets("", [Change("UPSERT", ResourceRecordSet(PRIVATE, "A", 30, ["10.0.0.1"]))])],
           None)
  {
    RunWithOneEntry(Some([a, b]));
  }

  lemma RunWithOneEntry(targets: Option<seq<Target>>)
    ensures var world := World(Resolved(), OneInterface(), true, targets);
      var order := [(PUBLIC, ["10.0.0.1"])];
      && Admissible(Shipped(), Payload(None), world, order)
      && BuildChanges(Shipped().dnsMapping, order)
         == Success([Change("UPSERT", ResourceRecordSet(PRIVATE, "A", 30, ["10.0.0.1"]))])
      && var run := LambdaHandler(Shipped(), Payload(None), world, order);
         && run.fault.None?
         && (targets.Some? && |targets.value| == 1 ==>
               run.effects == [ChangeRecordSets("", BuildChanges(Shipped().dnsMapping, order).value),
                 PutTargetsCall(PutTargets("",
                   [TargetInput(targets.value[0].arn, targets.value[0].id, Payload(Some(map[PUBLIC := ["10.0.0.1"]])))]))])
         && (!(targets.Some? && |targets.value| == 1) ==>
               run.effects == [ChangeRecordSets("", BuildChanges(Shipped().dnsMapping, order).value)])
  {
    var world := World(Resolved(), OneInterface(), true, targets);
    var order := [(PUBLIC, ["10.0.0.1"])];
    var current := map[PUBLIC := ["10.0.0.1"]];
    ShippedMapping();
    FirstRunDiff();
    assert Enumerates(order, Diff(current, map[]));
    assert BuildChanges(Shipped().dnsMapping, order[1..]) == Success([]);
    var changes := [Change("UPSERT", ResourceRecordSet(PRIVATE, "A", 30, ["10.0.0.1"]))];
    assert Shipped().dnsMapping[PUBLIC] == PRIVATE;
    assert changes + [] == changes;
    assert BuildChanges(Shipped().dnsMapping, order) == Success(changes);
    SubmitThenPersist(Shipped(), Payload(None), world, order, current, changes);
  }

  /** A snapshot already holding the current list gives no change, whatever
      the targets and the DNS service's verdict. */
  lemma MatchingSnapshotIsNoop(targets: Option<seq<Target>>, accepted: bool)
    ensures var world := World(Resolved(), OneInterface(), accepted, targets);
      var event := Payload(Some(map[PUBLIC := ["10.0.0.1"]]));
      && Admissible(Shipped(), event, world, [])
      && LambdaHandler(Shipped(), event, world, []) == Run([], None)
  {
    ShippedMapping();
    var current := map[PUBLIC := ["10.0.0.1"]];
    DiffEmptyIff(current, current);
  }

  /** Two lists with the same addresses in another order leave nothing to
      update. */
  lemma PermutedListsNoDiff()
    ensures Diff(map[PUBLIC := ["10.0.0.2", "10.0.0.1"]], map[PUBLIC := ["10.0.0.1", "10.0.0.2"]]) == {}
  {
    var current := map[PUBLIC := ["10.0.0.2", "10.0.0.1"]];
    var snapshot := map[PUBLIC := ["10.0.0.1", "10.0.0.2"]];
    assert ["10.0.0.1", "10.0.0.2"] == [] + ["10.0.0.1"] + ["10.0.0.2"];
    assert multiset(snapshot[PUBLIC]) == multiset(current[PUBLIC]);
    DiffEmptyIff(current, snapshot);
  }

  /** An empty inventory answer makes the run a no-op. */
  lemma NoInterfacesIsNoop(event: Payload, targets: Option<seq<Target>>, accepted: bool)
    ensures var world := World(Resolved(), [], accepted, targets);
      && Admissible(Shipped(), event, world, [])
      && LambdaHandler(Shipped(), event, world, []) == Run([], None)
  {
    assert InventoryAnswers(Shipped().publicNames, Resolved(), []);
  }
}
