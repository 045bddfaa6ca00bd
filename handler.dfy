/** The handler (`lambda_handler`) as a function from its inputs to the
    external effects it causes. The services it reads (name resolution, the
    interface inventory, the rule's target list) and the DNS service's verdict
    on the change batch are inputs gathered in `World`. */
module Handler {
  import opened Wrappers
  import opened Config
  import opened Sorting
  import opened PublicIp
  import opened AddressGrouping
  import opened DiffEngine
  import opened ChangeBatch
  import opened Persistence

  /** What the services answer during one invocation. */
  datatype World = World(
    resolver: Resolver,
    interfaces: seq<Interface>,
    changeAccepted: bool,
    targets: Option<seq<Target>>)

  /** A call that changes something outside the function. */
  datatype Effect =
    | ChangeRecordSets(hostedZoneId: string, changes: seq<Change>)
    | PutTargetsCall(request: PutTargets)

  /** An exception that ends the invocation: the `KeyError` of a public name
      missing from the static table, or the DNS service rejecting the batch. */
  datatype Fault = KeyError(key: string) | ChangeRejected

  /** The effects of one invocation, in order, and the exception it ends
      with, if any. */
  datatype Run = Run(effects: seq<Effect>, fault: Option<Fault>)

  /** `event.get('old_address_mapping') or {}`: a missing key, `None` and
      `{}` all give the empty snapshot; any other mapping is taken as is. */
  function SnapshotOf(event: Payload): (r: Mapping)
    ensures |r| == 0 <==> event.oldAddressMapping.None? || event.oldAddressMapping == Some(map[])
    ensures event.oldAddressMapping.Some? ==> r == event.oldAddressMapping.value
  {
    match event.oldAddressMapping
    case None => map[]
    case Some(m) => m
  }

  /** The mapping the handler computes (`get_address_mapping()`). */
  function CurrentOf(c: Settings, world: World): Option<Mapping>
    requires InventoryAnswers(c.publicNames, world.resolver, world.interfaces)
  {
    AddressMappingOf(c.publicNames, world.resolver, world.interfaces)
  }

  /** The inventory answers as its filter demands, and `order` is the
      iteration order of the diff, when there is one. */
  ghost predicate Admissible(c: Settings, event: Payload, world: World, order: seq<Entry>)
  {
    && InventoryAnswers(c.publicNames, world.resolver, world.interfaces)
    && (CurrentOf(c, world).Some? ==> Enumerates(order, Diff(CurrentOf(c, world).value, SnapshotOf(event))))
  }

  /** `lambda_handler(event, context)`. A run makes at most two calls: the
      change batch on the configured zone, and after it, only when that batch
      was accepted, the `put_targets` on the configured rule. It calls nothing
      unless the mapping is available and differs from the snapshot. A
      `KeyError` comes before any call and names a public name missing from
      the table; a rejection comes right after the batch. */
  function LambdaHandler(c: Settings, event: Payload, world: World, order: seq<Entry>): (r: Run)
    requires Admissible(c, event, world, order)
    ensures |r.effects| <= 2
    ensures |r.effects| > 0 ==>
      && CurrentOf(c, world).Some?
      && Diff(CurrentOf(c, world).value, SnapshotOf(event)) != {}
      && r.effects[0].ChangeRecordSets?
      && r.effects[0].hostedZoneId == c.hostedZoneId
    ensures |r.effects| == 2 ==>
      && world.changeAccepted
      && r.effects[1].PutTargetsCall?
      && r.effects[1].request.rule == c.eventName
      && r.fault.None?
    ensures r.fault == Some(ChangeRejected) ==> |r.effects| == 1 && !world.changeAccepted
    ensures r.fault.Some? && r.fault.value.KeyError? ==>
      r.effects == [] && r.fault.value.key !in c.dnsMapping
  {
    var snapshot := SnapshotOf(event);
    var current := CurrentOf(c, world);
    if current.None? || |current.value| == 0 then
      Run([], None)
    else if Diff(current.value, snapshot) == {} then
      Run([], None)
    else
      match BuildChanges(c.dnsMapping, order)
      case Failure(key) =>
        Run([], Some(KeyError(key)))
      case Success(changes) =>
        var submit := ChangeRecordSets(c.hostedZoneId, changes);
        if !world.changeAccepted then
          Run([submit], Some(ChangeRejected))
        else
          match UpdateIteration(c.eventName, world.targets, Payload(Some(current.value)))
          case None => Run([submit], None)
          case Some(put) => Run([submit, PutTargetsCall(put)], None)
  }

  /** When the mapping is unavailable the run does nothing and ends cleanly. */
  lemma UnavailableIsNoop(c: Settings, event: Payload, world: World, order: seq<Entry>)
    requires Admissible(c, event, world, order)
    requires |IndexOf(c.publicNames, world.resolver)| == 0 || |world.interfaces| == 0
    ensures LambdaHandler(c, event, world, order) == Run([], None)
  {
    AddressMappingProperties(c.publicNames, world.resolver, world.interfaces);
  }

  /** When every current name is in the snapshot with a permutation of its
      list, the run does nothing: no change batch and no persistence. */
  lemma UnchangedIsNoop(c: Settings, event: Payload, world: World, order: seq<Entry>)
    requires Admissible(c, event, world, order)
    requires CurrentOf(c, world).Some?
    requires forall name :: name in CurrentOf(c, world).value ==>
      name in SnapshotOf(event) && multiset(SnapshotOf(event)[name]) == multiset(CurrentOf(c, world).value[name])
    ensures LambdaHandler(c, event, world, order) == Run([], None)
  {
    DiffEmptyIff(CurrentOf(c, world).value, SnapshotOf(event));
  }

  /** With a valid static table every name of the diff is in the table. */
  lemma DiffNamesConfigured(c: Settings, world: World, snapshot: Mapping, e: Entry)
    requires Valid(c)
    requires InventoryAnswers(c.publicNames, world.resolver, world.interfaces)
    requires CurrentOf(c, world).Some?
    requires e in Diff(CurrentOf(c, world).value, snapshot)
    ensures e.0 in c.dnsMapping
  {
    DiffMembership(CurrentOf(c, world).value, snapshot, e.0, e.1);
    KeysFromTable(c.publicNames, world.resolver, world.interfaces, e.0);
  }

  /** With a valid static table the `KeyError` never happens: every name of the
      computed mapping comes from the table. */
  lemma NoKeyError(c: Settings, event: Payload, world: World, order: seq<Entry>)
    requires Valid(c)
    requires Admissible(c, event, world, order)
    ensures LambdaHandler(c, event, world, order).fault.Some? ==>
      LambdaHandler(c, event, world, order).fault.value == ChangeRejected
  {
    var current := CurrentOf(c, world);
    if current.Some? {
      forall i | 0 <= i < |order|
        ensures order[i].0 in c.dnsMapping
      {
        assert order[i] in order;
        DiffNamesConfigured(c, world, SnapshotOf(event), order[i]);
      }
    }
  }

  /** A run that finds changes submits, as its first effect, the batch built
      from the diff, which holds exactly one UPSERT per diff entry and nothing
      else, each carrying the entry's full sorted list. */
  lemma ChangesCoverDiff(c: Settings, event: Payload, world: World, order: seq<Entry>)
    requires Valid(c)
    requires Admissible(c, event, world, order)
    requires CurrentOf(c, world).Some?
    ensures BuildChanges(c.dnsMapping, order).Success?
    ensures OnePerEntry(c.dnsMapping, BuildChanges(c.dnsMapping, order).value,
      Diff(CurrentOf(c, world).value, SnapshotOf(event)))
  {
    var diff := Diff(CurrentOf(c, world).value, SnapshotOf(event));
    forall e | e in diff
      ensures e.0 in c.dnsMapping
    {
      DiffNamesConfigured(c, world, SnapshotOf(event), e);
    }
    BatchMatchesDiff(c.dnsMapping, order, diff);
  }

  /** Once the batch is built, the run fails exactly when the DNS service
      rejects it; when it is accepted and the rule has exactly one target, the
      run then persists the current mapping as the next snapshot in that
      target, after the batch; otherwise the batch is the only effect. */
  lemma SubmitThenPersist(c: Settings, event: Payload, world: World, order: seq<Entry>,
                          current: Mapping, changes: seq<Change>)
    requires Admissible(c, event, world, order)
    requires CurrentOf(c, world) == Some(current)
    requires Diff(current, SnapshotOf(event)) != {}
    requires BuildChanges(c.dnsMapping, order) == Success(changes)
    ensures var run := LambdaHandler(c, event, world, order);
      && (run.fault.None? <==> world.changeAccepted)
      && (world.changeAccepted && world.targets.Some? && |world.targets.value| == 1 ==>
            run.effects == [ChangeRecordSets(c.hostedZoneId, changes),
              PutTargetsCall(PutTargets(c.eventName,
                [TargetInput(world.targets.value[0].arn, world.targets.value[0].id, Payload(Some(current)))]))])
      && (!(world.changeAccepted && world.targets.Some? && |world.targets.value| == 1) ==>
            run.effects == [ChangeRecordSets(c.hostedZoneId, changes)])
  {
    if |current| == 0 {
      EmptyCurrentNoDiff(current, SnapshotOf(event));
    }
    var run := LambdaHandler(c, event, world, order);
    var submit := ChangeRecordSets(c.hostedZoneId, changes);
    if !world.changeAccepted {
      assert run == Run([submit], Some(ChangeRejected));
    } else {
      var put := UpdateIteration(c.eventName, world.targets, Payload(Some(current)));
      if put.Some? {
        assert put.value.targets == [put.value.targets[0]];
        assert run == Run([submit, PutTargetsCall(put.value)], None);
      } else {
        assert run == Run([submit], None);
      }
    }
  }

  /** The handler re-arms itself: after a run that persisted the current
      mapping, the next invocation with that payload, in an unchanged world,
      does nothing. */
  lemma RearmedRunIsNoop(c: Settings, event: Payload, world: World, order: seq<Entry>, next: seq<Entry>)
    requires Admissible(c, event, world, order)
    requires |LambdaHandler(c, event, world, order).effects| == 2
    ensures var run := LambdaHandler(c, event, world, order);
      && run.effects[1].PutTargetsCall?
      && |run.effects[1].request.targets| == 1
      && var persisted := run.effects[1].request.targets[0].input;
         Admissible(c, persisted, world, next) ==> LambdaHandler(c, persisted, world, next) == Run([], None)
  {
    var current := CurrentOf(c, world).value;
    DiffEmptyIff(current, current);
  }

  /** With no snapshot (the key absent, `None` or `{}`), every name of the
      current mapping is upserted with its full sorted list. */
  lemma MissingSnapshotUpsertsEverything(c: Settings, event: Payload, world: World, order: seq<Entry>, name: string)
    requires Admissible(c, event, world, order)
    requires event.oldAddressMapping.None? || event.oldAddressMapping == Some(map[])
    requires CurrentOf(c, world).Some? && name in CurrentOf(c, world).value
    ensures (name, Sort(CurrentOf(c, world).value[name])) in Diff(CurrentOf(c, world).value, SnapshotOf(event))
  {
    DiffMembership(CurrentOf(c, world).value, SnapshotOf(event), name, Sort(CurrentOf(c, world).value[name]));
  }
}
