/** Persisting the snapshot (`update_iteration` / `update_target_input`): the
    new mapping is written into the input of the scheduled rule's target, and
    only when the rule has exactly one target. */
module Persistence {
  import opened Wrappers
  import opened AddressGrouping

  /** The invocation payload `{'old_address_mapping': ...}`: `None` when the
      key is absent or its value is `None`. The same shape is written back as
      the target's input. */
  datatype Payload = Payload(oldAddressMapping: Option<Mapping>)

  /** One element of `list_targets_by_rule(...)['Targets']`. */
  datatype Target = Target(arn: string, id: string)

  /** One element of the `Targets` argument of `put_targets`. `input` stands
      for the JSON text `json.dumps(data)`, which this model represents by the
      payload it encodes. */
  datatype TargetInput = TargetInput(arn: string, id: string, input: Payload)

  /** The `put_targets(Rule=..., Targets=...)` call. */
  datatype PutTargets = PutTargets(rule: string, targets: seq<TargetInput>)

  /** `update_iteration(data)`, given the rule's target list (`None` when the
      answer has no `Targets` key). It returns the `put_targets` call made, if
      any: none for a missing, empty or ambiguous target list (no exception is
      raised in either case), otherwise exactly one call that overwrites the
      single target's input with `data`, keeping its `Arn` and `Id`. */
  function UpdateIteration(rule: string, targets: Option<seq<Target>>, data: Payload): (r: Option<PutTargets>)
    ensures r.Some? <==> targets.Some? && |targets.value| == 1
    ensures r.Some? ==>
      && r.value.rule == rule
      && |r.value.targets| == 1
      && r.value.targets[0].arn == targets.value[0].arn
      && r.value.targets[0].id == targets.value[0].id
      && r.value.targets[0].input == data
  {
    if targets.None? || |targets.value| == 0 then
      None
    else if |targets.value| > 1 then
      None
    else
      Some(UpdateTargetInput(rule, targets.value[0], data))
  }

  /** `update_target_input(target, data)`: one `put_targets` on the rule
      with a single target that keeps only the old target's `Arn` and `Id`
      and carries `data` as its input. */
  function UpdateTargetInput(rule: string, target: Target, data: Payload): (r: PutTargets)
    ensures r.rule == rule && |r.targets| == 1
    ensures r.targets[0].arn == target.arn && r.targets[0].id == target.id
    ensures r.targets[0].input == data
  {
    PutTargets(rule, [TargetInput(target.arn, target.id, data)])
  }
}
