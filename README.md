# Private DNS reconciliation, modelled in Dafny

This project models the reconciliation logic of `lambda_function.py`. The
function runs periodically. It resolves a fixed set of public DNS names to
their public IP addresses. It looks up the network interfaces behind those
addresses and groups their private addresses by public name. It diffs that
mapping against the snapshot handed in by the scheduler. For every name that
changed, it upserts an A record on the matching private name. Finally it
stores the new mapping as the snapshot in the input of the scheduled rule's
single target.

Every AWS and socket call is replaced by a plain input value:

- the resolver is a `map<string, Option<seq<string>>>`, where `None` stands for a `socket.gaierror`;
- the inventory answer is a sequence of `Interface(publicIp, privateIps)`;
- the rule's target list is an `Option<seq<Target>>`;
- the DNS service's verdict on the batch is a `bool`.

The handler is a function from these inputs to the ordered list of calls that
change something (`ChangeRecordSets`, `PutTargetsCall`) and the exception the
run ends with, if any. The exceptions modelled are the `KeyError` of the
change list and a rejected change batch; the others are listed under "Left out".

Modules, one per component:

- `Config`: the module-level constants and the static `DNS_MAPPING` table. The table's key order is kept because the resolver walks it.
- `Sorting`: Python's `str` ordering and `sorted`/`list.sort`. Two strings that are equal under this order are identical, so a list has exactly one sorted permutation. `SortedUnique` proves this, so the insertion sort used here returns the same list as Python's sort.
- `PublicIp`: `get_public_ip_mapping`, as a loop (`GetPublicIpMapping`) proved equal to a left fold (`IndexOf`).
- `AddressGrouping`: `get_address_mapping`, as a loop (`GetAddressMapping`) proved equal to `AddressMappingOf`.
- `DiffEngine`: `parsed_address_mapping` and the set difference.
- `ChangeBatch`: the `Changes` list comprehension.
- `Persistence`: `update_iteration` and `update_target_input`.
- `Handler`: `lambda_handler`.
- `Scenarios`: concrete runs with the shipped table.

Two behaviours of the code are worth stating up front, because a reader might
expect otherwise. The model keeps both:

- Address lists are not deduplicated. `list.extend` followed by `sort` keeps duplicates (lambda_function.py:98-99). `AddressMappingProperties` states the lists with duplicates kept.
- The diff goes one way. The set difference at lambda_function.py:117 only subtracts the snapshot's pairs from the current ones, so a name found only in the snapshot produces no change (`DiffMembership`).

## Model

| member | source | states |
|---|---|---|
| `Config.Shipped` | lambda_function.py:20-24 | the shipped table has one public name, is a well-formed dict (keys distinct, key order lists exactly its keys) |
| `Sorting.Sort` | lambda_function.py:99 | the sorted list is in ascending Python `str` order |
| `Sorting.SortPermutes` | lambda_function.py:98-99 | sorting keeps every address with its multiplicity and adds none (no deduplication) |
| `Sorting.SortedUnique` | lambda_function.py:106 | two sorted lists holding the same elements with the same multiplicities are equal, so the sorted tuple does not depend on the sort algorithm |
| `Sorting.SortCanonical` | lambda_function.py:104-106 | two lists sort to the same tuple exactly when one is a permutation of the other, so address order never matters and nothing else is ignored |
| `Sorting.SortSorted` | lambda_function.py:99 | re-sorting an already sorted list changes nothing |
| `PublicIp.GetPublicIpMapping` | lambda_function.py:54-73 | the loop, with its `continue` on failed or empty resolutions and its dict update, builds exactly the left fold `IndexOf` over the table's names in order |
| `PublicIp.IndexCharacterization` | lambda_function.py:57-71 | an address is in the index exactly when some table name resolved successfully to it; it is recorded against the last such name in table order (later names overwrite); failed or empty resolutions contribute nothing |
| `PublicIp.IndexValues` | lambda_function.py:57-71 | every value of the index is a table name that resolved to the address recorded against it |
| `AddressGrouping.GetAddressMapping` | lambda_function.py:76-101 | the method returns "unavailable" on an empty index or an empty inventory answer, otherwise runs the setdefault/extend/sort loop; its result equals `AddressMappingOf` |
| `AddressGrouping.GroupKeys` | lambda_function.py:96-97 | a name is a key of the grouping exactly when some returned interface's public address is indexed under it |
| `AddressGrouping.GroupLists` | lambda_function.py:96-99 | each name's list equals one sort of the concatenated private addresses of all interfaces indexed under it, in inventory order, so re-sorting after every extend changes nothing |
| `AddressGrouping.AddressMappingProperties` | lambda_function.py:76-101 | the result is unavailable exactly when the index or the interface list is empty; otherwise it is a non-empty mapping whose keys are index values and table names, and whose lists are sorted; each list holds, as a multiset with duplicates kept, exactly the private addresses of the interfaces indexed under that name |
| `AddressGrouping.GroupEntry` | lambda_function.py:94-99 | each key of the grouping is a resolved table name; its list is sorted and is a permutation of the collected addresses |
| `AddressGrouping.KeysFromTable` | lambda_function.py:57 | every name of an available mapping is a key of the static table |
| `DiffEngine.Parsed` | lambda_function.py:104-106 | the parsed set holds, for each name of the mapping, exactly one pair: the name with its addresses sorted; nothing else is in it |
| `DiffEngine.Diff` | lambda_function.py:117 | every pair of the diff carries a name of the current mapping with that name's full sorted list, so a name found only in the snapshot never appears |
| `DiffEngine.DiffMembership` | lambda_function.py:104-117 | a pair is in the diff exactly when its name is a current key, it carries that name's full sorted list, and the snapshot lacks the name or holds a list that is not a permutation of it; snapshot-only names never appear |
| `DiffEngine.DiffEmptyIff` | lambda_function.py:117-121 | the diff is empty exactly when every current name is in the snapshot with a permutation of its list |
| `DiffEngine.DiffOneEntryPerName` | lambda_function.py:104-106 | a name appears in the diff at most once |
| `DiffEngine.EmptyCurrentNoDiff` | lambda_function.py:114-117 | an empty current mapping yields an empty diff |
| `DiffEngine.EnumerationSize` | lambda_function.py:139 | iterating the diff set visits as many entries as the set has |
| `ChangeBatch.BuildChanges` | lambda_function.py:129-140 | the comprehension succeeds exactly when every entry's name is in the table; it then yields one change per entry, in iteration order: `UPSERT`, name `DNS_MAPPING[name]`, type `A`, TTL 30, values the entry's full list in order; otherwise it stops with `KeyError` on the first missing name |
| `ChangeBatch.BatchMatchesDiff` | lambda_function.py:117-140 | for an iteration order of the diff, the batch holds exactly one UPSERT per diff entry and nothing else, as many changes as entries |
| `ChangeBatch.BatchCoversDiff` | lambda_function.py:129-139 | a change list built entry by entry from a list holding every diff entry has the UPSERT of each diff entry |
| `ChangeBatch.BatchWithinDiff` | lambda_function.py:129-139 | a change list built entry by entry from diff entries holds nothing but their UPSERTs |
| `ChangeBatch.BatchOfEnumeration` | lambda_function.py:129-139 | a change list built entry by entry from an enumeration covers each diff entry and contains no other change |
| `Persistence.UpdateTargetInput` | lambda_function.py:27-37 | one `put_targets` on the rule, with a single target that keeps only the old target's `Arn` and `Id` and carries the data as its input |
| `Persistence.UpdateIteration` | lambda_function.py:27-51 | a write happens exactly when the rule has exactly one target (none for a missing, empty or multi-target list, without raising); the write is a single `put_targets` on the rule, with that target's `Arn` and `Id` and `data` as input |
| `Handler.SnapshotOf` | lambda_function.py:111 | the snapshot is empty exactly when the key is missing, `None` or `{}`; any other stored mapping is used as is |
| `Handler.LambdaHandler` | lambda_function.py:109-144 | a run makes at most two calls and none unless the mapping is available and differs from the snapshot; the first is the change batch on the configured zone; the second is the `put_targets` on the configured rule, made only after an accepted batch, and the run then ends cleanly; a rejection ends the run right after the batch; a `KeyError` comes before any call and names a public name missing from the table |
| `Handler.UnavailableIsNoop` | lambda_function.py:112-115 | an empty index or an empty inventory answer ends the run with no effect and no error |
| `Handler.UnchangedIsNoop` | lambda_function.py:117-121 | when every current name is in the snapshot with a permutation of its list, the run has no effect and no error |
| `Handler.DiffNamesConfigured` | lambda_function.py:133 | with a well-formed table, every name in the diff has a private name in the table |
| `Handler.NoKeyError` | lambda_function.py:133 | with a well-formed table, `DNS_MAPPING[public_dns]` never raises; the only possible exception is the DNS service's rejection |
| `Handler.ChangesCoverDiff` | lambda_function.py:117-141 | when the mapping is available, the batch the handler builds is well defined and holds exactly one UPSERT per diff entry |
| `Handler.SubmitThenPersist` | lambda_function.py:119-144 | with a non-empty diff, the run fails exactly when the batch is rejected; an accepted batch with exactly one target gives the effects `[ChangeBatch, PutTargets]` in that order, persisting `{'old_address_mapping': current}`; otherwise the batch is the only effect |
| `Handler.RearmedRunIsNoop` | lambda_function.py:111-144 | a run with two effects persisted the current mapping in one target, and the next invocation with that payload, in an unchanged world, does nothing |
| `Handler.MissingSnapshotUpsertsEverything` | lambda_function.py:111-117 | with the snapshot key absent, `None` or `{}`, every current name is in the diff with its full sorted list |
| `Scenarios.ShippedIndex` | lambda_function.py:54-73 | the shipped table, resolving to one address, indexes that address under `public.example.com` |
| `Scenarios.ShippedMapping` | lambda_function.py:76-101 | one interface with private address 10.0.0.1 groups into `{public.example.com: [10.0.0.1]}` |
| `Scenarios.FirstRunDiff` | lambda_function.py:117 | against an empty snapshot that mapping's diff is `{(public.example.com, (10.0.0.1,))}` |
| `Scenarios.FirstRunUpserts` | lambda_function.py:109-144 | the first run upserts `private.example.com` A 30 `[10.0.0.1]`, then persists the mapping in the single target |
| `Scenarios.RunWithOneEntry` | lambda_function.py:117-144 | for that world, the run submits the one-change batch and persists only when there is exactly one target, without error |
| `Scenarios.TwoTargetsSkipPersistence` | lambda_function.py:47-49 | with two targets the batch is submitted, nothing is persisted, and the run ends without error |
| `Scenarios.MatchingSnapshotIsNoop` | lambda_function.py:117-121 | a snapshot already holding the current list makes the run a no-op, whatever the targets and the verdict on the batch |
| `Scenarios.PermutedListsNoDiff` | lambda_function.py:104-117 | `[10.0.0.2, 10.0.0.1]` against a snapshot `[10.0.0.1, 10.0.0.2]` yields an empty diff |
| `Scenarios.NoInterfacesIsNoop` | lambda_function.py:89-92 | an empty inventory answer makes the run a no-op whatever the snapshot and targets |

## Left out

- Client construction and calls for `events`, `route53` and `ec2`, and `socket.gethostbyname_ex`. Their answers are inputs (`World`). The calls that change something are recorded as `Effect`s.
- Logging (lambda_function.py:11-12 and every `logger` call). It has no effect on behaviour.
- The JSON text `json.dumps(..., separators=(',', ':'))`. A target's `Input` is represented by the `Payload` value it encodes. The model assumes a round trip: the next invocation's event is exactly the dict that was written, `{'old_address_mapping': current}`. `Handler.RearmedRunIsNoop` relies on this. JSON gives it for a dict of string lists.
- Errors inside the DNS service. A rejected batch is one input bit. It ends the run with `ChangeRejected`, after the submission and before any persistence.
- `EVENT_NAME`, `HOSTED_ZONE_ID` and `region_name` are fields of `Config.Settings`. They are not globals.
- Concurrent overlapping invocations. The code has no mutual exclusion, so there is nothing to model.
- The order in which Python iterates the diff set. It depends on string hashing and is unspecified. It is the handler's `order` input, which must list each diff entry exactly once.
- Falsy `old_address_mapping` values other than a missing key, `None` or `{}` (such as `[]` or `""`). The payload is modelled as an optional mapping.
- An interface without an `Association`, or whose public IP is not in the index (a `KeyError` at lambda_function.py:97). The inventory answer is required to match its filter (`InventoryAnswers`).
- A name the resolver map has no entry for resolves like a `gaierror`.
- Python's list aliasing in `setdefault(...).extend(...)`. Each name's list is a value that is reassigned into the map.
- An event that is `None` or not a dict. `event.get` at lambda_function.py:111 then raises `AttributeError` before any call. An event that `json.dumps` cannot encode raises `TypeError` earlier, at line 110. The model's event is always a payload dict.
- Exceptions from the events service. `list_targets_by_rule` (lambda_function.py:41) or `put_targets` (lambda_function.py:37) can raise after an accepted batch. That run would end with an exception after the change batch, and its persistence might not happen. The model's events service always answers, and `Fault` has no case for it.
- Exceptions from the inventory call. `describe_network_interfaces` (lambda_function.py:85-87) can raise a botocore error, such as throttling or access denied. The run would then end with an exception before any call. In the model the inventory always answers.
- Resolver failures other than `socket.gaierror`. Only that exception is caught (lambda_function.py:61). Any other failure of `gethostbyname_ex` at line 60, such as `socket.herror` or the `UnicodeError` of an over-long label, aborts the whole run. The model's resolver can only fail with `None`, which skips the name and lets the run go on.
- Service answers with missing keys. An interface without `PrivateIpAddresses`, or an address entry without `PrivateIpAddress` (lambda_function.py:98), raises `KeyError`. So does a target without `Arn` or `Id` (lambda_function.py:29-30). The model's `Interface` and `Target` always carry these fields.
- A malformed stored snapshot. The snapshot is typed `map<string, seq<string>>`. A truthy `old_address_mapping` that is not a dict, such as `["x"]` or `5`, gets past `or {}` at lambda_function.py:111. `mapping.items()` at line 105 then raises `AttributeError` while line 117 builds the set. A dict value that cannot be sorted, such as `None`, a number or mixed types, raises `TypeError` at `sorted(value)` (line 106). A `str` value raises nothing: it is sorted character by character, so that name always shows up in the diff. None of these stored values is modelled. Each of them happens after the service reads and before any change call.
