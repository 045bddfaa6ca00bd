/** The address grouping (`get_address_mapping`): the network interfaces
    associated with the indexed public addresses are grouped by the public DNS
    name of their public address, and each group's private addresses are kept
    sorted. The inventory answer (`describe_network_interfaces` filtered on the
    index's addresses) is an input. */
module AddressGrouping {
  import opened Wrappers
  import opened Sorting
  import opened PublicIp

  /** One network interface: its associated public address and its private
      addresses, in the order the inventory lists them. */
  datatype Interface = Interface(publicIp: string, privateIps: seq<string>)

  /** Public DNS name -> private addresses. */
  type Mapping = map<string, seq<string>>

  /** The inventory only returns interfaces whose public address was in the
      filter, i.e. in the index. */
  predicate Indexed(index: map<string, string>, interfaces: seq<Interface>)
  {
    forall k :: 0 <= k < |interfaces| ==> interfaces[k].publicIp in index
  }

  /** What the inventory may answer: the filter is only sent when the index is
      not empty, and then only matching interfaces come back. */
  predicate InventoryAnswers(names: seq<string>, res: Resolver, interfaces: seq<Interface>)
  {
    |IndexOf(names, res)| > 0 ==> Indexed(IndexOf(names, res), interfaces)
  }

  /** One turn of the loop: `setdefault(name, [])`, `extend`, `sort`. */
  function Extend(mapping: Mapping, name: string, addresses: seq<string>): Mapping
  {
    var current := if name in mapping then mapping[name] else [];
    mapping[name := Sort(current + addresses)]
  }

  /** The grouping built from `interfaces`, in inventory order. */
  function GroupOf(index: map<string, string>, interfaces: seq<Interface>): Mapping
    requires Indexed(index, interfaces)
  {
    if |interfaces| == 0 then map[]
    else
      var last := interfaces[|interfaces| - 1];
      Extend(GroupOf(index, interfaces[..|interfaces| - 1]), index[last.publicIp], last.privateIps)
  }

  /** The result of `get_address_mapping`: `None` ("unavailable") when no
      public address was resolved or no interface came back. */
  function AddressMappingOf(names: seq<string>, res: Resolver, interfaces: seq<Interface>): Option<Mapping>
    requires InventoryAnswers(names, res, interfaces)
  {
    var index := IndexOf(names, res);
    if |index| == 0 then None
    else if |interfaces| == 0 then None
    else Some(GroupOf(index, interfaces))
  }

  /** `get_address_mapping`. */
  method GetAddressMapping(names: seq<string>, res: Resolver, interfaces: seq<Interface>)
    returns (result: Option<Mapping>)
    requires InventoryAnswers(names, res, interfaces)
    ensures result == AddressMappingOf(names, res, interfaces)
  {
    var index := GetPublicIpMapping(names, res);
    if |index| == 0 {
      return None;
    }
    if |interfaces| == 0 {
      return None;
    }
    var mapping: Mapping := map[];
    for k := 0 to |interfaces|
      invariant Indexed(index, interfaces[..k])
      invariant mapping == GroupOf(index, interfaces[..k])
    {
      assert interfaces[..k + 1][..k] == interfaces[..k];
      var name := index[interfaces[k].publicIp];
      var privateAddresses := if name in mapping then mapping[name] else [];
      privateAddresses := privateAddresses + interfaces[k].privateIps;
      privateAddresses := Sort(privateAddresses);
      mapping := mapping[name := privateAddresses];
    }
    assert interfaces[..|interfaces|] == interfaces;
    return Some(mapping);
  }

  /** The private addresses of every interface whose public address is indexed
      under `name`, concatenated in inventory order, duplicates kept. */
  function Collected(index: map<string, string>, interfaces: seq<Interface>, name: string): seq<string>
    requires Indexed(index, interfaces)
  {
    if |interfaces| == 0 then []
    else
      var last := interfaces[|interfaces| - 1];
      Collected(index, interfaces[..|interfaces| - 1], name)
        + (if index[last.publicIp] == name then last.privateIps else [])
  }

  /** A name is a key of the grouping exactly when some interface is indexed
      under it; a name that is not a key has collected nothing. */
  lemma {:induction false} GroupKeys(index: map<string, string>, interfaces: seq<Interface>, name: string)
    requires Indexed(index, interfaces)
    ensures name in GroupOf(index, interfaces) <==>
      exists k :: 0 <= k < |interfaces| && index[interfaces[k].publicIp] == name
    ensures name !in GroupOf(index, interfaces) ==> Collected(index, interfaces, name) == []
  {
    if |interfaces| > 0 {
      var n := |interfaces| - 1;
      var prefix := interfaces[..n];
      assert Indexed(index, prefix);
      GroupKeys(index, prefix, name);
      assert forall k :: 0 <= k < n ==> prefix[k] == interfaces[k];
      if index[interfaces[n].publicIp] != name && name in GroupOf(index, interfaces) {
        var k :| 0 <= k < n && index[prefix[k].publicIp] == name;
      }
    }
  }

  /** Each list of the grouping is the sorted collection of the private
      addresses of the interfaces indexed under its name: re-sorting after
      every `extend` gives the same list as one sort at the end, and nothing is
      deduplicated. */
  lemma {:induction false} GroupLists(index: map<string, string>, interfaces: seq<Interface>, name: string)
    requires Indexed(index, interfaces)
    requires name in GroupOf(index, interfaces)
    ensures GroupOf(index, interfaces)[name] == Sort(Collected(index, interfaces, name))
  {
    var n := |interfaces| - 1;
    var prefix := interfaces[..n];
    var last := interfaces[n];
    assert Indexed(index, prefix);
    var before := GroupOf(index, prefix);
    var earlier := Collected(index, prefix, name);
    if index[last.publicIp] == name {
      var current := if name in before then before[name] else [];
      if name in before {
        GroupLists(index, prefix, name);
        SortPermutes(earlier);
      } else {
        GroupKeys(index, prefix, name);
      }
      assert multiset(current) == multiset(earlier);
      assert multiset(current + last.privateIps) == multiset(earlier + last.privateIps);
      SortCanonical(current + last.privateIps, earlier + last.privateIps);
      assert GroupOf(index, interfaces)[name] == Sort(current + last.privateIps);
      assert Collected(index, interfaces, name) == earlier + last.privateIps;
    } else {
      assert earlier + [] == earlier;
      assert Collected(index, interfaces, name) == earlier;
      assert name in before && GroupOf(index, interfaces)[name] == before[name];
      GroupLists(index, prefix, name);
    }
  }

  /** `get_address_mapping` is unavailable exactly when the index is empty or
      no interface came back; otherwise it is a non-empty mapping whose keys are
      public DNS names of the index, whose lists are sorted, and whose list for
      each name holds, with duplicates, exactly the private addresses of the
      interfaces indexed under that name. */
  lemma AddressMappingProperties(names: seq<string>, res: Resolver, interfaces: seq<Interface>)
    requires InventoryAnswers(names, res, interfaces)
    ensures AddressMappingOf(names, res, interfaces).None? <==>
      |IndexOf(names, res)| == 0 || |interfaces| == 0
    ensures AddressMappingOf(names, res, interfaces).Some? ==>
      var mapping := AddressMappingOf(names, res, interfaces).value;
      && |mapping| > 0
      && (forall name :: name in mapping ==> name in IndexOf(names, res).Values && name in names)
      && (forall name :: name in mapping ==> Sorted(mapping[name]))
      && (forall name :: name in mapping ==>
            multiset(mapping[name]) == multiset(Collected(IndexOf(names, res), interfaces, name)))
  {
    var index := IndexOf(names, res);
    if |index| > 0 && |interfaces| > 0 {
      var mapping := GroupOf(index, interfaces);
      var last := interfaces[|interfaces| - 1];
      GroupKeys(index, interfaces, index[last.publicIp]);
      assert index[last.publicIp] in mapping;
      forall name | name in mapping
        ensures name in index.Values && name in names
        ensures Sorted(mapping[name])
        ensures multiset(mapping[name]) == multiset(Collected(index, interfaces, name))
      {
        GroupEntry(names, res, interfaces, name);
      }
    }
  }

  lemma GroupEntry(names: seq<string>, res: Resolver, interfaces: seq<Interface>, name: string)
    requires Indexed(IndexOf(names, res), interfaces)
    requires name in GroupOf(IndexOf(names, res), interfaces)
    ensures name in IndexOf(names, res).Values && name in names
    ensures Sorted(GroupOf(IndexOf(names, res), interfaces)[name])
    ensures multiset(GroupOf(IndexOf(names, res), interfaces)[name])
      == multiset(Collected(IndexOf(names, res), interfaces, name))
  {
    var index := IndexOf(names, res);
    GroupKeys(index, interfaces, name);
    var k :| 0 <= k < |interfaces| && index[interfaces[k].publicIp] == name;
    IndexValues(names, res, interfaces[k].publicIp);
    GroupLists(index, interfaces, name);
    SortPermutes(Collected(index, interfaces, name));
  }

  /** Every name of an available mapping is one of the table's names. */
  lemma KeysFromTable(names: seq<string>, res: Resolver, interfaces: seq<Interface>, name: string)
    requires InventoryAnswers(names, res, interfaces)
    requires AddressMappingOf(names, res, interfaces).Some?
    requires name in AddressMappingOf(names, res, interfaces).value
    ensures name in names
  {
    GroupEntry(names, res, interfaces, name);
  }
}
