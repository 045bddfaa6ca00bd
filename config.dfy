/** The module-level configuration of the function: the scheduled rule whose
    single target carries the snapshot, the hosted zone that holds the private
    records, and the static table from public DNS name to private DNS name. */
module Config {
  /** `publicNames` is the key order of the static table (a Python dict keeps
      insertion order, and the resolver walks the keys in that order);
      `dnsMapping` gives each public name the private name it populates. */
  datatype Settings = Settings(
    eventName: string,
    hostedZoneId: string,
    publicNames: seq<string>,
    dnsMapping: map<string, string>)

  /** A dict has each key once, and its key order lists exactly its keys. */
  predicate Valid(c: Settings)
  {
    && (forall i, j :: 0 <= i < j < |c.publicNames| ==> c.publicNames[i] != c.publicNames[j])
    && c.dnsMapping.Keys == set n | n in c.publicNames
  }

  /** The configuration the module ships with: empty rule and zone names and
      one public name. */
  function Shipped(): (c: Settings)
    ensures Valid(c)
    ensures |c.publicNames| == |c.dnsMapping| == 1
  {
    Settings("", "", ["public.example.com"], map["public.example.com" := "private.example.com"])
  }
}
