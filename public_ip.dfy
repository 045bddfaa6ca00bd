/** The public-IP index (`get_public_ip_mapping`): every public DNS name of the
    static table is resolved, and each address it resolves to is recorded
    against that name. Name resolution is an input: `Resolver` gives, per name,
    either the list of addresses `socket.gethostbyname_ex` returns, or `None`
    for a `socket.gaierror`. */
module PublicIp {
  import opened Wrappers

  type Resolver = map<string, Option<seq<string>>>

  /** The resolver's answer for `name`; a name it holds no answer for fails,
      as an unknown name does. */
  function Resolve(res: Resolver, name: string): Option<seq<string>>
  {
    if name in res then res[name] else None
  }

  /** `name` resolved successfully and `ip` is among its addresses. */
  predicate Contributes(res: Resolver, name: string, ip: string)
  {
    Resolve(res, name).Some? && ip in Resolve(res, name).value
  }

  /** One turn of the loop: failures and empty answers are skipped, otherwise
      the dict is updated with `{ip: name for ip in ips}`. */
  function Step(index: map<string, string>, res: Resolver, name: string): map<string, string>
  {
    match Resolve(res, name)
    case None => index
    case Some(ips) =>
      if |ips| == 0 then index
      else index + map ip | ip in ips :: name
  }

  /** The index built from the names in `names`, in that order. */
  function IndexOf(names: seq<string>, res: Resolver): map<string, string>
  {
    if |names| == 0 then map[]
    else Step(IndexOf(names[..|names| - 1], res), res, names[|names| - 1])
  }

  /** `get_public_ip_mapping`, walking the names of the static table in order. */
  method GetPublicIpMapping(names: seq<string>, res: Resolver) returns (index: map<string, string>)
    ensures index == IndexOf(names, res)
  {
    index := map[];
    for i := 0 to |names|
      invariant index == IndexOf(names[..i], res)
    {
      assert names[..i + 1][..i] == names[..i];
      var publicDns := names[i];
      var answer := Resolve(res, publicDns);
      if answer.None? {
        continue;
      }
      var publicIps := answer.value;
      if |publicIps| == 0 {
        continue;
      }
      index := index + map ip | ip in publicIps :: publicDns;
    }
    assert names[..|names|] == names;
  }

  /** An address is in the index exactly when some name resolved to it, and it
      is then recorded against the LAST such name in table order: later names
      overwrite earlier ones. Names that fail or resolve to nothing therefore
      contribute nothing, and every recorded name is one of `names`. */
  lemma {:induction false} IndexCharacterization(names: seq<string>, res: Resolver, ip: string)
    ensures ip in IndexOf(names, res) <==> exists i :: 0 <= i < |names| && Contributes(res, names[i], ip)
    ensures ip in IndexOf(names, res) ==>
      exists i :: 0 <= i < |names| && names[i] == IndexOf(names, res)[ip]
        && Contributes(res, names[i], ip)
        && forall j :: i < j < |names| ==> !Contributes(res, names[j], ip)
  {
    if |names| > 0 {
      var n := |names| - 1;
      var prefix := names[..n];
      IndexCharacterization(prefix, res, ip);
      assert forall i :: 0 <= i < n ==> prefix[i] == names[i];
      if Contributes(res, names[n], ip) {
        assert IndexOf(names, res)[ip] == names[n];
      } else {
        assert ip in IndexOf(names, res) <==> ip in IndexOf(prefix, res);
        if ip in IndexOf(names, res) {
          assert IndexOf(names, res)[ip] == IndexOf(prefix, res)[ip];
          var i :| 0 <= i < n && prefix[i] == IndexOf(prefix, res)[ip]
            && Contributes(res, prefix[i], ip)
            && forall j :: i < j < n ==> !Contributes(res, prefix[j], ip);
          assert names[i] == IndexOf(names, res)[ip];
        }
      }
    }
  }

  /** Every value of the index is a name from `names` that resolved to the
      address recorded against it. */
  lemma IndexValues(names: seq<string>, res: Resolver, ip: string)
    requires ip in IndexOf(names, res)
    ensures IndexOf(names, res)[ip] in names
    ensures Contributes(res, IndexOf(names, res)[ip], ip)
  {
    IndexCharacterization(names, res, ip);
  }
}
