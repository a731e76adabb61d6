/** The hostname of a claim whose pool has a DNS zone: the name of the machine it belongs to. */
module MachineHostname {
  import opened Outcomes
  import opened OwnerGraph
  import opened OwnerSearch
  import opened HostnameResolver
  import opened ClaimHostname

  const MACHINE := GroupKind("cluster.x-k8s.io", "Machine")

  /** What the owner search of the claim handler resolves, if anything. */
  function Resolved(cluster: Cluster, order: Order, claim: Object): Option<string> {
    var f := Find(Search(cluster, order, MACHINE, 5), claim, 1, 0);
    if f.result.Ok? && f.result.value != "" then Some(f.result.value) else None
  }

  method ResolveHostname(cluster: Cluster, order: Order, claim: Object) returns (r: Option<string>)
    ensures r == Resolved(cluster, order, claim)
  {
    var resolver := new SearchResolver(cluster, order, MACHINE, 5);
    var name := resolver.GetHostname(claim);
    r := if name.Ok? then Some(name.value) else None;
  }

  /** The path leads, in at most five steps, to a machine of the cluster API. */
  ghost predicate LeadsToMachine(cluster: Cluster, claim: Object, p: seq<OwnerRef>) {
    && IsPath(cluster, claim, p) && |p| <= 5
    && Last(p).kind == "Machine"
    && exists v :: '/' !in v && Last(p).apiVersion == "cluster.x-k8s.io" + "/" + v
  }

  lemma {:induction false} LeadsToMachineIff(cluster: Cluster, order: Order, claim: Object, p: seq<OwnerRef>)
    ensures LeadsToMachine(cluster, claim, p) <==> Reaches(Search(cluster, order, MACHINE, 5), claim, p)
  {
    if p != [] {
      IsAIff(Last(p), MACHINE);
    }
  }

  /** Whatever can be read: in a zone the hostname is that of a machine among the claim's owners. */
  lemma {:induction false} HostnameIsOfMachine(
      cluster: Cluster, order: Order, claim: Object, claimName: string, zone: string)
    requires Permutes(order) && zone != ""
    requires HostnameOf("", zone, claimName, Resolved(cluster, order, claim)).Some?
    ensures exists p ::
      LeadsToMachine(cluster, claim, p)
      && HostnameOf("", zone, claimName, Resolved(cluster, order, claim)) == Some(Last(p).name + "." + zone)
  {
    var c := Search(cluster, order, MACHINE, 5);
    SearchSound(c, claim);
    var p :| Reaches(c, claim, p) && Find(c, claim, 1, 0).result == Ok(Last(p).name);
    LeadsToMachineIff(cluster, order, claim, p);
  }

  /** If all owners within reach can be read, there is a hostname exactly if there is a machine. */
  lemma {:induction false} HostnameIffMachine(
      cluster: Cluster, order: Order, claim: Object, claimName: string, zone: string)
    requires Permutes(order) && zone != "" && Fetchable(cluster, MACHINE, claim, 5)
    requires forall p | LeadsToMachine(cluster, claim, p) :: Last(p).name != ""
    ensures HostnameOf("", zone, claimName, Resolved(cluster, order, claim)).Some? <==>
      exists p :: LeadsToMachine(cluster, claim, p)
  {
    var c := Search(cluster, order, MACHINE, 5);
    forall p
      ensures LeadsToMachine(cluster, claim, p) <==> Reaches(c, claim, p)
    {
      LeadsToMachineIff(cluster, order, claim, p);
    }
    SearchCorrect(c, claim);
  }
}
