/** Pools as the controllers read them. */
module Pools {
  import opened Outcomes
  import opened Prefixes

  /** A subnet of a pool; `prefix` is what parsing its CIDR gives. */
  datatype PoolSubnet = PoolSubnet(prefix: Option<Subnet>, gateway: string)

  datatype PoolSpec = PoolSpec(subnets: seq<PoolSubnet>, networkView: string, dnsView: string, dnsZone: string)

  function Parsed(subs: seq<PoolSubnet>): set<Subnet> {
    set p | p in subs && p.prefix.Some? :: p.prefix.value
  }

  /** How many of the first `n` subnets parse. */
  function ParsedBefore(subs: seq<PoolSubnet>, n: nat): nat
    requires n <= |subs|
  {
    if n == 0 then 0 else ParsedBefore(subs, n - 1) + (if subs[n - 1].prefix.Some? then 1 else 0)
  }

  lemma {:induction false} ParsedBeforeGrows(subs: seq<PoolSubnet>, a: nat, b: nat)
    requires a <= b <= |subs|
    ensures ParsedBefore(subs, a) <= ParsedBefore(subs, b)
    decreases b
  {
    if a < b {
      ParsedBeforeGrows(subs, a, b - 1);
    }
  }

  /** The pool's DNS view, else the instance's default, else one derived from the network view. */
  function DetermineDNSView(poolView: string, instanceDefault: string, networkView: string): (view: string)
    ensures view != ""
  {
    if poolView != "" then poolView
    else if instanceDefault != "" then instanceDefault
    else if networkView == "" || networkView == "default" then "default"
    else "default." + networkView
  }
}
