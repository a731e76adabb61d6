/**
  The claim handler: one call per reconcile of a claim, allocating from or releasing to the
  pool the claim refers to.
 */
module ClaimHandler {
  import opened Outcomes
  import opened Prefixes
  import opened OwnRecord
  import opened RecordStore
  import opened AddressProtocol
  import opened InfobloxClient
  import opened ClaimHostname
  import opened Pools
  import opened ClaimLifecycle
  import opened ClaimRuns

  datatype Ready = Unknown | True(reason: string) | False(reason: string, errs: seq<Error>)

  datatype HandlerError = NoHostname | WrongSuffix | NotAllocated(errs: seq<Error>) | NoSubnets

  datatype AddressSpec = AddressSpec(address: Option<Address>, prefix: Option<nat>, gateway: string)

  class Claim {
    const name: string
    var annotation: string
    var ready: Ready

    constructor (name: string, annotation: string)
      ensures this.name == name && this.annotation == annotation && ready == Unknown
    {
      this.name, this.annotation, this.ready := name, annotation, Unknown;
    }
  }

  class IPAddress {
    var spec: AddressSpec

    constructor (spec: AddressSpec)
      ensures this.spec == spec
    {
      this.spec := spec;
    }
  }

  class Handler {
    const claim: Claim
    const pool: PoolSpec
    const client: Client
    const defaultDNSView: string

    constructor (claim: Claim, pool: PoolSpec, client: Client, defaultDNSView: string)
      ensures this.claim == claim && this.pool == pool && this.client == client
      ensures this.defaultDNSView == defaultDNSView
    {
      this.claim, this.pool, this.client, this.defaultDNSView := claim, pool, client, defaultDNSView;
    }

    function CurrentSetup(): Setup {
      Setup(claim.name, pool, defaultDNSView)
    }

    /** Pins the hostname in the annotation before anything can fail on it. */
    method EnsureHostname(resolved: Option<string>) returns (r: Result<string, HandlerError>)
      modifies claim`annotation
      ensures var h := HostnameOf(old(claim.annotation), pool.dnsZone, claim.name, resolved);
        if h.None? then r == Err(NoHostname) && claim.annotation == old(claim.annotation)
        else
          claim.annotation == h.value
          && r == if HasSuffix(h.value, pool.dnsZone) then Ok(h.value) else Err(WrongSuffix)
      ensures old(claim.annotation) == "" && pool.dnsZone == "" ==>
                r == Ok(claim.name) && claim.annotation == claim.name
      ensures old(claim.annotation) == "" && pool.dnsZone != "" && resolved.Some? ==>
                r == Ok(resolved.value + "." + pool.dnsZone) && claim.annotation == resolved.value + "." + pool.dnsZone
      ensures old(claim.annotation) == "" && pool.dnsZone != "" && resolved.None? ==>
                r == Err(NoHostname) && claim.annotation == ""
      ensures old(claim.annotation) != "" ==>
                claim.annotation == old(claim.annotation)
                && r == if exists p :: claim.annotation == p + pool.dnsZone then Ok(claim.annotation)
                        else Err(WrongSuffix)
    {
      HasSuffixIff(claim.annotation, pool.dnsZone);
      if resolved.Some? {
        assert resolved.value + "." + pool.dnsZone == (resolved.value + ".") + pool.dnsZone;
        HasSuffixIff(resolved.value + "." + pool.dnsZone, pool.dnsZone);
      }
      var hostname := HostnameOf(claim.annotation, pool.dnsZone, claim.name, resolved);
      if hostname.None? {
        return Err(NoHostname);
      }
      claim.annotation := hostname.value;
      if !HasSuffix(hostname.value, pool.dnsZone) {
        return Err(WrongSuffix);
      }
      return Ok(hostname.value);
    }

    /** Takes an address from the first subnet that has one for the host. */
    method EnsureAddress(address: IPAddress, resolved: Option<string>) returns (err: Option<HandlerError>)
      requires "" !in client.wapi.world.store
      modifies claim, address, client.wapi
      ensures var w, h := old(client.wapi.world), HostnameOf(old(claim.annotation), pool.dnsZone, claim.name, resolved);
        if h.None? || !HasSuffix(h.value, pool.dnsZone) then
          && client.wapi.world == w && address.spec == old(address.spec) && claim.ready == old(claim.ready)
          && claim.annotation == (if h.None? then old(claim.annotation) else h.value)
          && err == Some(if h.None? then NoHostname else WrongSuffix)
        else
          var out := EnsureFrom(client.wapi.env, w, TargetOf(pool, defaultDNSView, h.value), pool.subnets, 0);
          claim.annotation == h.value && client.wapi.world == out.world &&
          match out.result
          case Got(k, a) =>
            && k < |pool.subnets| && pool.subnets[k].prefix.Some?
            && err.None? && claim.ready == True("AddressAllocated")
            && address.spec == AddressSpec(Some(a), Some(pool.subnets[k].prefix.value.bits), pool.subnets[k].gateway)
          case Failed(errs) =>
            && err == Some(NotAllocated(errs)) && claim.ready == False("AllocationFailed", errs)
            && address.spec == old(address.spec)
      ensures var key := Key(claim.annotation, pool.networkView);
        var before, after := OwnOf(old(client.wapi.world).store, key), OwnOf(client.wapi.world.store, key);
        var dnsView :=
          if pool.dnsView != "" then pool.dnsView
          else if defaultDNSView != "" then defaultDNSView
          else if pool.networkView == "" || pool.networkView == "default" then "default"
          else "default." + pool.networkView;
        err.None? && before.Absent? ==>
          && after.Single? && after.rec.name == key.name
          && after.rec.networkView == (if pool.networkView == "" then "default" else pool.networkView)
          && (after.rec.enableDns <==> pool.dnsZone != "")
          && after.rec.dnsView == if pool.dnsZone != "" then Some(dnsView) else None
      ensures Life(client.wapi.world, claim.annotation) ==
              AfterEnsure(client.wapi.env, old(Life(client.wapi.world, claim.annotation)), CurrentSetup(), resolved)
    {
      hide EnsureFrom, OwnOf;
      var hostname := EnsureHostname(resolved);
      if hostname.Err? {
        return Some(hostname.error);
      }
      ghost var target := TargetOf(pool, defaultDNSView, hostname.value);
      if OwnOf(client.wapi.world.store, target.key).Absent? {
        NewHostSetUp(client.wapi.env, client.wapi.world, target, pool.subnets);
      }
      err := TrySubnets(address, hostname.value);
    }

    /** The loop over the pool's subnets. */
    method TrySubnets(address: IPAddress, hostname: string) returns (err: Option<HandlerError>)
      requires "" !in client.wapi.world.store
      modifies claim`ready, address, client.wapi
      ensures
        var w := old(client.wapi.world);
        var out := EnsureFrom(client.wapi.env, w, TargetOf(pool, defaultDNSView, hostname), pool.subnets, 0);
        client.wapi.world == out.world &&
        match out.result
        case Got(k, a) =>
          && k < |pool.subnets| && pool.subnets[k].prefix.Some?
          && err.None? && claim.ready == True("AddressAllocated")
          && address.spec == AddressSpec(Some(a), Some(pool.subnets[k].prefix.value.bits), pool.subnets[k].gateway)
        case Failed(errs) =>
          && err == Some(NotAllocated(errs)) && claim.ready == False("AllocationFailed", errs)
          && address.spec == old(address.spec)
    {
      ghost var env, w, subs := client.wapi.env, client.wapi.world, pool.subnets;
      ghost var target := TargetOf(pool, defaultDNSView, hostname);
      var errs: seq<Error> := [];
      for i := 0 to |pool.subnets|
        invariant "" !in client.wapi.world.store
        invariant address.spec == old(address.spec) && claim.ready == old(claim.ready)
        invariant EnsureFrom(env, w, target, subs, 0) ==
                  AfterErrors(errs, EnsureFrom(env, client.wapi.world, target, subs, i))
      {
        hide Allocate;
        var prefix := pool.subnets[i].prefix;
        if prefix.None? {
          continue;
        }
        var dnsView := DetermineDNSView(pool.dnsView, defaultDNSView, pool.networkView);
        var reply := client.GetOrAllocateAddress(
          Request(Key(hostname, pool.networkView), prefix.value, dnsView, pool.dnsZone));
        if reply.Err? {
          errs := errs + [reply.error];
          continue;
        }
        address.spec := address.spec.(address := Some(reply.value));
        address.spec := address.spec.(prefix := Some(prefix.value.bits));
        address.spec := address.spec.(gateway := pool.subnets[i].gateway);
        claim.ready := True("AddressAllocated");
        return None;
      }
      assert errs + [] == errs;
      claim.ready := False("AllocationFailed", errs);
      return Some(NotAllocated(errs));
    }

    /**
      Gives the host's addresses back, subnet by subnet. Errors of the client are logged, not
      returned: `logged` lists the subnets they came from.
     */
    method ReleaseAddress(resolved: Option<string>) returns (err: Option<HandlerError>, logged: set<nat>)
      modifies client.wapi
      ensures var w, h := old(client.wapi.world), HostnameOf(claim.annotation, pool.dnsZone, claim.name, resolved);
        if h.None? || |pool.subnets| == 0 then
          && client.wapi.world == w && logged == {}
          && err == Some(if h.None? then NoHostname else NoSubnets)
        else
          && err.None?
          && Passed(client.wapi.world, logged) ==
             ReleaseFrom(client.wapi.env, w, Key(h.value, pool.networkView), pool.subnets, 0)
      ensures Life(client.wapi.world, claim.annotation) ==
              AfterRelease(client.wapi.env, old(Life(client.wapi.world, claim.annotation)), CurrentSetup(), resolved)
    {
      logged := {};
      var hostname := HostnameOf(claim.annotation, pool.dnsZone, claim.name, resolved);
      if hostname.None? {
        return Some(NoHostname), {};
      }
      if |pool.subnets| == 0 {
        return Some(NoSubnets), {};
      }
      var key := Key(hostname.value, pool.networkView);
      ghost var env, w, subs := client.wapi.env, client.wapi.world, pool.subnets;
      for i := 0 to |pool.subnets|
        invariant ReleaseFrom(env, w, key, subs, 0) ==
                  WithFailed(logged, ReleaseFrom(env, client.wapi.world, key, subs, i))
      {
        hide Release;
        var prefix := pool.subnets[i].prefix;
        if prefix.None? {
          continue;
        }
        var dnsView := DetermineDNSView(pool.dnsView, defaultDNSView, pool.networkView);
        ghost var rest := ReleaseFrom(env, client.wapi.world, key, subs, i);
        var released := client.ReleaseAddress(key, dnsView, prefix.value);
        if released.Err? {
          ghost var later := ReleaseFrom(env, client.wapi.world, key, subs, i + 1);
          assert rest == later.(failed := {i} + later.failed);
          assert logged + ({i} + later.failed) == (logged + {i}) + later.failed;
          logged := logged + {i};
        }
      }
      return None, logged;
    }
  }

  ghost function WithFailed(failed: set<nat>, p: Passed): Passed {
    p.(failed := failed + p.failed)
  }
}
