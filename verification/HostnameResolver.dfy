/** The two hostname resolvers, proved to compute the search and the walk of `OwnerSearch`. */
module HostnameResolver {
  import opened Outcomes
  import opened OwnerGraph
  import opened OwnerSearch

  const DEFAULT_DEPTH := 5

  method FindOwnerReference(obj: Object, gk: GroupKind) returns (r: Option<OwnerRef>)
    ensures r == FirstOwner(obj.owners, gk)
  {
    for i := 0 to |obj.owners|
      invariant forall j | 0 <= j < i :: !IsA(obj.owners[j], gk)
    {
      if IsA(obj.owners[i], gk) {
        FirstOwnerAt(obj.owners, i, gk);
        return Some(obj.owners[i]);
      }
    }
    FirstOwnerSpec(obj.owners, gk);
    return None;
  }

  class SearchResolver {
    const cluster: Cluster
    const order: Order
    const searchFor: GroupKind
    var maxDepth: int
    var fetches: nat

    constructor (cluster: Cluster, order: Order, searchFor: GroupKind, maxDepth: int)
      ensures this.cluster == cluster && this.order == order && this.searchFor == searchFor
      ensures this.maxDepth == maxDepth && fetches == 0
    {
      this.cluster, this.order, this.searchFor := cluster, order, searchFor;
      this.maxDepth, this.fetches := maxDepth, 0;
    }

    function Config(): Search
      reads this`maxDepth
    {
      Search(cluster, order, searchFor, maxDepth)
    }

    /** A depth of zero means the default; the empty name means that nothing was found. */
    method GetHostname(claim: Object) returns (r: Result<string, SearchError>)
      modifies this
      ensures maxDepth == if old(maxDepth) == 0 then 5 else old(maxDepth)
      ensures var f := OwnerSearch.Find(Config(), claim, 1, 0);
        && fetches == f.fetches
        && r == if Finds(f) then f.result else Err(if f.result.Ok? then NotFound else f.result.error)
    {
      fetches := 0;
      if maxDepth == 0 {
        maxDepth := DEFAULT_DEPTH;
      }
      var name := Find(claim, 1);
      if name.Err? {
        return name;
      }
      if name.value != "" {
        return name;
      }
      return Err(NotFound);
    }

    method Find(obj: Object, depth: int) returns (r: Result<string, SearchError>)
      modifies this`fetches
      ensures Found(r, fetches) == OwnerSearch.Find(Config(), obj, depth, old(fetches))
      decreases Left(Config(), depth)
    {
      var nextRefs: seq<OwnerRef> := [];
      for i := 0 to |obj.owners|
        invariant nextRefs == obj.owners[..i] && fetches == old(fetches)
        invariant forall j | 0 <= j < i :: !IsA(obj.owners[j], searchFor)
      {
        if IsA(obj.owners[i], searchFor) {
          FirstOwnerAt(obj.owners, i, searchFor);
          return Ok(obj.owners[i].name);
        }
        nextRefs := nextRefs + [obj.owners[i]];
      }
      FirstOwnerSpec(obj.owners, searchFor);
      assert nextRefs == obj.owners;
      nextRefs := order(fetches, nextRefs);
      for i := 0 to |nextRefs|
        invariant OwnerSearch.FindVia(Config(), obj, nextRefs, depth, old(fetches)) ==
                  OwnerSearch.FindVia(Config(), obj, nextRefs[i..], depth, fetches)
      {
        assert nextRefs[i..][0] == nextRefs[i] && nextRefs[i..][1..] == nextRefs[i + 1..];
        if depth >= maxDepth {
          continue;
        }
        fetches := fetches + 1;
        var owner := Owner(cluster, obj, nextRefs[i]);
        if owner.None? {
          return Err(FetchFailed);
        }
        var name := Find(owner.value, depth + 1);
        if name.Err? || name.value != "" {
          return name;
        }
      }
      return Ok("");
    }
  }

  class ChainResolver {
    const cluster: Cluster
    const chain: seq<GroupKind>

    constructor (cluster: Cluster, chain: seq<GroupKind>)
      ensures this.cluster == cluster && this.chain == chain
    {
      this.cluster, this.chain := cluster, chain;
    }

    method GetHostname(claim: Object) returns (r: Result<string, SearchError>)
      ensures r == Walk(cluster, claim, chain)
    {
      var obj := claim;
      for i := 0 to |chain|
        invariant i == 0 || i < |chain|
        invariant Walk(cluster, claim, chain) == Walk(cluster, obj, chain[i..])
      {
        assert chain[i..][0] == chain[i] && chain[i..][1..] == chain[i + 1..];
        var ref := FindOwnerReference(obj, chain[i]);
        if ref.None? {
          return Err(ChainBroken);
        }
        if i >= |chain| - 1 {
          return Ok(ref.value.name);
        }
        var next := Owner(cluster, obj, ref.value);
        if next.None? {
          return Err(FetchFailed);
        }
        obj := next.value;
      }
      return Err(NotFound);
    }
  }
}
