# Verification of the Infoblox IPAM provider

A Dafny 4.11 model of the parts of the provider where mistakes are expensive: allocating and
releasing addresses in a shared Infoblox store, finding a claim's hostname in the owner graph,
and keeping a pool alive while claims refer to it. `dafny verify dfyconfig.toml` checks it all.

## What is modelled

**The store and its environment** (`RecordStore`, `WapiServer`). A store maps references to host
records. The environment is a script, one move per connector call: what other hosts do to the
store just before the call, whether the call reports an error before or after its effect, and
what the server would hand out. Every theorem holds for every script. The assumptions are:

- A lookup by name (and network view, unless empty) returns exactly the matching records.
- Create, update and delete are atomic. A placeholder is answered with an address of its subnet
  that no record of the view holds, or the write fails without effect; one that names no view is
  answered in the record's own. List order is kept. An update that carries a zone, a network
  view, a host or an absent list is refused.
- A fetch by reference returns the stored record. References are stable and never empty.
- Listed claims carry their API version and a fetched pool its kind, as the cache of the controller
  runtime sets them. The code drops a claim without the IPAM group in its API version.
- Other hosts leave the record of the host at work alone (one worker,
  `internal/controllers/ipaddressclaim.go:81-84`) and keep a sound store sound; apart from that
  they may do anything between any two calls. The provider's own calls for a host of another name
  are such steps (`HostsAreAdmissibleToEachOther`), so what is shown of one claim among others holds
  of many claims that are served.

**The record edits** (`HostRecords`, `AddressLists`, `InfobloxClient`). The client fetches a
record object, appends a placeholder or splices an address out in place, prepares it, writes it
and fetches it again. The loops are proved to scan for the first contained address and to remove
just that one. The two operations are proved equal to short sequences of atomic store steps
(`AddressProtocol`), and these, projected to the host's own record, to a function that does not
mention other hosts at all (`OwnRecord`). That projection is the non-interference result, and
conservation, round trip, idempotence and retry are proved on it.

**The claim handler** (`ClaimHandler`, `ClaimLifecycle`, `ClaimRetry`, `ClaimGrowth`,
`ClaimAtMostOne`, `ClaimRuns`, `ClaimHostname`). First fit over the pool's subnets, release over
all of them, and the hostname pinned in an annotation. What is said of availability (`ClaimRetry`) assumes a fair server, one
that refuses a write only if the subnet asked for is used up.

The lifecycle theorem rests on a conserved quantity: the own record with the pool's addresses
taken out. No call of the claim changes it, whatever fails, and a release pass without failed
calls leaves exactly it. The subnets need not be disjoint; what is needed is that every pool
address of the record is the first one of its list in some subnet of the pool (`Guarded`), which
allocation and release keep, and which for disjoint subnets means at most one address per subnet.

**The owner search** (`OwnerGraph`, `OwnerSearch`, `HostnameResolver`, `MachineHostname`). The
depth-bounded search on an arbitrary, possibly cyclic graph, with the sort an arbitrary
permutation at every visit, and the walk along a fixed chain of kinds. A search that reports no
error gives the answer it would give if everything could be read.

**The pool** (`PoolIndex`, `PoolReconciler`, `PoolWebhook`, `Pools`, `Prefixes`). The claim index
against a linear scan, the finalizer protocol over runs, admission, and prefix arithmetic.

## What the code does not guarantee

Each of these is stated as an exact condition or with an input that shows it.

- One allocation attempt may leave the host with several new addresses: a call that reports an
  error may have added its address (`FailedAllocateTookEffectIff`), and the handler goes on to the
  next subnet. No environment makes an attempt add more than one exactly when, of the subnets in
  which the host's record shows no address before the attempt, each lies within all that follow it
  (`AddsAtMostOneEverywhereIff`; `WithinIffBaseInside` decides "lies within" from the two prefixes).
  So two disjoint subnets without an address are enough for two (`AttemptLeavesTwo`). How many one
  attempt adds is counted by `AttemptAdds`. The project's README (line 86) speaks of the first
  subnet with available addresses only. That holds undisturbed (`FirstAvailable`).
- A repeated allocation moves if by then an earlier subnet has an address for the host
  (`RetryStableIff`); `RetryMoves` exhibits it, another host giving an address back in between.
- One release clears a subnet, and is idempotent, only if the record held at most one address
  there (`ReleaseClearsIffAtMostOne`, `ReleaseIdempotentIff`). `pkg/infoblox/client.go:27`
  promises idempotence without that condition.
- The round trip deletes a record that was there without any address (`RoundTrip`).
- The claim index compares kind and name run together. It finds the claims with the pool's kind
  and name iff no kind extends another by something that a legal object name can begin with
  (`IndexExactIffUnambiguous`). It also ignores the API group of the pool reference, which
  `pkg/predicates/references.go:19` compares: with unambiguous kinds it finds exactly the claims
  that refer to the pool iff no claim of the namespace carries the pool's kind and name with
  another group (`IndexExactIffSameGroup`). Such a claim keeps a deleted pool alive that no claim
  refers to (`LetsGoIffUnused`, `OtherGroupBlocks`). The index never misses a claim, so it errs on
  the safe side.
- Admission panics on a CIDR that does not parse (`Validate`) and admits overlapping subnets
  (`OverlapIsAdmitted`).
- The handler's release reports no client error (`Handler.ReleaseAddress`).

## Model

| member | source | states |
|---|---|---|
| Prefixes.CanonicalIsAlignedInterval | internal/webhooks/infobloxippool.go:141-146 | a CIDR that equals its printed network contains exactly the 2^(32 - bits) IPv4 or 2^(128 - bits) IPv6 addresses from its aligned base on |
| Prefixes.ContainsIffOneBlock | pkg/infoblox/addresses.go:88 | any prefix, canonical or not, contains the addresses in one aligned block with its base, of 2^(32 - bits) IPv4 or 2^(128 - bits) IPv6 addresses |
| Prefixes.CanonicalIff | internal/webhooks/infobloxippool.go:141-146 | a CIDR prints back iff its length fits 32 or 128 bits and its base begins an aligned block of that size |
| Prefixes.NestedOrDisjoint | pkg/infoblox/addresses.go:88 | any two prefixes are nested or disjoint |
| Prefixes.DisjointIffBasesOutside | pkg/infoblox/addresses.go:176 | two prefixes are disjoint iff neither contains the other's base address |
| Prefixes.WithinIffBaseInside | pkg/infoblox/addresses.go:88 | a prefix lies within another iff it is at least as long and the other contains its base address |
| AddressLists.FirstAtDecides | pkg/infoblox/addresses.go:156-168 | stopping at the first contained entry is "first contained address" and splicing there is "remove the first, keep the rest in order" |
| AddressLists.ReleaseClearsIffAtMostOne | pkg/infoblox/addresses.go:154-168 | one release leaves no address of the subnet iff there was at most one |
| AddressLists.GuardedMeansAtMostOne | pkg/infoblox/addresses.go:119-134 | the allocation invariant means at most one address per subnet that is disjoint from the others |
| AddressLists.AtMostOneIsGuarded | pkg/infoblox/addresses.go:119-134 | any list with at most one address per subnet satisfies that invariant |
| AddressLists.PassLeavesOutside | internal/controllers/ipaddressclaim.go:222-242 | one release per subnet, in order, leaves exactly the entries outside the pool, also for overlapping subnets |
| HostRecords.HostRecord.AllocatedAddrInSubnet | pkg/infoblox/addresses.go:78-108 | returns the first address of the subnet's family list that the subnet contains, skipping nil and unparsable entries |
| HostRecords.HostRecord.AppendNextAvailable | pkg/infoblox/addresses.go:124-130 | appends one placeholder, for the subnet and the network view, to the list of the subnet's family and changes nothing else |
| HostRecords.HostRecord.RemoveFirst | pkg/infoblox/addresses.go:154-183 | splices out the first contained entry, reports whether there was one, and changes nothing else |
| HostRecords.SpliceRemovesFirst | pkg/infoblox/addresses.go:163 | the spliced list shows the old addresses without the first contained one, in order |
| HostRecords.HostRecord.PrepareForUpdate | pkg/infoblox/addresses.go:212-230 | clears zone, network view and every host, turns absent lists into empty ones |
| HostRecords.PreparedIsUpdatable | pkg/infoblox/addresses.go:212-230 | preparing makes any object acceptable to the server, is idempotent, and keeps identity, addresses and order |
| HostRecords.OneListIsEnough | pkg/infoblox/addresses.go:79-107 | on family-consistent records scanning one family's list finds what scanning both would |
| OwnRecord.AllocateServes | pkg/infoblox/addresses.go:113-141 | a reported address lies in the subnet and is the one the record now shows there |
| OwnRecord.AllocateElsewhere | pkg/infoblox/addresses.go:113-141 | an allocation fills another subnet only by an address that lies in both |
| OwnRecord.AllocateSetsUp | pkg/infoblox/addresses.go:36-46 | a new record has just the granted address, the host's name, its network view or "default", DNS iff there is a zone, and then the DNS view; an existing record keeps everything but one more address at the end of one list |
| OwnRecord.AllocateReports | pkg/infoblox/addresses.go:113-141 | a call succeeds iff the lookup is clear and no connector call it makes fails or is refused; several records are an error of their own |
| OwnRecord.ReleaseReports | pkg/infoblox/addresses.go:148-203 | a reported release took exactly one address of the subnet, or there was none; it succeeds iff the lookup is clear and the write, if one is due, does not fail |
| OwnRecord.AllocateKeepsSound | pkg/infoblox/addresses.go:119-134 | allocating keeps the record non-empty, family-consistent and guarded, whatever fails |
| OwnRecord.ReleaseKeepsSound | pkg/infoblox/addresses.go:154-202 | so does releasing: no record is left without addresses |
| OwnRecord.AllocateConserves | pkg/infoblox/addresses.go:113-141 | allocating never changes what the record holds outside the pool |
| OwnRecord.ReleaseConserves | pkg/infoblox/addresses.go:148-203 | nor does releasing, whether it succeeds, fails, or fails after taking effect |
| OwnRecord.FullPassCleans | internal/controllers/ipaddressclaim.go:222-242 | a pass over all pool subnets leaves the record without pool addresses, or deletes it if nothing else is left |
| OwnRecord.CleanHasNoPoolAddress | internal/controllers/ipaddressclaim.go:222-242 | a clean record has no address in any pool subnet, and is absent iff every entry lay in the pool |
| OwnRecord.RetryFindsAddress | pkg/infoblox/addresses.go:119-122 | a retry returns the address an earlier attempt left, even a failed one, and adds none |
| OwnRecord.ReleaseIdempotentIff | pkg/infoblox/client.go:27-32 | a second release changes nothing iff there was at most one address in the subnet |
| OwnRecord.RoundTrip | pkg/infoblox/addresses.go:113-203 | allocate then release restores the record, its order or its absence iff it was not there without addresses |
| RecordStore.NeverAmbiguous | pkg/infoblox/addresses.go:48-51 | with unique keys and a network view the lookup never finds several records |
| RecordStore.LookupFinds | pkg/infoblox/addresses.go:21-52 | the lookup finds the records of the name, in the network view or in any if none is given, and several are ambiguous |
| RecordStore.SoundThroughout | pkg/infoblox/addresses.go:21-76 | every state that lawful steps pass through from a sound start is sound |
| RecordStore.LawfulStepIsAdmissible | internal/controllers/ipaddressclaim.go:81-84 | a step that leaves the records of all other hosts alone is one that a host of another name may meet at any time |
| AddressProtocol.AllocateAsSeen | pkg/infoblox/addresses.go:113-141 | projection: with others acting between lookup, write and fetch, result and own record are those of the call alone |
| AddressProtocol.ReleaseAsSeen | pkg/infoblox/addresses.go:148-203 | the same for a release |
| AddressProtocol.NewRecordSetUp | pkg/infoblox/addresses.go:36-46 | a host without a record that is given an address, whoever acts meanwhile, has a record with just that address, set up for DNS as zone and view say |
| AddressProtocol.NonInterference | pkg/infoblox/addresses.go:57-75 | two runs of a call that differ only in what others do have the same result and the same effect on the own record |
| AddressProtocol.AllocateIsLawful | pkg/infoblox/addresses.go:113-141 | each atomic step of an allocation leaves all other records unchanged and keeps a sound store sound |
| AddressProtocol.ReleaseIsLawful | pkg/infoblox/addresses.go:148-203 | each atomic step of a release leaves all other records unchanged and keeps a sound store sound |
| AddressProtocol.RunKeepsStoreSound | pkg/infoblox/addresses.go:113-203 | over any run of calls with any failures and interference: one record per name and view, no address held twice in a view, no empty record, at most one address per record and disjoint subnet, other records untouched |
| AddressProtocol.HostsAreAdmissibleToEachOther | internal/controllers/ipaddressclaim.go:81-84 | each step of any run of one host's calls is admissible interference for every host of another name |
| AddressProtocol.CallIsAdmissible | internal/controllers/ipaddressclaim.go:81-84 | and so is a whole call during which nobody else acts |
| AddressProtocol.NoAddressForTwoHosts | pkg/infoblox/addresses.go:124-134 | after any such run an address of a view is held by two hosts only if they have one name |
| AddressProtocol.StoreRoundTrip | pkg/infoblox/addresses.go:113-203 | allocate then release gives the host its record back whoever acts meanwhile, and undisturbed the whole store |
| InfobloxClient.UpdateStrips | pkg/infoblox/addresses.go:163-202 | the prepared object without its first contained entry makes the server store the record without that address |
| InfobloxClient.AskingWrites | pkg/infoblox/addresses.go:124-134 | sending the object with its placeholder makes the server store the own record with one more, free address |
| InfobloxClient.FetchShowsGrant | pkg/infoblox/addresses.go:136-139 | the object fetched after a successful write always contains a matching address, so the last error cannot occur |
| InfobloxClient.Client.GetOrNewHostRecord | pkg/infoblox/addresses.go:21-52 | the record if there is one; a new object with name, network view, DNS iff there is a zone, and then the DNS view, if there is none; an error if there are several or the lookup fails |
| InfobloxClient.Client.CreateOrUpdateHostRecord | pkg/infoblox/addresses.go:55-76 | creates or prepares and updates, then overwrites the object with what the server stored |
| InfobloxClient.Client.GetOrAllocateAddress | pkg/infoblox/addresses.go:113-141 | equals the protocol: same steps on the store, same result |
| InfobloxClient.Client.ReleaseAddress | pkg/infoblox/addresses.go:148-203 | equals the protocol: same steps on the store, same result |
| ClaimLifecycle.FirstFit | internal/controllers/ipaddressclaim.go:162-204 | the first subnet that parses and is served is taken; otherwise the errors are just those of all that parse, in the order of the pool, and none iff nothing parses |
| ClaimLifecycle.EnsureConserves | internal/controllers/ipaddressclaim.go:162-189 | an attempt over all subnets conserves what the record holds outside the pool and keeps it guarded |
| ClaimLifecycle.NewHostSetUp | internal/controllers/ipaddressclaim.go:162-176 | however many subnets were tried in vain, a host without a record gets one that uses DNS iff the pool has a zone, and in the target's view |
| ClaimLifecycle.EnsureKeepsOthers | internal/controllers/ipaddressclaim.go:162-189 | if nobody else acts, an attempt leaves all other records as they were, whatever fails |
| ClaimLifecycle.PassAsSeen | internal/controllers/ipaddressclaim.go:222-242 | a release pass strips exactly the subnets whose release took effect, all that reported success among them |
| ClaimLifecycle.PartialRelease | internal/controllers/ipaddressclaim.go:222-244 | whichever client calls fail, every other subnet ends without an address of the host, and the record is gone iff nothing remains |
| ClaimLifecycle.FullRelease | internal/controllers/ipaddressclaim.go:208-245 | without failed calls the record keeps exactly what lies outside the pool |
| ClaimRetry.UnservedIff | internal/controllers/ipaddressclaim.go:163-176 | undisturbed and with a fair server, a subnet is passed over iff it does not parse, or the host has no address there and none is free |
| ClaimRetry.FirstAvailable | internal/controllers/ipaddressclaim.go:162-204 | then the address comes from the first subnet with an available address, and the attempt fails, without effect, iff there is none |
| ClaimRetry.RetryStableIff | internal/controllers/ipaddressclaim.go:162-189 | whatever happened in the first attempt and whatever other hosts did since, an undisturbed second attempt gives the same address, subnet and store iff no earlier subnet has an address for the host |
| ClaimRetry.RetryStableAfterCleanSuccessIff | internal/controllers/ipaddressclaim.go:162-189 | after an undisturbed first attempt: iff each earlier subnet that parses does not contain the address and is used up by now |
| ClaimRetry.RetryMoves | internal/controllers/ipaddressclaim.go:162-189 | an input where the retry moves: another host gives its address in the first subnet back between the attempts |
| ClaimRetry.RetryStableWhenExhausted | internal/controllers/ipaddressclaim.go:162-189 | a second attempt right after is stable if every earlier subnet was used up before the first |
| ClaimGrowth.AttemptAdds | internal/controllers/ipaddressclaim.go:162-189 | for every environment an attempt adds one address per tried subnet whose call reported an error although its write took effect, and one more if the success had to allocate |
| ClaimAtMostOne.AddsAtMostOneEverywhereIff | internal/controllers/ipaddressclaim.go:162-189 | every environment makes an attempt add at most one address iff, of the subnets in which the record shows none before the attempt, each lies within all that follow it |
| ClaimAtMostOne.AddsTwo | internal/controllers/ipaddressclaim.go:172-176 | otherwise: for an address of the one subnet outside the later one, and any address of the later one, an environment in which the attempt succeeds and adds just these two |
| ClaimGrowth.AttemptLeavesTwo | internal/controllers/ipaddressclaim.go:172-176 | an input where it adds two: disjoint subnets, the first write failing after its effect |
| ClaimRuns.HostnameIsStable | internal/controllers/ipaddressclaim.go:260-280 | over any allocations and releases, each with its own pool, zone and resolved name, a set annotation never changes and every call uses it as hostname |
| ClaimRuns.FirstEnsurePins | internal/controllers/ipaddressclaim.go:255-280 | from the first allocation that finds a hostname on, every later allocation or release uses that one |
| ClaimRuns.UnpinnedMeansUntouched | internal/controllers/ipaddressclaim.go:255-273 | while the annotation is not set, no attempt or release has touched the store |
| ClaimRuns.Lifecycle | internal/controllers/ipaddressclaim.go:150-245 | any attempts and releases in any order, with any failures and interference, then a release without failed calls: the host keeps exactly what it had outside the pool, or no record, and our steps changed no other record |
| ClaimHostname.SuffixFailsIff | internal/controllers/ipaddressclaim.go:267-300 | the suffix check fails iff an annotation was there before and lacks the zone |
| ClaimHostname.PinnedHostname | internal/controllers/ipaddressclaim.go:275-280 | a hostname once found is found again from the annotation, whatever the owners or the zone become |
| ClaimHostname.HasSuffixIff | internal/controllers/ipaddressclaim.go:268-270 | the check holds iff the hostname is something followed by the zone |
| ClaimHostname.HostnamesDiffer | internal/controllers/ipaddressclaim.go:275-300 | new claims in one zone get one hostname iff their resolved names are equal, and without a zone iff their own names are |
| ClaimHandler.Handler.EnsureHostname | internal/controllers/ipaddressclaim.go:254-273 | an annotation is kept; else the claim's own name without a zone, or the resolved name, a dot and the zone, is pinned before the suffix is checked; fails without effect if there is no hostname |
| ClaimHandler.Handler.EnsureAddress | internal/controllers/ipaddressclaim.go:150-205 | on success address, prefix and gateway of one subnet and Ready true, and a new record in the DNS view of the pool, else of the instance, else derived from the network view; on failure the spec untouched, Ready false, the joined errors |
| ClaimHandler.Handler.ReleaseAddress | internal/controllers/ipaddressclaim.go:208-245 | releases every parsed subnet, logs the failing ones and returns no error for them |
| OwnerGraph.GroupOfIff | internal/hostname/resolver.go:133-140 | an API version is in a named group iff it reads group, one slash, version |
| OwnerGraph.IsAIff | internal/hostname/resolver.go:81 | an owner matches iff its kind is the one searched and its API version reads the group, one slash, a version |
| OwnerGraph.FirstOwnerSpec | internal/hostname/resolver.go:124-131 | the first owner of a group and kind is an owner of that kind, and is missing iff there is none |
| OwnerSearch.FindSound | internal/hostname/resolver.go:78-121 | a found name ends a path of at most the remaining depth through objects without a match |
| OwnerSearch.FindComplete | internal/hostname/resolver.go:78-121 | if all visited owners can be fetched, such a path is found, cycles or not |
| OwnerSearch.SearchCorrect | internal/hostname/resolver.go:63-121 | the search finds a name iff a path of at most MaxDepth references ends in the kind, and it is the name of one |
| OwnerSearch.SearchSound | internal/hostname/resolver.go:63-121 | even with failing fetches a found name is that of a reachable match |
| OwnerSearch.CandidatesInTurn | internal/hostname/resolver.go:105-119 | candidates are followed in turn, and the first that yields a name or an error decides |
| OwnerSearch.FailsAtFirstUnreadable | internal/hostname/resolver.go:113-115 | if the candidates before it yield nothing, an owner that cannot be fetched makes the search report that error |
| OwnerSearch.AnswerIgnoresUnreadable | internal/hostname/resolver.go:78-121 | an answer without an error is the one that any cluster showing more gives, with the same fetches |
| OwnerSearch.ErrorMeansUnreadable | internal/hostname/resolver.go:113-118 | the only error of a search is a failed fetch, and it means that an owner within reach cannot be read |
| OwnerSearch.OrderIsOnlyHeuristic | internal/hostname/resolver.go:88-119 | any two sort orders find a name in the same cases |
| OwnerSearch.FetchBound | internal/hostname/resolver.go:105-119 | from any depth on, at most b + b^2 + ... + b^k fetches with k levels left and at most b owners per object |
| OwnerSearch.SearchFetches | internal/hostname/resolver.go:105-119 | a whole search makes at most b + b^2 + ... + b^(MaxDepth - 1) fetches |
| OwnerSearch.FetchBoundIsTight | internal/hostname/resolver.go:105-119 | the bound is attained: there is no visited set |
| OwnerSearch.WalkFollows | internal/hostname/resolver.go:31-52 | the walk takes the first owner of each kind in turn; it ends with the last one's name, at an object without an owner of the next kind, or at an owner that cannot be fetched, and says which |
| OwnerSearch.WalkIsPath | internal/hostname/resolver.go:31-52 | a successful walk follows an owner path of the chain's length, each owner being of the kind of its step, and returns the last name |
| OwnerSearch.SearchAgreesWithChain | internal/hostname/resolver.go:31-121 | where a chain within reach succeeds the search does, with the same name if all matches carry one name |
| HostnameResolver.FindOwnerReference | internal/hostname/resolver.go:124-131 | returns the first owner of the group and kind |
| HostnameResolver.SearchResolver.GetHostname | internal/hostname/resolver.go:63-76 | depth zero means five; the search's name, its error, or not found |
| HostnameResolver.SearchResolver.Find | internal/hostname/resolver.go:78-121 | collects, sorts and follows candidates as the search function does, with the same fetches |
| HostnameResolver.ChainResolver.GetHostname | internal/hostname/resolver.go:31-52 | computes the walk |
| MachineHostname.ResolveHostname | internal/controllers/ipaddressclaim.go:303-309 | the search for a machine of the cluster API, at most five references away |
| MachineHostname.HostnameIsOfMachine | internal/controllers/ipaddressclaim.go:286-298 | whatever can be read, the hostname of a new claim in a zone is the name of a machine at most five owner references away, a dot and the zone |
| MachineHostname.HostnameIffMachine | internal/controllers/ipaddressclaim.go:286-298 | if all owners within reach can be read, there is a hostname iff there is such a machine |
| PoolIndex.ListClaimsReferencingPool | internal/poolutil/pool.go:51-68 | the indexed claims of the namespace that belong to the IPAM group, in order |
| PoolIndex.LookupMembers | internal/poolutil/pool.go:51-68 | a claim is found iff its namespace is the one asked for, its kind and name run together are those of the pool, and its API version is of the group ipam.cluster.x-k8s.io |
| PoolIndex.NeverMisses | internal/index/index.go:62-73 | a claim with the pool's kind and name is never missed |
| PoolIndex.LegalNameIff | config/crd/test/ipam.cluster.x-k8s.io_ipaddressclaims.yaml:434-441 | the names considered are those of at most 253 characters that are dot-separated labels of lower-case alphanumerics and inner dashes |
| PoolIndex.BeginsNameIff | config/crd/test/ipam.cluster.x-k8s.io_ipaddressclaims.yaml:434-441 | a text followed by some legal name is a legal name iff it is one when followed by a letter |
| PoolIndex.KeyDetermines | internal/index/index.go:70-73 | for such kinds and legal names the key determines kind and name |
| PoolIndex.ExtensionCollides | internal/index/index.go:70-73 | in any namespace, a kind that extends another by the beginning of a name gives two pools with legal names one key, so a claim of the one is listed for the other |
| PoolIndex.IndexExactIffUnambiguous | internal/index/index.go:70-73 | in any namespace the index agrees with a linear scan for kind and name, on all storable claims and pools, iff no kind extends another by something a legal name begins with |
| PoolIndex.PrefixFreeIsExact | internal/index/index.go:70-73 | in particular they agree if no kind is a proper prefix of another |
| PoolIndex.IndexExactIffSameGroup | internal/index/index.go:62-73 | with unambiguous kinds the index agrees with a linear scan for the whole reference iff every claim of the namespace with the pool's kind and name carries its group |
| PoolIndex.OtherGroupIsListed | internal/index/index.go:70-73 | a claim that carries another group is listed although it refers to another pool |
| PoolReconciler.Reconciler.Reconcile | internal/controllers/infobloxippool.go:68-122 | adds the finalizer, checks a live pool, or lets a deleted unused pool go; a failing get, list or patch is reported and changes nothing; a deleted pool in use is an error |
| PoolReconciler.Check | internal/controllers/infobloxippool.go:124-194 | Ready without an error iff the client, the network view, the DNS view (of the pool, else of the instance, else derived) and the network of every subnet are there |
| PoolReconciler.LivePoolIsProtected | internal/controllers/infobloxippool.go:92-96 | a live pool that a reconcile meets has the ProtectPool finalizer after it, beside all its others |
| PoolReconciler.LivePoolIsChecked | internal/controllers/infobloxippool.go:124-194 | a protected live pool gets the default network view if it has none, and becomes Ready iff everything is there; else the reason tells the first thing that is not; a CIDR that does not parse is an error that leaves the condition |
| PoolReconciler.ReconcileKeepsOthers | internal/controllers/infobloxippool.go:68-122 | the finalizers of others, the claims and the rest of the pool stay as they are |
| PoolReconciler.ProtectionEndsOnlySafely | internal/controllers/infobloxippool.go:99-119 | the finalizer leaves only in a reconcile that finds the pool deleted and no claim with its kind and name, hence none referring to it |
| PoolReconciler.PoolDeletionIsSafe | internal/controllers/infobloxippool.go:92-119 | so in every run, whatever claims come and go and whatever fails |
| PoolReconciler.MetAliveMeansSafe | internal/controllers/infobloxippool.go:92-119 | once a reconcile whose calls succeed has met the pool alive, in every run the pool stays protected until a reconcile lets it go |
| PoolReconciler.LetsGoIffUnused | internal/controllers/infobloxippool.go:112-118 | with unambiguous kinds a reconcile whose calls succeed keeps a deleted pool iff a claim carries its kind and name; that is iff a claim refers to it, unless the only such claims carry another group |
| PoolReconciler.LetGoIsGoneIff | internal/controllers/infobloxippool.go:112-116 | a pool that is let go is gone at once iff no other finalizer holds it |
| PoolReconciler.OtherGroupBlocks | internal/controllers/infobloxippool.go:100-119 | a claim that carries another group keeps a deleted pool that no claim refers to, and the reconcile reports an error |
| PoolWebhook.Validate | internal/webhooks/infobloxippool.go:124-169 | panics iff a CIDR does not parse, accepts iff every field is valid, and otherwise lists exactly the faults |
| PoolWebhook.AdmittedSubnets | internal/webhooks/infobloxippool.go:141-146 | the subnets of an admitted pool are aligned intervals, pairwise nested or disjoint |
| PoolWebhook.OverlapIsAdmitted | internal/webhooks/infobloxippool.go:141-166 | any prefix may be admitted beside half of itself |

## Left out

- The Infoblox Go client, HTTP, TLS and JSON: replaced by the server contract above. Entry attributes other than address and host are not modelled.
- Error texts and the parsing of WAPI errors: errors are kinds, not messages.
- The parsers of `net` and `netip`: CIDRs, gateways and addresses enter as parsed values. Zoned addresses count as malformed; IPv4-mapped IPv6 CIDRs are not distinguished in admission.
- Credentials, instances and InfobloxInstance reconciliation: checks without state of interest.
- FetchPool and the pool-not-ready condition on a claim: the handler is modelled from the point where pool and client are there.
- ListAddressesInUse and the deletion webhook: the same index and filter on addresses.
- The claim reconciler, pausing and patching of claims: outside the repository. The annotation is taken as persisted and the handler as called sequentially.
- Stale caches: a pool reconcile reads and patches in one atomic step.
- Patches stored in part: a failing patch of a pool changes nothing in the model, while the patch helper may store one part of the object and fail on another.
- Changes of the owner graph during one search: the graph is fixed while a search lasts.
- Logging, generated code, mocks, manifests, event predicates and setup: wiring.
- ClaimRuns.Lifecycle: the pool is fixed over the life of the claim, a release comes only once the hostname is pinned, and a record that the host had before must be guarded, because the client removes only the first address of a subnet.
