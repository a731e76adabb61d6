/**
  What one host sees of the store: its own record, and how a call changes it.

  Nothing here mentions other hosts. `AddressProtocol` shows that a call in the full
  store, with other hosts at work between its steps, has exactly these effects.
 */
module OwnRecord {
  import opened Outcomes
  import opened Prefixes
  import opened AddressLists
  import opened HostRecords

  /** A host is looked up by name, and by network view unless the view is left empty. */
  datatype Key = Key(name: string, view: string)

  /** `Several` stands for an ambiguous lookup. */
  datatype Own = Absent | Single(ref: Ref, rec: Record) | Several

  datatype Request = Request(key: Key, subnet: Subnet, dnsView: string, dnsZone: string)

  /** A connector call may report an error although it did, or did not, take effect. */
  datatype Fault = Fine | FailsBefore | FailsAfter

  /** What the server hands out: an address, and for a new record its reference and zone. */
  datatype Grant = Grant(pick: Address, ref: Ref, zone: string)

  datatype Error = Connector | MultipleRecords | NoMatchingAddress

  /** The server's part in one allocation. */
  datatype Answer = Answer(lookup: Fault, accepted: bool, write: Fault, grant: Grant, fetch: Fault)

  const DEFAULT_VIEW := "default"

  function ViewOf(key: Key): string {
    if key.view == "" then DEFAULT_VIEW else key.view
  }

  predicate Matches(rec: Record, key: Key) {
    rec.name == key.name && (key.view == "" || rec.networkView == key.view)
  }

  function NewRecord(req: Request, zone: string): Record {
    var dns := req.dnsZone != "";
    Record(req.key.name, ViewOf(req.key), zone, dns,
           if dns && req.dnsView != "" then Some(req.dnsView) else None, [], [])
  }

  function OwnFirst(own: Own, s: Subnet): Option<Address> {
    if own.Single? then FirstIn(own.rec.List(s.family), s) else None
  }

  /** The own record with one more address, created if there was none. */
  function Grow(own: Own, req: Request, g: Grant): Own {
    var f := req.subnet.family;
    match own
    case Absent => Single(g.ref, NewRecord(req, g.zone).With(f, [Ip(g.pick)]))
    case Single(r, rec) => Single(r, rec.With(f, rec.List(f) + [Ip(g.pick)]))
    case Several => Several
  }

  /** The own record without its first address in the subnet, deleted if none is left. */
  function Strip(own: Own, s: Subnet): Own {
    if OwnFirst(own, s).None? then own
    else
      var rec := own.rec.With(s.family, RemoveFirstIn(own.rec.List(s.family), s));
      if rec.Empty() then Absent else Single(own.ref, rec)
  }

  datatype Effect<T> = Effect(own: Own, result: Result<T, Error>)

  /** Allocation as the host sees it. */
  function OwnAllocate(own: Own, req: Request, a: Answer): Effect<Address> {
    if a.lookup != Fine then Effect(own, Err(Connector))
    else if own.Several? then Effect(own, Err(MultipleRecords))
    else if OwnFirst(own, req.subnet).Some? then Effect(own, Ok(OwnFirst(own, req.subnet).value))
    else
      Effect(if a.accepted && a.write != FailsBefore then Grow(own, req, a.grant) else own,
             if a.accepted && a.write == Fine && a.fetch == Fine then Ok(a.grant.pick) else Err(Connector))
  }

  /** Release as the host sees it. */
  function OwnRelease(own: Own, s: Subnet, lookup: Fault, write: Fault): Effect<()> {
    if lookup != Fine then Effect(own, Err(Connector))
    else if own.Several? then Effect(own, Err(MultipleRecords))
    else if OwnFirst(own, s).None? then Effect(own, Ok(()))
    else
      Effect(if write != FailsBefore then Strip(own, s) else own,
             if write == Fine then Ok(()) else Err(Connector))
  }

  /** A reported address lies in the subnet and is the one the record shows there. */
  lemma {:induction false} AllocateServes(own: Own, req: Request, a: Answer)
    requires Honest(a, req.subnet)
    ensures var e := OwnAllocate(own, req, a);
      e.result.Ok? ==> Contains(req.subnet, e.result.value) && OwnFirst(e.own, req.subnet) == Some(e.result.value)
  {
    var l := if own.Single? then own.rec.List(req.subnet.family) else [];
    FirstInSpec(l, req.subnet);
    if a.accepted && OwnFirst(own, req.subnet).None? {
      FirstInAppended(l, a.grant.pick, req.subnet);
    }
  }

  /**
    What a record is made of: a host without one gets a record that has just the granted address
    and uses DNS only with a zone; an existing record keeps everything but the list it grows at.
   */
  lemma {:induction false} AllocateSetsUp(own: Own, req: Request, a: Answer)
    requires Honest(a, req.subnet)
    ensures var e, f := OwnAllocate(own, req, a), req.subnet.family;
      e.own != own ==>
        && e.own.Single? && e.own.rec == e.own.rec.With(f, e.own.rec.List(f))
        && match own
           case Absent =>
             var rec := e.own.rec;
             && rec.name == req.key.name && rec.networkView == (if req.key.view == "" then "default" else req.key.view)
             && (rec.enableDns <==> req.dnsZone != "")
             && rec.dnsView == (if req.dnsZone != "" && req.dnsView != "" then Some(req.dnsView) else None)
             && rec.v4 == (if f.V4? then [Ip(a.grant.pick)] else [])
             && rec.v6 == (if f.V6? then [Ip(a.grant.pick)] else [])
           case Single(r, rec) =>
             e.own.ref == r && e.own.rec == rec.With(f, rec.List(f) + [Ip(a.grant.pick)])
           case Several => false
  {
  }

  /** A call succeeds exactly if the lookup is clear and no connector call it makes fails or is refused. */
  lemma {:induction false} AllocateReports(own: Own, req: Request, a: Answer)
    ensures var r := OwnAllocate(own, req, a).result;
      && (r.Ok? <==>
            (&& a.lookup == Fine && !own.Several?
             && (OwnFirst(own, req.subnet).None? ==> a.accepted && a.write == Fine && a.fetch == Fine)))
      && (r == Err(MultipleRecords) <==> a.lookup == Fine && own.Several?)
      && r != Err(NoMatchingAddress)
  {
  }

  /** How many addresses the host has in the subnet. */
  function Count(own: Own, s: Subnet): nat {
    if own.Single? then CountIn(own.rec.List(s.family), s) else 0
  }

  /** A release that reports success took one address, unless there was none; others stay. */
  lemma {:induction false} ReleaseReports(own: Own, s: Subnet, lookup: Fault, write: Fault)
    requires own.Single? ==> !own.rec.Empty()
    ensures var e := OwnRelease(own, s, lookup, write);
      && (e.result.Ok? <==> lookup == Fine && !own.Several? && (Count(own, s) > 0 ==> write == Fine))
      && (e.result == Err(MultipleRecords) <==> lookup == Fine && own.Several?)
      && (e.result.Ok? ==> Count(e.own, s) == if Count(own, s) == 0 then 0 else Count(own, s) - 1)
      && (e.own != own ==> Count(own, s) > 0 && Size(e.own) == Size(own) - 1)
  {
    if own.Single? {
      var l := own.rec.List(s.family);
      RemoveCounts(l, s);
      CountZero(l, s);
      FirstInSpec(l, s);
      if !NoneIn(l, s) {
        var k := FirstIndex(l, s);
        FirstAtDecides(l, k, s);
        assert |RemoveFirstIn(l, s)| == |l| - 1;
      }
      assert RemoveFirstIn(l, s) == [] ==> CountIn(RemoveFirstIn(l, s), s) == 0;
    }
  }

  /** An address that the record shows in one subnet lies in no subnet where it shows none. */
  lemma {:induction false} ShownElsewhere(own: Own, t: Subnet, s: Subnet)
    requires OwnFirst(own, t).Some? && OwnFirst(own, s).None?
    ensures !Contains(s, OwnFirst(own, t).value)
  {
    var l := own.rec.List(t.family);
    FirstInSpec(l, t);
    FirstInSpec(own.rec.List(s.family), s);
    var k := FirstIndex(l, t);
    FirstAtDecides(l, k, t);
  }

  /** Growing the record fills another subnet exactly if the new address lies there. */
  lemma {:induction false} GrownElsewhere(own: Own, req: Request, g: Grant, s: Subnet)
    requires !own.Several? && Contains(req.subnet, g.pick) && OwnFirst(own, s).None?
    ensures OwnFirst(Grow(own, req, g), s).None? <==> !Contains(s, g.pick)
  {
    var l := if own.Single? then own.rec.List(s.family) else [];
    var m := Grow(own, req, g).rec.List(s.family);
    FirstInSpec(l, s);
    FirstInSpec(m, s);
    if s.family == req.subnet.family {
      assert m == l + [Ip(g.pick)] && m[|l|] == Ip(g.pick);
    }
  }

  /** An allocation fills another subnet only by an address that lies in both. */
  lemma {:induction false} AllocateElsewhere(own: Own, req: Request, a: Answer, s: Subnet)
    requires Honest(a, req.subnet) && OwnAllocate(own, req, a).result.Ok? && OwnFirst(own, s).None?
    ensures var e := OwnAllocate(own, req, a);
      OwnFirst(e.own, s).None? <==> !Contains(s, e.result.value)
  {
    if OwnFirst(own, req.subnet).Some? {
      ShownElsewhere(own, req.subnet, s);
    } else {
      GrownElsewhere(own, req, a.grant, s);
    }
  }

  // ---------- invariants of the own record ----------

  predicate SoundRecord(rec: Record, pool: set<Subnet>) {
    !rec.Empty() && rec.FamilyConsistent() && Guarded(rec.v4, pool) && Guarded(rec.v6, pool)
  }

  predicate SoundOwn(own: Own, pool: set<Subnet>) {
    own.Single? ==> SoundRecord(own.rec, pool)
  }

  /** The own record with every address of the pool taken out. */
  function Clean(own: Own, pool: set<Subnet>): Own {
    if !own.Single? then own
    else
      var rec := own.rec.(v4 := Outside(own.rec.v4, pool), v6 := Outside(own.rec.v6, pool));
      if rec.Empty() then Absent else Single(own.ref, rec)
  }

  /** An accepted write grants an address of the subnet that was asked for. */
  predicate Honest(a: Answer, s: Subnet) {
    a.accepted ==> Contains(s, a.grant.pick)
  }

  lemma {:induction false} AllocateKeepsSound(own: Own, req: Request, a: Answer, pool: set<Subnet>)
    requires SoundOwn(own, pool) && req.subnet in pool && Honest(a, req.subnet)
    ensures SoundOwn(OwnAllocate(own, req, a).own, pool)
  {
    var f := req.subnet.family;
    if OwnAllocate(own, req, a).own != own {
      var l := if own.Single? then own.rec.List(f) else [];
      FirstInSpec(l, req.subnet);
      GuardedAppend(l, a.grant.pick, req.subnet, pool);
    }
  }

  lemma {:induction false} ReleaseKeepsSound(own: Own, s: Subnet, lookup: Fault, write: Fault, pool: set<Subnet>)
    requires SoundOwn(own, pool)
    ensures SoundOwn(OwnRelease(own, s, lookup, write).own, pool)
  {
    var f := s.family;
    if own.Single? && OwnFirst(own, s).Some? {
      GuardedRemoval(own.rec.List(f), s, pool);
      RemovalSubset(own.rec.List(f), s);
    }
  }

  lemma {:induction false} RemovalSubset(l: seq<Slot>, s: Subnet)
    ensures forall x | x in RemoveFirstIn(l, s) :: x in l
  {
    if l != [] {
      RemovalSubset(l[1..], s);
    }
  }

  // ---------- conservation ----------

  /** Allocating never changes what the record would be without the pool's addresses. */
  lemma {:induction false} AllocateConserves(own: Own, req: Request, a: Answer, pool: set<Subnet>)
    requires req.subnet in pool && Honest(a, req.subnet)
    ensures Clean(OwnAllocate(own, req, a).own, pool) == Clean(own, pool)
  {
    if OwnAllocate(own, req, a).own != own {
      var x := [Ip(a.grant.pick)];
      assert InAny(x[0], pool);
      assert Outside(x, pool) == [];
      if own.Single? {
        OutsideConcat(own.rec.List(req.subnet.family), x, pool);
      }
    }
  }

  /** Nor does releasing, whether it succeeds, fails, or fails after taking effect. */
  lemma {:induction false} ReleaseConserves(own: Own, s: Subnet, lookup: Fault, write: Fault, pool: set<Subnet>)
    requires s in pool
    ensures Clean(OwnRelease(own, s, lookup, write).own, pool) == Clean(own, pool)
  {
    if own.Single? {
      OutsideIgnoresRemoval(own.rec.List(s.family), s, pool);
    }
  }

  /** One release per subnet, in order, all of them taking effect. */
  function StripEach(own: Own, subs: seq<Subnet>): Own
    decreases |subs|
  {
    if subs == [] then own else StripEach(Strip(own, subs[0]), subs[1..])
  }

  lemma {:induction false} StripEachOnLists(own: Own, subs: seq<Subnet>)
    requires own.Single? ==> !own.rec.Empty() && own.rec.FamilyConsistent()
    ensures StripEach(own, subs) ==
      if !own.Single? then own
      else
        var rec := own.rec.(v4 := ReleaseEach(own.rec.v4, subs), v6 := ReleaseEach(own.rec.v6, subs));
        if rec.Empty() then Absent else Single(own.ref, rec)
    decreases |subs|
  {
    if subs != [] {
      var s := subs[0];
      StripEachOnLists(Strip(own, s), subs[1..]) by {
        if own.Single? { RemovalSubset(own.rec.List(s.family), s); }
      }
      if own.Single? {
        FirstInSpec(own.rec.v4, s);
        FirstInSpec(own.rec.v6, s);
        NothingFromNothing(subs[1..]);
      }
    }
  }

  lemma {:induction false} NothingFromNothing(subs: seq<Subnet>)
    ensures ReleaseEach([], subs) == []
    decreases |subs|
  {
    if subs != [] {
      NothingFromNothing(subs[1..]);
    }
  }

  /** A full pass over the pool leaves the record clean; subnets may overlap or repeat. */
  lemma {:induction false} FullPassCleans(own: Own, subs: seq<Subnet>, pool: set<Subnet>)
    requires SoundOwn(own, pool) && (forall s | s in subs :: s in pool) && (forall s | s in pool :: s in subs)
    ensures StripEach(own, subs) == Clean(own, pool)
  {
    StripEachOnLists(own, subs);
    if own.Single? {
      assert Doomed(own.rec.v4, subs, pool);
      assert Doomed(own.rec.v6, subs, pool);
      PassLeavesOutside(own.rec.v4, subs, pool);
      PassLeavesOutside(own.rec.v6, subs, pool);
    }
  }

  /** A clean record has no address in the pool and is gone exactly when nothing is left. */
  lemma {:induction false} CleanHasNoPoolAddress(own: Own, pool: set<Subnet>)
    requires own.Single? ==> own.rec.FamilyConsistent()
    ensures Clean(own, pool).Single? ==>
      forall a, s | a in Clean(own, pool).rec.Addresses() && s in pool :: !Contains(s, a)
    ensures own.Single? ==> (Clean(own, pool).Absent? <==>
      forall x | x in own.rec.v4 + own.rec.v6 :: InAny(x, pool))
  {
    if own.Single? {
      var v4, v6 := own.rec.v4, own.rec.v6;
      OutsideIsOutside(v4, pool);
      OutsideIsOutside(v6, pool);
      if Clean(own, pool).Single? {
        forall a, s | a in Clean(own, pool).rec.Addresses() && s in pool
          ensures !Contains(s, a)
        {
          assert !InAny(Ip(a), pool);
          assert !In(Ip(a), s);
        }
      }
      OutsideEmptyIff(v4, pool);
      OutsideEmptyIff(v6, pool);
    }
  }

  lemma {:induction false} OutsideEmptyIff(l: seq<Slot>, pool: set<Subnet>)
    ensures Outside(l, pool) == [] <==> forall x | x in l :: InAny(x, pool)
  {
    if l != [] {
      OutsideEmptyIff(l[1..], pool);
      assert l == [l[0]] + l[1..];
    }
  }

  // ---------- idempotence, failures, round trip ----------

  /** How many entries the own record holds. */
  function Size(own: Own): nat {
    if own.Single? then |own.rec.v4| + |own.rec.v6| else 0
  }

  /** The write was called for, the server accepted it, and it arrived. */
  predicate TookEffect(own: Own, req: Request, a: Answer) {
    && !own.Several? && OwnFirst(own, req.subnet).None?
    && a.lookup == Fine && a.accepted && a.write != FailsBefore
  }

  /** An allocation never takes away what the record shows in a subnet. */
  lemma {:induction false} AllocateKeepsShown(own: Own, req: Request, a: Answer, s: Subnet)
    requires OwnFirst(own, s).Some?
    ensures OwnFirst(OwnAllocate(own, req, a).own, s).Some?
  {
    var l := own.rec.List(s.family);
    var e := OwnAllocate(own, req, a).own;
    FirstInSpec(l, s);
    FirstInSpec(e.rec.List(s.family), s);
    var k := FirstIndex(l, s);
    assert e.rec.List(s.family)[k] == l[k];
  }

  /** An address that an allocation adds shows in every subnet that contains the one asked for. */
  lemma {:induction false} AllocateShows(own: Own, req: Request, a: Answer, s: Subnet)
    requires TookEffect(own, req, a) && Honest(a, req.subnet) && Within(req.subnet, s)
    ensures OwnFirst(OwnAllocate(own, req, a).own, s).Some?
  {
    if OwnFirst(own, s).Some? {
      AllocateKeepsShown(own, req, a, s);
    } else {
      GrownElsewhere(own, req, a.grant, s);
    }
  }

  /** An allocation adds one entry if its write took effect, and none otherwise. */
  lemma {:induction false} AllocateSize(own: Own, req: Request, a: Answer)
    ensures Size(OwnAllocate(own, req, a).own) == Size(own) + (if TookEffect(own, req, a) then 1 else 0)
  {
  }

  /** An allocation that reports an error has added the address all the same exactly then. */
  lemma {:induction false} FailedAllocateTookEffectIff(own: Own, req: Request, a: Answer)
    ensures OwnAllocate(own, req, a).result.Err? && OwnAllocate(own, req, a).own != own <==>
      TookEffect(own, req, a) && (a.write == FailsAfter || a.fetch != Fine)
  {
    AllocateSize(own, req, a);
  }

  /** Releasing is idempotent exactly when the record held at most one address in the subnet. */
  lemma {:induction false} ReleaseIdempotentIff(own: Own, s: Subnet)
    requires !own.Several?
    ensures var once := OwnRelease(own, s, Fine, Fine).own;
      OwnRelease(once, s, Fine, Fine) == Effect(once, Ok(())) <==>
        (own.Single? ==> CountIn(own.rec.List(s.family), s) <= 1)
  {
    if own.Single? {
      var l := own.rec.List(s.family);
      var m := RemoveFirstIn(l, s);
      ReleaseClearsIffAtMostOne(l, s);
      FirstInSpec(l, s);
      FirstInSpec(m, s);
      CountZero(l, s);
      if !NoneIn(m, s) {
        var k := FirstIndex(m, s);
        FirstAtDecides(m, k, s);
        assert |RemoveFirstIn(m, s)| == |m| - 1;
      }
    }
  }

  /**
    Releasing what was just allocated restores the record, its order, or its absence,
    unless the record was there without any address: then the release deletes it.
   */
  lemma {:induction false} RoundTrip(own: Own, req: Request, a: Answer)
    requires Honest(a, req.subnet) && OwnFirst(own, req.subnet).None?
    requires OwnAllocate(own, req, a).result.Ok?
    ensures OwnRelease(OwnAllocate(own, req, a).own, req.subnet, Fine, Fine) == Effect(own, Ok(()))
      <==> !(own.Single? && own.rec.Empty())
  {
    var l := if own.Single? then own.rec.List(req.subnet.family) else [];
    FirstInSpec(l, req.subnet);
    FirstInAppended(l, a.grant.pick, req.subnet);
  }

  /** A retry finds the address a first attempt left behind, even if that attempt failed. */
  lemma {:induction false} RetryFindsAddress(own: Own, req: Request, a: Answer, b: Answer)
    requires Honest(a, req.subnet) && b.lookup == Fine
    requires OwnAllocate(own, req, a).own != own || OwnAllocate(own, req, a).result.Ok?
    ensures var first := OwnAllocate(own, req, a);
      var second := OwnAllocate(first.own, req, b);
      second.own == first.own && second.result.Ok?
      && (first.result.Ok? ==> second.result == first.result)
  {
    var l := if own.Single? then own.rec.List(req.subnet.family) else [];
    FirstInSpec(l, req.subnet);
    if OwnFirst(own, req.subnet).None? && Contains(req.subnet, a.grant.pick) {
      FirstInAppended(l, a.grant.pick, req.subnet);
    }
  }
}
