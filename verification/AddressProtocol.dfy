/**
  The two client operations as sequences of atomic steps on the shared store, and what
  holds of them for every environment.
 */
module AddressProtocol {
  import opened Outcomes
  import opened Prefixes
  import opened AddressLists
  import opened OwnRecord
  import opened RecordStore

  datatype Outcome<T> = Outcome(world: World, result: Result<T, Error>)

  function OwnView(own: Own, key: Key): string {
    if own.Single? then own.rec.networkView else ViewOf(key)
  }

  /** When the server can carry out a write that asks for one address of the subnet. */
  predicate Acceptable(store: Store, own: Own, req: Request, g: Grant) {
    && Contains(req.subnet, g.pick)
    && !Held(store, OwnView(own, req.key), g.pick)
    && (own.Absent? ==> g.ref != "" && g.ref !in store)
  }

  /** Look up; if the subnet is not served yet, write the record with one more address; fetch. */
  ghost function Allocate(env: Env, w: World, req: Request): Outcome<Address> {
    var w1 := Pass(env, w, req.key);
    var own := OwnOf(w1.store, req.key);
    if FaultAt(env, w) != Fine then Outcome(w1, Err(Connector))
    else if own.Several? then Outcome(w1, Err(MultipleRecords))
    else if OwnFirst(own, req.subnet).Some? then Outcome(w1, Ok(OwnFirst(own, req.subnet).value))
    else
      var w2 := AskForAddress(env, w1, req, own);
      if FaultAt(env, w1) != Fine || !Acceptable(Interfered(env, w1, req.key), own, req, env.moves(w1.clock).grant)
      then Outcome(w2, Err(Connector))
      else
        Outcome(Pass(env, w2, req.key),
                if FaultAt(env, w2) == Fine then Ok(env.moves(w1.clock).grant.pick) else Err(Connector))
  }

  /** The writing step of an allocation. */
  function AskForAddress(env: Env, w: World, req: Request, own: Own): World {
    var mid, g := Interfered(env, w, req.key), env.moves(w.clock).grant;
    Step(env, w, req.key,
         if Acceptable(mid, own, req, g) && FaultAt(env, w) != FailsBefore
         then Install(mid, own, Grow(own, req, g)) else mid)
  }

  /** Look up; if the subnet is served, delete the record or write it without that address. */
  ghost function Release(env: Env, w: World, key: Key, s: Subnet): Outcome<()> {
    var w1 := Pass(env, w, key);
    var own := OwnOf(w1.store, key);
    if FaultAt(env, w) != Fine then Outcome(w1, Err(Connector))
    else if own.Several? then Outcome(w1, Err(MultipleRecords))
    else if OwnFirst(own, s).None? then Outcome(w1, Ok(()))
    else
      Outcome(GiveBack(env, w1, key, s, own),
              if FaultAt(env, w1) == Fine then Ok(()) else Err(Connector))
  }

  /** The writing step of a release. */
  function GiveBack(env: Env, w: World, key: Key, s: Subnet, own: Own): World {
    var mid := Interfered(env, w, key);
    Step(env, w, key,
         if FaultAt(env, w) != FailsBefore then Install(mid, own, Strip(own, s)) else mid)
  }

  // ---------- each step ----------

  lemma {:induction false} GrowTakesFreeAddress(store: Store, req: Request, own: Own, g: Grant)
    requires !own.Several? && Acceptable(store, own, req, g)
    ensures var next := Grow(own, req, g);
      && next.rec.networkView == OwnView(own, req.key)
      && forall a | a in next.rec.Addresses() ::
           (own.Single? && a in own.rec.Addresses()) || !Held(store, next.rec.networkView, a)
  {
    hide Held, Contains;
    var next := Grow(own, req, g);
    forall a | a in next.rec.Addresses()
      ensures (own.Single? && a in own.rec.Addresses()) || a == g.pick
    {
      assert Ip(a) in next.rec.v4 || Ip(a) in next.rec.v6;
    }
  }

  lemma {:induction false} GrowKeepsSound(store: Store, req: Request, own: Own, g: Grant, pool: set<Subnet>)
    requires own == OwnOf(store, req.key) && Acceptable(store, own, req, g) && OwnFirst(own, req.subnet).None?
    requires Fits(store, req.key, own, Grow(own, req, g)) && Sound(store, pool) && req.subnet in pool
    ensures Sound(Install(store, own, Grow(own, req, g)), pool)
  {
    OwnInStore(store, req.key);
    AllocateKeepsSound(own, req, Answer(Fine, true, Fine, g, Fine), pool);
    GrowTakesFreeAddress(store, req, own, g);
    hide Sound, Guarded, Contains, Held;
    InstallSound(store, req.key, own, Grow(own, req, g), pool);
  }

  lemma {:induction false} GrowFits(store: Store, req: Request, own: Own, g: Grant, pool: set<Subnet>)
    requires own == OwnOf(store, req.key) && !own.Several?
    requires Acceptable(store, own, req, g) && OwnFirst(own, req.subnet).None?
    ensures Fits(store, req.key, own, Grow(own, req, g))
    ensures Sound(store, pool) && req.subnet in pool ==> Sound(Install(store, own, Grow(own, req, g)), pool)
  {
    OwnInStore(store, req.key);
    hide Sound, Contains, Held, Install;
    if Sound(store, pool) && req.subnet in pool {
      GrowKeepsSound(store, req, own, g, pool);
    }
  }

  lemma {:induction false} StripFits(store: Store, key: Key, own: Own, s: Subnet, pool: set<Subnet>)
    requires own == OwnOf(store, key) && own.Single?
    ensures Fits(store, key, own, Strip(own, s))
    ensures Sound(store, pool) ==> Sound(Install(store, own, Strip(own, s)), pool)
  {
    OwnInStore(store, key);
    if Sound(store, pool) {
      ReleaseKeepsSound(own, s, Fine, Fine, pool);
      RemovalSubset(own.rec.List(s.family), s);
      InstallSound(store, key, own, Strip(own, s), pool);
    }
  }

  // ---------- non-interference: the call as its host sees it ----------

  /** The server's part in the call, read off the script. */
  ghost function AnswerOf(env: Env, w: World, req: Request): Answer {
    var w1 := Pass(env, w, req.key);
    var mid, m := Interfered(env, w1, req.key), env.moves(w1.clock);
    Answer(FaultAt(env, w), Acceptable(mid, OwnOf(w1.store, req.key), req, m.grant), m.fault, m.grant,
           env.moves(w.clock + 2).fault)
  }

  lemma {:induction false} AllocateAsSeen(env: Env, w: World, req: Request)
    ensures var out, a := Allocate(env, w, req), AnswerOf(env, w, req);
      Effect(OwnOf(out.world.store, req.key), out.result) == OwnAllocate(OwnOf(w.store, req.key), req, a)
      && Honest(a, req.subnet)
  {
    var w1 := Pass(env, w, req.key);
    var own := OwnOf(w1.store, req.key);
    var mid, g := Interfered(env, w1, req.key), env.moves(w1.clock).grant;
    assert OwnOf(mid, req.key) == own == OwnOf(w.store, req.key);
    if !own.Several? && OwnFirst(own, req.subnet).None? && Acceptable(mid, own, req, g) {
      GrowFits(mid, req, own, g, env.pool);
      InstallOwn(mid, req.key, own, Grow(own, req, g));
    }
  }

  lemma {:induction false} ReleaseAsSeen(env: Env, w: World, key: Key, s: Subnet)
    ensures var out := Release(env, w, key, s);
      Effect(OwnOf(out.world.store, key), out.result) ==
      OwnRelease(OwnOf(w.store, key), s, FaultAt(env, w), env.moves(w.clock + 1).fault)
  {
    var w1 := Pass(env, w, key);
    var own := OwnOf(w1.store, key);
    var mid := Interfered(env, w1, key);
    assert OwnOf(mid, key) == own == OwnOf(w.store, key);
    if own.Single? {
      StripFits(mid, key, own, s, env.pool);
      InstallOwn(mid, key, own, Strip(own, s));
    }
  }

  /** A host that had no record and was given an address has a record set up as the request says. */
  lemma {:induction false} NewRecordSetUp(env: Env, w: World, req: Request)
    requires OwnOf(w.store, req.key).Absent? && Allocate(env, w, req).result.Ok?
    ensures var out := Allocate(env, w, req);
      var own := OwnOf(out.world.store, req.key);
      && own.Single? && own.rec.Addresses() == {out.result.value}
      && own.rec.name == req.key.name
      && own.rec.networkView == (if req.key.view == "" then "default" else req.key.view)
      && (own.rec.enableDns <==> req.dnsZone != "")
      && own.rec.dnsView == if req.dnsZone != "" && req.dnsView != "" then Some(req.dnsView) else None
  {
    AllocateAsSeen(env, w, req);
    hide Allocate, AnswerOf, OwnOf;
    AllocateSetsUp(Absent, req, AnswerOf(env, w, req));
  }

  /** What other hosts do between the steps never changes the effect on the own record. */
  lemma {:induction false} NonInterference(env: Env, w: World, env': Env, w': World, req: Request)
    requires OwnOf(w.store, req.key) == OwnOf(w'.store, req.key)
    requires AnswerOf(env, w, req) == AnswerOf(env', w', req)
    ensures Allocate(env, w, req).result == Allocate(env', w', req).result
    ensures OwnOf(Allocate(env, w, req).world.store, req.key) == OwnOf(Allocate(env', w', req).world.store, req.key)
  {
    AllocateAsSeen(env, w, req);
    AllocateAsSeen(env', w', req);
  }

  // ---------- every step is lawful ----------

  lemma {:induction false} AskingIsLawful(env: Env, w: World, req: Request, own: Own)
    requires own == OwnOf(w.store, req.key) && !own.Several? && OwnFirst(own, req.subnet).None?
    requires req.subnet in env.pool
    ensures Continues(w, AskForAddress(env, w, req, own), env.pool)
  {
    var mid, g := Interfered(env, w, req.key), env.moves(w.clock).grant;
    assert OwnOf(mid, req.key) == own;
    if Acceptable(mid, own, req, g) {
      GrowFits(mid, req, own, g, env.pool);
      InstallOwn(mid, req.key, own, Grow(own, req, g));
    }
    hide Continues, Sound, Acceptable, Install, OwnOf;
    StepContinues(env, w, req.key, AskForAddress(env, w, req, own).store);
  }

  lemma {:induction false} ReadIsLawful(env: Env, w: World, key: Key)
    ensures Continues(w, Pass(env, w, key), env.pool)
  {
    StepContinues(env, w, key, Interfered(env, w, key));
  }

  lemma {:induction false} AllocateIsLawful(env: Env, w: World, req: Request)
    requires req.subnet in env.pool
    ensures Continues(w, Allocate(env, w, req).world, env.pool)
  {
    var w1 := Pass(env, w, req.key);
    var own := OwnOf(w1.store, req.key);
    ReadIsLawful(env, w, req.key);
    if !own.Several? && OwnFirst(own, req.subnet).None? {
      var w2 := AskForAddress(env, w1, req, own);
      AskingIsLawful(env, w1, req, own);
      ReadIsLawful(env, w2, req.key);
      hide Continues, AskForAddress, Pass;
      ContinuesTrans(w, w1, w2, env.pool);
      ContinuesTrans(w, w2, Pass(env, w2, req.key), env.pool);
    }
  }

  lemma {:induction false} GivingBackIsLawful(env: Env, w: World, key: Key, s: Subnet, own: Own)
    requires own == OwnOf(w.store, key) && own.Single?
    ensures Continues(w, GiveBack(env, w, key, s, own), env.pool)
  {
    var mid := Interfered(env, w, key);
    assert OwnOf(mid, key) == own;
    StripFits(mid, key, own, s, env.pool);
    InstallOwn(mid, key, own, Strip(own, s));
    hide Continues, Sound, Install, OwnOf;
    StepContinues(env, w, key, GiveBack(env, w, key, s, own).store);
  }

  lemma {:induction false} ReleaseIsLawful(env: Env, w: World, key: Key, s: Subnet)
    ensures Continues(w, Release(env, w, key, s).world, env.pool)
  {
    var w1 := Pass(env, w, key);
    var own := OwnOf(w1.store, key);
    ReadIsLawful(env, w, key);
    if own.Single? {
      GivingBackIsLawful(env, w1, key, s, own);
      hide Continues, GiveBack, Pass;
      ContinuesTrans(w, w1, GiveBack(env, w1, key, s, own), env.pool);
    }
  }

  lemma {:induction false} AllocateKeepsRefs(env: Env, w: World, req: Request)
    requires "" !in w.store
    ensures "" !in Allocate(env, w, req).world.store
  {
    var w1 := Pass(env, w, req.key);
    var own := OwnOf(w1.store, req.key);
    var mid, g := Interfered(env, w1, req.key), env.moves(w1.clock).grant;
    OwnInStore(mid, req.key);
    assert OwnOf(mid, req.key) == own;
    assert "" !in w1.store && "" !in mid;
  }

  // ---------- whole runs ----------

  datatype Call = AllocateCall(req: Request) | ReleaseCall(key: Key, subnet: Subnet)

  ghost function Perform(env: Env, w: World, c: Call): World {
    match c
    case AllocateCall(req) => Allocate(env, w, req).world
    case ReleaseCall(key, s) => Release(env, w, key, s).world
  }

  ghost function Run(env: Env, w: World, calls: seq<Call>): World
    decreases |calls|
  {
    if calls == [] then w else Run(env, Perform(env, w, calls[0]), calls[1..])
  }

  lemma {:induction false} RunIsLawful(env: Env, w: World, calls: seq<Call>)
    requires forall c | c in calls && c.AllocateCall? :: c.req.subnet in env.pool
    ensures Continues(w, Run(env, w, calls), env.pool)
    decreases |calls|
  {
    if calls != [] {
      match calls[0] {
        case AllocateCall(req) => AllocateIsLawful(env, w, req);
        case ReleaseCall(key, s) => ReleaseIsLawful(env, w, key, s);
      }
      var next := Perform(env, w, calls[0]);
      RunIsLawful(env, next, calls[1..]);
      ContinuesTrans(w, next, Run(env, next, calls[1..]), env.pool);
    }
  }

  /**
    At most once, over whole runs: whatever fails and whoever interferes, every state from a
    sound start on has one record per host, exclusive addresses, no empty record, and at most
    one address per record and subnet that is disjoint from the other subnets in use.
   */
  lemma {:induction false} RunKeepsStoreSound(env: Env, w: World, calls: seq<Call>, i: nat)
    requires forall c | c in calls && c.AllocateCall? :: c.req.subnet in env.pool
    requires Sound(w.store, env.pool) && |w.log| <= i < |Run(env, w, calls).log|
    ensures var e := Run(env, w, calls).log[i];
      Sound(e.after, env.pool)
      && (e.byHost ==> Others(e.after, e.key) == Others(e.before, e.key))
      && forall r, s | r in e.after && s in env.pool
           && (forall t | t in env.pool && t != s :: Disjoint(s, t)) ::
           CountIn(e.after[r].v4, s) <= 1 && CountIn(e.after[r].v6, s) <= 1
  {
    var end := Run(env, w, calls);
    RunIsLawful(env, w, calls);
    SoundThroughout(w, end, env.pool, i);
    var e := end.log[i];
    forall r, s | r in e.after && s in env.pool && (forall t | t in env.pool && t != s :: Disjoint(s, t))
      ensures CountIn(e.after[r].v4, s) <= 1 && CountIn(e.after[r].v6, s) <= 1
    {
      GuardedMeansAtMostOne(e.after[r].v4, s, env.pool);
      GuardedMeansAtMostOne(e.after[r].v6, s, env.pool);
    }
  }

  /**
    Each step that a call of one host makes is admissible interference for every other host. So
    what is shown of one claim among others that act holds of many claims that are served.
   */
  lemma {:induction false} HostsAreAdmissibleToEachOther(env: Env, w: World, calls: seq<Call>, i: nat, l: Key)
    requires forall c | c in calls && c.AllocateCall? :: c.req.subnet in env.pool
    requires |w.log| <= i < |Run(env, w, calls).log|
    ensures var e := Run(env, w, calls).log[i];
      e.byHost && e.key.name != l.name ==> Rely(e.before, e.after, l, env.pool)
  {
    RunIsLawful(env, w, calls);
    var e := Run(env, w, calls).log[i];
    if e.byHost && e.key.name != l.name {
      LawfulStepIsAdmissible(e, l, env.pool);
    }
  }

  /** And so is a whole call during which nobody else acts. */
  lemma {:induction false} CallIsAdmissible(env: Env, w: World, c: Call, l: Key)
    requires Quiet(env, w.clock, w.clock + 3) && l.name != KeyOfCall(c).name
    requires c.AllocateCall? ==> c.req.subnet in env.pool
    ensures Rely(w.store, Perform(env, w, c).store, l, env.pool)
  {
    var after := Perform(env, w, c);
    match c {
      case AllocateCall(req) =>
        QuietAllocateKeepsOthers(env, w, req);
        AllocateIsLawful(env, w, req);
      case ReleaseCall(key, s) =>
        QuietReleaseKeepsOthers(env, w, key, s);
        ReleaseIsLawful(env, w, key, s);
    }
    hide Perform, Lawful;
    OthersKeptMeansOwnKept(w.store, after.store, KeyOfCall(c), l);
    if Sound(w.store, env.pool) {
      ContinuesSound(w, after, env.pool);
    }
    if "" !in w.store && |w.log| < |after.log| {
      RefsThroughout(w, after, env.pool, |after.log| - 1);
    }
  }

  function KeyOfCall(c: Call): Key {
    if c.AllocateCall? then c.req.key else c.key
  }

  /**
    Who may hold one address in one view: in any state of a run, two hosts do so only if they
    are one host. Claims that resolve to the same hostname share a record.
   */
  lemma {:induction false} NoAddressForTwoHosts(env: Env, w: World, calls: seq<Call>, k: Key, l: Key, a: Address)
    requires forall c | c in calls && c.AllocateCall? :: c.req.subnet in env.pool
    requires Sound(w.store, env.pool) && k.view == l.view && k.view != ""
    requires var store := Run(env, w, calls).store;
      && OwnOf(store, k).Single? && a in OwnOf(store, k).rec.Addresses()
      && OwnOf(store, l).Single? && a in OwnOf(store, l).rec.Addresses()
    ensures k == l
  {
    var end := Run(env, w, calls);
    RunIsLawful(env, w, calls);
    ContinuesSound(w, end, env.pool);
    OwnInStore(end.store, k);
    OwnInStore(end.store, l);
  }

  // ---------- round trip in the store ----------

  /** Nobody else acts during the connector calls from `lo` up to `hi`. */
  ghost predicate Quiet(env: Env, lo: nat, hi: nat) {
    forall k | lo <= k < hi :: env.moves(k).others.None?
  }

  lemma {:induction false} SameSplitSameStore(a: Store, b: Store, key: Key)
    requires OwnMap(a, key) == OwnMap(b, key) && Others(a, key) == Others(b, key)
    ensures a == b
  {
    assert a.Keys == OwnMap(a, key).Keys + Others(a, key).Keys;
    assert b.Keys == OwnMap(b, key).Keys + Others(b, key).Keys;
    forall r | r in a ensures a[r] == b[r] {
      assert r in OwnMap(a, key) || r in Others(a, key);
    }
  }

  lemma {:induction false} QuietRequestKeepsOthers(env: Env, w: World, req: Request, own: Own)
    requires env.moves(w.clock).others.None? && own == OwnOf(w.store, req.key)
    requires !own.Several? && OwnFirst(own, req.subnet).None?
    ensures Others(AskForAddress(env, w, req, own).store, req.key) == Others(w.store, req.key)
  {
    var g := env.moves(w.clock).grant;
    if Acceptable(w.store, own, req, g) {
      GrowFits(w.store, req, own, g, env.pool);
      InstallOwn(w.store, req.key, own, Grow(own, req, g));
    }
  }

  lemma {:induction false} QuietAllocateKeepsOthers(env: Env, w: World, req: Request)
    requires Quiet(env, w.clock, w.clock + 3)
    ensures var out := Allocate(env, w, req);
      Others(out.world.store, req.key) == Others(w.store, req.key) && out.world.clock <= w.clock + 3
  {
    var own := OwnOf(w.store, req.key);
    var w1 := Pass(env, w, req.key);
    assert env.moves(w.clock).others.None? && w1.store == w.store;
    if FaultAt(env, w) == Fine && !own.Several? && OwnFirst(own, req.subnet).None? {
      QuietRequestKeepsOthers(env, w1, req, own);
      var w2 := AskForAddress(env, w1, req, own);
      assert env.moves(w2.clock).others.None? && Pass(env, w2, req.key).store == w2.store;
    }
  }

  lemma {:induction false} QuietReleaseKeepsOthers(env: Env, w: World, key: Key, s: Subnet)
    requires Quiet(env, w.clock, w.clock + 2)
    ensures var out := Release(env, w, key, s);
      Others(out.world.store, key) == Others(w.store, key) && out.world.clock <= w.clock + 2
  {
    var own := OwnOf(w.store, key);
    assert Pass(env, w, key).store == w.store;
    if own.Single? {
      StripFits(w.store, key, own, s, env.pool);
      InstallOwn(w.store, key, own, Strip(own, s));
    }
  }

  /**
    A successful allocation that had to allocate, followed by a successful release, gives the
    host its record back as it was, whoever acts meanwhile; undisturbed, the whole store.
   */
  lemma {:induction false} StoreRoundTrip(env: Env, w: World, req: Request, w2: World)
    requires OwnFirst(OwnOf(w.store, req.key), req.subnet).None?
    requires OwnOf(w.store, req.key).Single? ==> !OwnOf(w.store, req.key).rec.Empty()
    requires Allocate(env, w, req).result.Ok?
    requires OwnOf(w2.store, req.key) == OwnOf(Allocate(env, w, req).world.store, req.key)
    requires Release(env, w2, req.key, req.subnet).result.Ok?
    ensures var after := Release(env, w2, req.key, req.subnet).world;
      OwnOf(after.store, req.key) == OwnOf(w.store, req.key)
      && (Quiet(env, w.clock, w.clock + 5) && w2 == Allocate(env, w, req).world ==> after.store == w.store)
  {
    var key, s := req.key, req.subnet;
    var own, a := OwnOf(w.store, key), AnswerOf(env, w, req);
    var after := Release(env, w2, key, s).world;
    AllocateAsSeen(env, w, req);
    ReleaseAsSeen(env, w2, key, s);
    RoundTrip(own, req, a);
    if Quiet(env, w.clock, w.clock + 5) && w2 == Allocate(env, w, req).world {
      QuietAllocateKeepsOthers(env, w, req);
      QuietReleaseKeepsOthers(env, w2, key, s);
      TheOneSpec(OwnMap(w.store, key));
      TheOneSpec(OwnMap(after.store, key));
      SameSplitSameStore(after.store, w.store, key);
    }
  }
}
