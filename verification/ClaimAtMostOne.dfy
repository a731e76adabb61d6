/**
  For which pools and records does an allocation attempt add at most one address, whatever fails
  and whoever interferes?
 */
module ClaimAtMostOne {
  import opened Outcomes
  import opened Prefixes
  import opened HostRecords
  import opened OwnRecord
  import opened RecordStore
  import opened AddressProtocol
  import opened Pools
  import opened ClaimLifecycle
  import opened ClaimGrowth

  /** The subnet parses and the host's record shows no address in it. */
  ghost predicate Unshown(own: Own, subs: seq<PoolSubnet>, i: nat)
    requires i < |subs|
  {
    !own.Several? && subs[i].prefix.Some? && OwnFirst(own, subs[i].prefix.value).None?
  }

  /** Of the subnets in which the record shows no address, each lies within all that follow it. */
  ghost predicate Chained(own: Own, subs: seq<PoolSubnet>) {
    forall i, j | 0 <= i < j < |subs| && Unshown(own, subs, i) && Unshown(own, subs, j) ::
      Within(subs[i].prefix.value, subs[j].prefix.value)
  }

  /** By how much an attempt changes the number of entries in the host's record. */
  ghost function Added(env: Env, w: World, t: Target, subs: seq<PoolSubnet>): int {
    Size(OwnOf(EnsureFrom(env, w, t, subs, 0).world.store, t.key)) - Size(OwnOf(w.store, t.key))
  }

  // ---------- chained subnets: never two ----------

  /** What is shown once stays shown while the attempt goes on, and an ambiguous host stays so. */
  lemma {:induction false} ShownStays(
      env: Env, w: World, t: Target, subs: seq<PoolSubnet>, i: nat, j: nat, s: Subnet)
    requires i <= j <= |subs|
    ensures OwnFirst(OwnOf(WorldAt(env, w, t, subs, i).store, t.key), s).Some? ==>
      OwnFirst(OwnOf(WorldAt(env, w, t, subs, j).store, t.key), s).Some?
    ensures OwnOf(WorldAt(env, w, t, subs, i).store, t.key).Several? ==>
      OwnOf(WorldAt(env, w, t, subs, j).store, t.key).Several?
    decreases j
  {
    hide Allocate, OwnFirst, AnswerOf;
    if i < j {
      ShownStays(env, w, t, subs, i, j - 1, s);
      if subs[j - 1].prefix.Some? {
        var u, req := WorldAt(env, w, t, subs, j - 1), Req(t, subs[j - 1].prefix.value);
        AllocateAsSeen(env, u, req);
        if OwnFirst(OwnOf(u.store, t.key), s).Some? {
          AllocateKeepsShown(OwnOf(u.store, t.key), req, AnswerOf(env, u, req), s);
        }
      }
    }
  }

  /** A write that took effect was for a subnet in which the record showed nothing at first. */
  lemma {:induction false} LandedWasUnshown(env: Env, w: World, t: Target, subs: seq<PoolSubnet>, i: nat)
    requires i < |subs| && Landed(env, w, t, subs, i)
    ensures Unshown(OwnOf(w.store, t.key), subs, i)
  {
    hide OwnFirst, AnswerOf;
    ShownStays(env, w, t, subs, 0, i, subs[i].prefix.value);
  }

  /** After it, every subnet around that one shows an address. */
  lemma {:induction false} LandedShows(
      env: Env, w: World, t: Target, subs: seq<PoolSubnet>, i: nat, j: nat, s: Subnet)
    requires i < j <= |subs| && Landed(env, w, t, subs, i) && Within(subs[i].prefix.value, s)
    ensures OwnFirst(OwnOf(WorldAt(env, w, t, subs, j).store, t.key), s).Some?
  {
    hide Allocate, OwnFirst, AnswerOf, Within, TookEffect;
    var u, req := WorldAt(env, w, t, subs, i), Req(t, subs[i].prefix.value);
    AllocateAsSeen(env, u, req);
    AllocateShows(OwnOf(u.store, t.key), req, AnswerOf(env, u, req), s);
    ShownStays(env, w, t, subs, i + 1, j, s);
  }

  lemma {:induction false} ChainedAddsAtMostOne(env: Env, w: World, t: Target, subs: seq<PoolSubnet>)
    requires Chained(OwnOf(w.store, t.key), subs)
    ensures Added(env, w, t, subs) <= 1
  {
    hide EnsureFrom, Allocate, Size, Unshown;
    AddsAtMostOneIff(env, w, t, subs);
    var m := Reached(subs, EnsureFrom(env, w, t, subs, 0).result);
    forall i, j | 0 <= i < j < m && Landed(env, w, t, subs, i)
      ensures !Landed(env, w, t, subs, j)
    {
      if Landed(env, w, t, subs, j) {
        LandedWasUnshown(env, w, t, subs, i);
        LandedWasUnshown(env, w, t, subs, j);
      }
      if subs[j].prefix.Some? && Within(subs[i].prefix.value, subs[j].prefix.value) {
        LandedShows(env, w, t, subs, i, j, subs[j].prefix.value);
      }
    }
  }

  // ---------- otherwise: an environment that makes it add two ----------

  /**
    Every lookup fails but those at calls `first` and `second`. The write after the first one
    meets a store that others have left to the host, grants `p`, and fails after its effect. The
    write after the second one grants `q`.
   */
  function TwoEnv(first: nat, second: nat, cleared: Store, p: Address, q: Address, pool: set<Subnet>): Env {
    Env(n => Move(
          if n == first + 1 then Some(cleared) else None,
          if n == first + 1 then FailsAfter
          else if n == first || second <= n <= second + 2 then Fine else FailsBefore,
          Grant(if n == first + 1 then p else q, "ref", "")), pool)
  }

  /** A call whose lookup fails does nothing. */
  lemma {:induction false} LookupFails(env: Env, u: World, req: Request)
    requires env.moves(u.clock).fault != Fine && env.moves(u.clock).others.None?
    ensures var out := Allocate(env, u, req);
      out.result.Err? && out.world.store == u.store && out.world.clock == u.clock + 1
  {
  }

  /** Subnets whose lookups fail are passed over without effect, one call each. */
  lemma {:induction false} PassedOver(env: Env, w: World, t: Target, subs: seq<PoolSubnet>, a: nat, b: nat)
    requires a <= b <= |subs| && ParsedBefore(subs, a) <= ParsedBefore(subs, b)
    requires var c := WorldAt(env, w, t, subs, a).clock;
      forall n | c <= n < c + ParsedBefore(subs, b) - ParsedBefore(subs, a) ::
        env.moves(n).fault != Fine && env.moves(n).others.None?
    ensures var u, v := WorldAt(env, w, t, subs, a), WorldAt(env, w, t, subs, b);
      v.store == u.store && v.clock == u.clock + ParsedBefore(subs, b) - ParsedBefore(subs, a)
    ensures forall h | a <= h < b :: Unserved(env, w, t, subs, h)
    decreases b
  {
    hide Allocate;
    if a < b {
      ParsedBeforeGrows(subs, a, b - 1);
      PassedOver(env, w, t, subs, a, b - 1);
      if subs[b - 1].prefix.Some? {
        LookupFails(env, WorldAt(env, w, t, subs, b - 1), Req(t, subs[b - 1].prefix.value));
      }
    }
  }

  /** Others may leave the store to the host. */
  lemma {:induction false} ClearingIsAdmissible(store: Store, key: Key, pool: set<Subnet>)
    ensures Rely(store, OwnMap(store, key), key, pool)
  {
    var cleared := OwnMap(store, key);
    assert OwnMap(cleared, key) == cleared;
    assert forall r | r in cleared :: r in store && cleared[r] == store[r];
  }

  /** An address in a subnet where the record shows none is held by no one in such a store. */
  lemma {:induction false} FreeWhenCleared(store: Store, key: Key, s: Subnet, a: Address, view: string)
    requires !OwnOf(store, key).Several? && OwnFirst(OwnOf(store, key), s).None? && Contains(s, a)
    requires OwnOf(store, key).Single? ==> OwnOf(store, key).rec.FamilyConsistent()
    requires OwnMap(store, key) == store
    ensures !Held(store, view, a)
  {
    OwnInStore(store, key);
    if OwnOf(store, key).Single? {
      OneListIsEnough(OwnOf(store, key).rec, s);
    }
    forall r | r in store
      ensures a !in store[r].Addresses()
    {
      assert r in OwnMap(store, key);
    }
  }

  /** The first address lands, in a store that then holds the host's record only. */
  lemma {:induction false} FirstLands(env: Env, u: World, t: Target, s: Subnet, p: Address)
    requires !OwnOf(u.store, t.key).Several? && OwnFirst(OwnOf(u.store, t.key), s).None? && Contains(s, p)
    requires OwnOf(u.store, t.key).Single? ==> OwnOf(u.store, t.key).rec.FamilyConsistent()
    requires env.moves(u.clock) == Move(None, Fine, env.moves(u.clock).grant)
    requires env.moves(u.clock + 1) == Move(Some(OwnMap(u.store, t.key)), FailsAfter, Grant(p, "ref", ""))
    ensures var out, g := Allocate(env, u, Req(t, s)), Grant(p, "ref", "");
      && out.result.Err? && out.world.clock == u.clock + 2
      && OwnOf(out.world.store, t.key) == Grow(OwnOf(u.store, t.key), Req(t, s), g)
      && OwnMap(out.world.store, t.key) == out.world.store
  {
    var key, req, g := t.key, Req(t, s), Grant(p, "ref", "");
    var own, cleared := OwnOf(u.store, t.key), OwnMap(u.store, t.key);
    var w1 := Pass(env, u, key);
    ClearingIsAdmissible(u.store, key, env.pool);
    assert w1.store == u.store && Interfered(env, w1, key) == cleared;
    assert OwnMap(cleared, key) == cleared;
    FreeWhenCleared(cleared, key, s, p, OwnView(own, key));
    TheOneSpec(cleared);
    assert Acceptable(cleared, own, req, g);
    GrowFits(cleared, req, own, g, env.pool);
    InstallOwn(cleared, key, own, Grow(own, req, g));
    var after := Install(cleared, own, Grow(own, req, g));
    assert Others(cleared, key) == map[];
    NoOthersMeansOwnOnly(after, key);
  }

  lemma {:induction false} NoOthersMeansOwnOnly(store: Store, key: Key)
    requires Others(store, key) == map[]
    ensures OwnMap(store, key) == store
  {
    forall r | r in store
      ensures r in OwnMap(store, key)
    {
      assert r !in Others(store, key);
    }
  }

  /** The second address is granted as well. */
  lemma {:induction false} SecondLands(env: Env, v: World, t: Target, s: Subnet, q: Address)
    requires OwnOf(v.store, t.key).Single? && OwnFirst(OwnOf(v.store, t.key), s).None? && Contains(s, q)
    requires OwnOf(v.store, t.key).rec.FamilyConsistent() && OwnMap(v.store, t.key) == v.store
    requires forall n | v.clock <= n <= v.clock + 2 :: env.moves(n) == Move(None, Fine, Grant(q, "ref", ""))
    ensures var out := Allocate(env, v, Req(t, s));
      out.result == Ok(q) && Size(OwnOf(out.world.store, t.key)) == Size(OwnOf(v.store, t.key)) + 1
  {
    var key, req, g := t.key, Req(t, s), Grant(q, "ref", "");
    var own := OwnOf(v.store, key);
    FreeWhenCleared(v.store, key, s, q, OwnView(own, key));
    assert Pass(env, v, key).store == v.store;
    assert env.moves(v.clock) == env.moves(v.clock + 1) == env.moves(v.clock + 2) == Move(None, Fine, g);
    assert Acceptable(v.store, own, req, g);
    assert AnswerOf(env, v, req) == Answer(Fine, true, Fine, g, Fine);
    AllocateAsSeen(env, v, req);
    AllocateSize(own, req, AnswerOf(env, v, req));
  }

  lemma {:induction false} GrownIsFitForMore(own: Own, req: Request, g: Grant, s: Subnet)
    requires !own.Several? && Contains(req.subnet, g.pick) && !Contains(s, g.pick) && OwnFirst(own, s).None?
    requires own.Single? ==> own.rec.FamilyConsistent()
    ensures var next := Grow(own, req, g);
      && next.Single? && next.rec.FamilyConsistent() && OwnFirst(next, s).None?
      && Size(next) == Size(own) + 1
  {
    GrownElsewhere(own, req, g, s);
  }

  /** The environment that makes an attempt land in subnet `i` and then in subnet `j`. */
  function LandsTwice(
      w: World, t: Target, subs: seq<PoolSubnet>, i: nat, j: nat, p: Address, q: Address, pool: set<Subnet>): Env
    requires i < j < |subs|
  {
    TwoEnv(w.clock + ParsedBefore(subs, i), w.clock + ParsedBefore(subs, j) + 1, OwnMap(w.store, t.key), p, q, pool)
  }

  /** The attempt up to and including subnet `i`. */
  lemma {:induction false} LandsFirst(
      w: World, t: Target, subs: seq<PoolSubnet>, i: nat, j: nat, p: Address, q: Address, pool: set<Subnet>)
    requires i < j < |subs|
    requires Unshown(OwnOf(w.store, t.key), subs, i) && Contains(subs[i].prefix.value, p)
    requires OwnOf(w.store, t.key).Single? ==> OwnOf(w.store, t.key).rec.FamilyConsistent()
    ensures var env := LandsTwice(w, t, subs, i, j, p, q, pool);
      var v := WorldAt(env, w, t, subs, i + 1);
      && (forall h | 0 <= h <= i :: Unserved(env, w, t, subs, h))
      && v.clock == w.clock + ParsedBefore(subs, i) + 2
      && OwnOf(v.store, t.key) == Grow(OwnOf(w.store, t.key), Req(t, subs[i].prefix.value), Grant(p, "ref", ""))
      && OwnMap(v.store, t.key) == v.store
  {
    hide Allocate, Grow, OwnFirst, OwnOf, OwnMap, Contains;
    var env := LandsTwice(w, t, subs, i, j, p, q, pool);
    ParsedBeforeGrows(subs, i, j);
    PassedOver(env, w, t, subs, 0, i);
    FirstLands(env, WorldAt(env, w, t, subs, i), t, subs[i].prefix.value, p);
  }

  /** The subnets between are passed over and subnet `j` is served: two addresses more. */
  lemma {:induction false} AddsTwo(
      w: World, t: Target, subs: seq<PoolSubnet>, i: nat, j: nat, p: Address, q: Address, pool: set<Subnet>)
    requires i < j < |subs|
    requires Unshown(OwnOf(w.store, t.key), subs, i) && Unshown(OwnOf(w.store, t.key), subs, j)
    requires Contains(subs[i].prefix.value, p) && !Contains(subs[j].prefix.value, p)
    requires Contains(subs[j].prefix.value, q)
    requires OwnOf(w.store, t.key).Single? ==> OwnOf(w.store, t.key).rec.FamilyConsistent()
    ensures var env := LandsTwice(w, t, subs, i, j, p, q, pool);
      EnsureFrom(env, w, t, subs, 0).result == Got(j, q) && Added(env, w, t, subs) == 2
  {
    hide Allocate, EnsureFrom, Grow, Size, OwnFirst, OwnOf, OwnMap, Contains;
    var env := LandsTwice(w, t, subs, i, j, p, q, pool);
    LandsFirst(w, t, subs, i, j, p, q, pool);
    GrownIsFitForMore(OwnOf(w.store, t.key), Req(t, subs[i].prefix.value), Grant(p, "ref", ""), subs[j].prefix.value);
    ParsedBeforeGrows(subs, i + 1, j);
    PassedOver(env, w, t, subs, i + 1, j);
    SecondLands(env, WorldAt(env, w, t, subs, j), t, subs[j].prefix.value, q);
    PickedOnce(env, w, t, subs, j, q);
  }

  /**
    No environment makes an attempt add more than one address exactly when the subnets in which
    the host's record shows no address are chained. Both sides speak of the state before the
    attempt only.
   */
  lemma {:induction false} AddsAtMostOneEverywhereIff(w: World, t: Target, subs: seq<PoolSubnet>, pool: set<Subnet>)
    requires forall s | s in Parsed(subs) :: WellFormed(s)
    requires OwnOf(w.store, t.key).Single? ==> OwnOf(w.store, t.key).rec.FamilyConsistent()
    ensures (forall env: Env | env.pool == pool :: Added(env, w, t, subs) <= 1) <==>
      Chained(OwnOf(w.store, t.key), subs)
  {
    hide Added, OwnOf, Unshown;
    if Chained(OwnOf(w.store, t.key), subs) {
      forall env: Env | env.pool == pool
        ensures Added(env, w, t, subs) <= 1
      {
        ChainedAddsAtMostOne(env, w, t, subs);
      }
    } else {
      UnchainedAddsTwo(w, t, subs, pool);
    }
  }

  lemma {:induction false} UnchainedAddsTwo(w: World, t: Target, subs: seq<PoolSubnet>, pool: set<Subnet>)
    requires forall s | s in Parsed(subs) :: WellFormed(s)
    requires OwnOf(w.store, t.key).Single? ==> OwnOf(w.store, t.key).rec.FamilyConsistent()
    requires !Chained(OwnOf(w.store, t.key), subs)
    ensures exists env: Env :: env.pool == pool && Added(env, w, t, subs) == 2
  {
    hide EnsureFrom, OwnFirst, OwnOf, Size;
    var own := OwnOf(w.store, t.key);
    var i, j :| 0 <= i < j < |subs| && Unshown(own, subs, i) && Unshown(own, subs, j)
      && !Within(subs[i].prefix.value, subs[j].prefix.value);
    var s := subs[j].prefix.value;
    assert s in Parsed(subs);
    var p :| Contains(subs[i].prefix.value, p) && !Contains(s, p);
    var q := Address(s.family, s.base);
    assert Contains(s, q);
    hide Added, Contains;
    AddsTwo(w, t, subs, i, j, p, q, pool);
    assert LandsTwice(w, t, subs, i, j, p, q, pool).pool == pool;
  }
}
