/**
  How many addresses one allocation attempt adds to the host's record.

  A call that reports an error may have taken effect. The handler then tries the next subnet, so
  that one attempt can add several addresses.
 */
module ClaimGrowth {
  import opened Outcomes
  import opened Prefixes
  import opened AddressLists
  import opened HostRecords
  import opened OwnRecord
  import opened RecordStore
  import opened AddressProtocol
  import opened Pools
  import opened ClaimLifecycle
  import opened TwoSubnets

  /** The write for subnet `j` took effect, reported or not. */
  ghost predicate Landed(env: Env, w: World, t: Target, subs: seq<PoolSubnet>, j: nat)
    requires j < |subs|
  {
    subs[j].prefix.Some? &&
    var u, req := WorldAt(env, w, t, subs, j), Req(t, subs[j].prefix.value);
    TookEffect(OwnOf(u.store, t.key), req, AnswerOf(env, u, req))
  }

  /** How many of the first `n` subnets got an address. */
  ghost function LandedCount(env: Env, w: World, t: Target, subs: seq<PoolSubnet>, n: nat): nat
    requires n <= |subs|
  {
    if n == 0 then 0
    else LandedCount(env, w, t, subs, n - 1) + (if Landed(env, w, t, subs, n - 1) then 1 else 0)
  }

  /** How many of the first `n` subnets got an address although their call reported an error. */
  ghost function Unreported(env: Env, w: World, t: Target, subs: seq<PoolSubnet>, n: nat): nat
    requires n <= |subs|
  {
    if n == 0 then 0
    else
      Unreported(env, w, t, subs, n - 1)
      + (if Landed(env, w, t, subs, n - 1) && Tried(env, w, t, subs, n - 1).result.Err? then 1 else 0)
  }

  /** How many subnets an attempt with this outcome has dealt with. */
  function Reached(subs: seq<PoolSubnet>, r: Ensured): nat {
    if r.Got? then r.index + 1 else |subs|
  }

  lemma {:induction false} GrowthAt(env: Env, w: World, t: Target, subs: seq<PoolSubnet>, n: nat)
    requires n <= |subs|
    ensures Size(OwnOf(WorldAt(env, w, t, subs, n).store, t.key)) ==
      Size(OwnOf(w.store, t.key)) + LandedCount(env, w, t, subs, n)
  {
    hide Allocate, OwnAllocate, TookEffect, Size, AnswerOf;
    if n > 0 {
      GrowthAt(env, w, t, subs, n - 1);
      if subs[n - 1].prefix.Some? {
        var u, req := WorldAt(env, w, t, subs, n - 1), Req(t, subs[n - 1].prefix.value);
        AllocateAsSeen(env, u, req);
        AllocateSize(OwnOf(u.store, t.key), req, AnswerOf(env, u, req));
      }
    }
  }

  lemma {:induction false} AllUnreported(env: Env, w: World, t: Target, subs: seq<PoolSubnet>, n: nat)
    requires n <= |subs| && forall j | 0 <= j < n :: Unserved(env, w, t, subs, j)
    ensures Unreported(env, w, t, subs, n) == LandedCount(env, w, t, subs, n)
  {
    hide Allocate, TookEffect;
    if n > 0 {
      AllUnreported(env, w, t, subs, n - 1);
      assert Unserved(env, w, t, subs, n - 1);
    }
  }

  /** A success landed a write exactly if the host had no address in the subnet yet. */
  lemma {:induction false} SuccessLandedIff(env: Env, w: World, t: Target, subs: seq<PoolSubnet>, k: nat)
    requires k < |subs| && subs[k].prefix.Some? && Tried(env, w, t, subs, k).result.Ok?
    ensures Landed(env, w, t, subs, k) <==>
      OwnFirst(OwnOf(WorldAt(env, w, t, subs, k).store, t.key), subs[k].prefix.value).None?
  {
    hide Allocate, AnswerOf;
    var u, req := WorldAt(env, w, t, subs, k), Req(t, subs[k].prefix.value);
    AllocateAsSeen(env, u, req);
  }

  /** The world an attempt ends in is the one after all subnets it has dealt with. */
  lemma {:induction false} EndsAtReached(env: Env, w: World, t: Target, subs: seq<PoolSubnet>)
    ensures var out := EnsureFrom(env, w, t, subs, 0);
      Reached(subs, out.result) <= |subs| && out.world == WorldAt(env, w, t, subs, Reached(subs, out.result))
  {
    hide Allocate, EnsureFrom;
    FirstFitFrom(env, w, t, subs, 0);
  }

  /**
    An attempt adds one address for every tried subnet whose call reported an error although its
    write took effect, and one more if it succeeded where the host had no address yet.
   */
  lemma {:induction false} AttemptAdds(env: Env, w: World, t: Target, subs: seq<PoolSubnet>)
    ensures var out := EnsureFrom(env, w, t, subs, 0);
      var before, after := Size(OwnOf(w.store, t.key)), Size(OwnOf(out.world.store, t.key));
      if out.result.Failed? then after == before + Unreported(env, w, t, subs, |subs|)
      else
        var k := out.result.index;
        && k < |subs| && subs[k].prefix.Some?
        && after == before + Unreported(env, w, t, subs, k) +
             (if OwnFirst(OwnOf(WorldAt(env, w, t, subs, k).store, t.key), subs[k].prefix.value).None? then 1 else 0)
  {
    hide Allocate, EnsureFrom, Landed, Size;
    var out := EnsureFrom(env, w, t, subs, 0);
    FirstFitFrom(env, w, t, subs, 0);
    EndsAtReached(env, w, t, subs);
    GrowthAt(env, w, t, subs, Reached(subs, out.result));
    if out.result.Failed? {
      AllUnreported(env, w, t, subs, |subs|);
    } else {
      AllUnreported(env, w, t, subs, out.result.index);
      SuccessLandedIff(env, w, t, subs, out.result.index);
    }
  }

  lemma {:induction false} CountAtMostOne(env: Env, w: World, t: Target, subs: seq<PoolSubnet>, n: nat)
    requires n <= |subs|
    ensures LandedCount(env, w, t, subs, n) == 0 <==> forall j | 0 <= j < n :: !Landed(env, w, t, subs, j)
    ensures LandedCount(env, w, t, subs, n) <= 1 <==>
      forall i, j | 0 <= i < j < n :: !(Landed(env, w, t, subs, i) && Landed(env, w, t, subs, j))
  {
    hide Landed;
    if n > 0 {
      CountAtMostOne(env, w, t, subs, n - 1);
    }
  }

  /** At most one address is added exactly when no two of the writes took effect. */
  lemma {:induction false} AddsAtMostOneIff(env: Env, w: World, t: Target, subs: seq<PoolSubnet>)
    ensures var out := EnsureFrom(env, w, t, subs, 0);
      && Reached(subs, out.result) <= |subs|
      && (Size(OwnOf(out.world.store, t.key)) <= Size(OwnOf(w.store, t.key)) + 1 <==>
            forall i, j | 0 <= i < j < Reached(subs, out.result) ::
              !(Landed(env, w, t, subs, i) && Landed(env, w, t, subs, j)))
  {
    hide Allocate, EnsureFrom, Landed, Size;
    EndsAtReached(env, w, t, subs);
    GrowthAt(env, w, t, subs, Reached(subs, EnsureFrom(env, w, t, subs, 0).result));
    CountAtMostOne(env, w, t, subs, Reached(subs, EnsureFrom(env, w, t, subs, 0).result));
  }

  // ---------- an attempt that adds two ----------

  /** Only the write at call 1 fails, after its effect. */
  function LosingEnv(): Env {
    Env(n => Move(None, if n == 1 then FailsAfter else Fine,
                  Grant(if n <= 1 then FIRST_ADDRESS else SECOND_ADDRESS, "ref", "")), {FIRST, SECOND})
  }

  /** The record that a first write leaves although its call reports an error. */
  lemma {:induction false} LosesFirst(w: World)
    requires w == World(map[], 0, [])
    ensures var out := Allocate(LosingEnv(), w, Req(HOST, FIRST));
      && out.result == Err(Connector) && out.world.clock == 2
      && out.world.store == map["ref" := Record("host", "lan", "", false, None, [Ip(FIRST_ADDRESS)], [])]
  {
    var env := LosingEnv();
    TheOneSpec(OwnMap(w.store, HOST.key));
    assert OwnOf(w.store, HOST.key) == Absent;
    EachHoldsOne();
  }

  /** The next subnet is tried and served. */
  lemma {:induction false} GainsSecond(u: World)
    requires u.clock == 2
    requires u.store == map["ref" := Record("host", "lan", "", false, None, [Ip(FIRST_ADDRESS)], [])]
    ensures var out := Allocate(LosingEnv(), u, Req(HOST, SECOND));
      && out.result == Ok(SECOND_ADDRESS)
      && OwnOf(out.world.store, HOST.key) ==
           Single("ref", Record("host", "lan", "", false, None, [Ip(FIRST_ADDRESS), Ip(SECOND_ADDRESS)], []))
  {
    var env, req := LosingEnv(), Req(HOST, SECOND);
    TheOneSpec(OwnMap(u.store, HOST.key));
    assert OwnMap(u.store, HOST.key) == u.store;
    EachHoldsOne();
    assert !Held(u.store, "lan", SECOND_ADDRESS);
    FirstInSpec([Ip(FIRST_ADDRESS)], SECOND);
    assert Pass(env, u, HOST.key).store == u.store;
    assert AnswerOf(env, u, req) == Answer(Fine, true, Fine, Grant(SECOND_ADDRESS, "ref", ""), Fine);
    AllocateAsSeen(env, u, req);
    hide Allocate, AnswerOf;
    assert [Ip(FIRST_ADDRESS)] + [Ip(SECOND_ADDRESS)] == [Ip(FIRST_ADDRESS), Ip(SECOND_ADDRESS)];
  }

  /** Two disjoint subnets, one lost answer: the attempt succeeds and the host has two addresses. */
  lemma {:induction false} AttemptLeavesTwo(w: World)
    requires w == World(map[], 0, [])
    ensures var out := EnsureFrom(LosingEnv(), w, HOST, PAIR, 0);
      && Disjoint(FIRST, SECOND)
      && out.result == Got(1, SECOND_ADDRESS)
      && OwnOf(out.world.store, HOST.key).Single?
      && OwnOf(out.world.store, HOST.key).rec.v4 == [Ip(FIRST_ADDRESS), Ip(SECOND_ADDRESS)]
  {
    var u := Allocate(LosingEnv(), w, Req(HOST, FIRST)).world;
    EachHoldsOne();
    LosesFirst(w);
    GainsSecond(u);
    hide Allocate;
    assert EnsureFrom(LosingEnv(), u, HOST, PAIR, 1) ==
      Attempt(Allocate(LosingEnv(), u, Req(HOST, SECOND)).world, Got(1, SECOND_ADDRESS));
  }
}
