/**
  First fit by availability, and when repeating an allocation gives the same answer.

  The attempts considered here are undisturbed while they last. Between two of them anything
  may happen.
 */
module ClaimRetry {
  import opened Outcomes
  import opened Prefixes
  import opened AddressLists
  import opened HostRecords
  import opened OwnRecord
  import opened RecordStore
  import opened AddressProtocol
  import opened Pools
  import opened ClaimLifecycle
  import opened TwoSubnets

  // ---------- undisturbed attempts ----------

  /** From now on nobody else acts and no call fails. */
  ghost predicate Undisturbed(env: Env, from: nat) {
    forall n | from <= n :: env.moves(n).others.None? && env.moves(n).fault == Fine
  }

  /** The server can serve subnet `s` at the write that follows the lookup in world `v`. */
  ghost predicate CanServe(env: Env, v: World, t: Target, s: Subnet) {
    Acceptable(v.store, OwnOf(v.store, t.key), Req(t, s), env.moves(v.clock + 1).grant)
  }

  lemma {:induction false} UndisturbedAllocate(env: Env, w: World, t: Target, s: Subnet)
    requires Undisturbed(env, w.clock) && !OwnOf(w.store, t.key).Several?
    ensures var out, own := Allocate(env, w, Req(t, s)), OwnOf(w.store, t.key);
      && out.world.clock == w.clock + (if OwnFirst(own, s).Some? then 1 else if CanServe(env, w, t, s) then 3 else 2)
      && (out.result.Ok? <==> OwnFirst(own, s).Some? || CanServe(env, w, t, s))
      && (OwnFirst(own, s).Some? ==> out.result == Ok(OwnFirst(own, s).value))
      && (out.result.Err? || OwnFirst(own, s).Some? ==> out.world.store == w.store)
  {
    var w1 := Pass(env, w, t.key);
    assert env.moves(w.clock).others.None? && w1.store == w.store;
    assert env.moves(w1.clock).others.None? && env.moves(w1.clock).fault == Fine;
    assert env.moves(w1.clock + 1).others.None? && env.moves(w1.clock + 1).fault == Fine;
  }

  lemma {:induction false} UndisturbedFailures(env: Env, w: World, t: Target, subs: seq<PoolSubnet>, i: nat)
    requires Undisturbed(env, w.clock) && !OwnOf(w.store, t.key).Several? && i <= |subs|
    requires forall j | 0 <= j < i :: Unserved(env, w, t, subs, j)
    ensures WorldAt(env, w, t, subs, i).store == w.store && WorldAt(env, w, t, subs, i).clock >= w.clock
  {
    if i > 0 {
      UndisturbedFailures(env, w, t, subs, i - 1);
      assert Unserved(env, w, t, subs, i - 1);
      if subs[i - 1].prefix.Some? {
        UndisturbedAllocate(env, WorldAt(env, w, t, subs, i - 1), t, subs[i - 1].prefix.value);
      }
    }
  }

  /** No address of the subnet is free in the view. */
  ghost predicate Exhausted(store: Store, view: string, s: Subnet) {
    forall a :: Contains(s, a) ==> Held(store, view, a)
  }

  /** The host can get an address from the subnet: it has one there, or one is free. */
  ghost predicate Available(store: Store, key: Key, p: PoolSubnet) {
    var own := OwnOf(store, key);
    p.prefix.Some?
    && (OwnFirst(own, p.prefix.value).Some? || !Exhausted(store, OwnView(own, key), p.prefix.value))
  }

  /** In this attempt the server refuses a write only if the subnet asked for is used up. */
  ghost predicate Fair(env: Env, w: World, t: Target, subs: seq<PoolSubnet>) {
    forall j | 0 <= j < |subs| && subs[j].prefix.Some? && (forall h | 0 <= h < j :: Unserved(env, w, t, subs, h)) ::
      var u := WorldAt(env, w, t, subs, j);
      CanServe(env, u, t, subs[j].prefix.value)
      || Exhausted(u.store, OwnView(OwnOf(u.store, t.key), t.key), subs[j].prefix.value)
  }

  // ---------- first fit by availability ----------

  lemma {:induction false} ServableIsNotExhausted(env: Env, u: World, t: Target, s: Subnet)
    requires CanServe(env, u, t, s)
    ensures !Exhausted(u.store, OwnView(OwnOf(u.store, t.key), t.key), s)
  {
    hide OwnOf, Contains, Held;
    var pick := env.moves(u.clock + 1).grant.pick;
    assert Contains(s, pick) && !Held(u.store, OwnView(OwnOf(u.store, t.key), t.key), pick);
  }

  /** A subnet is passed over exactly when the host has no address there and none is free. */
  lemma {:induction false} UnservedIff(env: Env, w: World, t: Target, subs: seq<PoolSubnet>, j: nat)
    requires Undisturbed(env, w.clock) && !OwnOf(w.store, t.key).Several? && Fair(env, w, t, subs)
    requires j < |subs| && forall h | 0 <= h < j :: Unserved(env, w, t, subs, h)
    ensures Unserved(env, w, t, subs, j) <==> !Available(w.store, t.key, subs[j])
  {
    hide Allocate, OwnFirst, OwnOf, CanServe, Exhausted;
    UndisturbedFailures(env, w, t, subs, j);
    if subs[j].prefix.Some? {
      var s, u := subs[j].prefix.value, WorldAt(env, w, t, subs, j);
      UndisturbedAllocate(env, u, t, s);
      if CanServe(env, u, t, s) {
        ServableIsNotExhausted(env, u, t, s);
      }
    }
  }

  lemma {:induction false} AllUnservedIff(env: Env, w: World, t: Target, subs: seq<PoolSubnet>, k: nat)
    requires Undisturbed(env, w.clock) && !OwnOf(w.store, t.key).Several? && Fair(env, w, t, subs)
    requires k <= |subs|
    ensures (forall j | 0 <= j < k :: Unserved(env, w, t, subs, j)) <==>
      (forall j | 0 <= j < k :: !Available(w.store, t.key, subs[j]))
  {
    hide Unserved, Available, Fair;
    if k > 0 {
      AllUnservedIff(env, w, t, subs, k - 1);
      if forall j | 0 <= j < k - 1 :: Unserved(env, w, t, subs, j) {
        UnservedIff(env, w, t, subs, k - 1);
      }
    }
  }

  /**
    The address comes from the first subnet with an available address. There is none exactly
    when the attempt fails, and then the store is as before.
   */
  lemma {:induction false} FirstAvailable(env: Env, w: World, t: Target, subs: seq<PoolSubnet>)
    requires Undisturbed(env, w.clock) && !OwnOf(w.store, t.key).Several? && Fair(env, w, t, subs)
    ensures var out := EnsureFrom(env, w, t, subs, 0);
      if out.result.Got? then
        && out.result.index < |subs| && Available(w.store, t.key, subs[out.result.index])
        && forall j | 0 <= j < out.result.index :: !Available(w.store, t.key, subs[j])
      else (forall j | 0 <= j < |subs| :: !Available(w.store, t.key, subs[j])) && out.world.store == w.store
  {
    hide Allocate, EnsureFrom, Available, Fair;
    var out := EnsureFrom(env, w, t, subs, 0);
    FirstFitFrom(env, w, t, subs, 0);
    var m := if out.result.Got? then out.result.index else |subs|;
    AllUnservedIff(env, w, t, subs, m);
    if out.result.Got? {
      UnservedIff(env, w, t, subs, m);
    } else {
      UndisturbedFailures(env, w, t, subs, m);
    }
  }

  // ---------- retries ----------

  /** A world in which the host's record shows `a` in subnet `k` and no earlier one is served. */
  lemma {:induction false} FindsAgain(env: Env, v: World, t: Target, subs: seq<PoolSubnet>, k: nat, a: Address)
    requires Undisturbed(env, v.clock) && k < |subs| && subs[k].prefix.Some?
    requires OwnFirst(OwnOf(v.store, t.key), subs[k].prefix.value) == Some(a)
    requires forall j | 0 <= j < k :: Unserved(env, v, t, subs, j)
    ensures var again := EnsureFrom(env, v, t, subs, 0);
      again.result == Got(k, a) && again.world.store == v.store
  {
    hide Allocate, EnsureFrom, Unserved;
    UndisturbedFailures(env, v, t, subs, k);
    UndisturbedAllocate(env, WorldAt(env, v, t, subs, k), t, subs[k].prefix.value);
    PickedOnce(env, v, t, subs, k, a);
  }

  /**
    When is a retry stable? The first attempt succeeds in subnet `k`, whatever happens to it;
    then other hosts do what they like, leaving only the host's own record as it is. A second,
    undisturbed attempt gives the same answer and leaves the store alone exactly when no earlier
    subnet has an address for the host. Nothing pins the first choice.
   */
  lemma {:induction false} RetryStableIff(
      env: Env, w: World, env': Env, v: World, t: Target, subs: seq<PoolSubnet>, k: nat, a: Address)
    requires EnsureFrom(env, w, t, subs, 0).result == Got(k, a)
    requires OwnOf(v.store, t.key) == OwnOf(EnsureFrom(env, w, t, subs, 0).world.store, t.key)
    requires Undisturbed(env', v.clock) && Fair(env', v, t, subs)
    ensures k < |subs|
    ensures var again := EnsureFrom(env', v, t, subs, 0);
      again.result == Got(k, a) && again.world.store == v.store <==>
        forall j | 0 <= j < k :: !Available(v.store, t.key, subs[j])
  {
    hide Allocate, EnsureFrom, Available, Fair, Unserved;
    FirstFitFrom(env, w, t, subs, 0);
    AllocatedInSubnet(env, WorldAt(env, w, t, subs, k), Req(t, subs[k].prefix.value));
    AllUnservedIff(env', v, t, subs, k);
    FirstFitFrom(env', v, t, subs, 0);
    if forall j | 0 <= j < k :: Unserved(env', v, t, subs, j) {
      FindsAgain(env', v, t, subs, k, a);
    }
  }

  /** What an undisturbed success in subnet `k` leaves for the next attempt. */
  lemma {:induction false} AfterSuccess(env: Env, w: World, t: Target, subs: seq<PoolSubnet>, k: nat, a: Address)
    requires Undisturbed(env, w.clock) && !OwnOf(w.store, t.key).Several?
    requires EnsureFrom(env, w, t, subs, 0).result == Got(k, a)
    ensures k < |subs| && subs[k].prefix.Some?
    ensures var v := EnsureFrom(env, w, t, subs, 0).world;
      && v.clock >= w.clock && !OwnOf(v.store, t.key).Several?
      && OwnFirst(OwnOf(v.store, t.key), subs[k].prefix.value) == Some(a)
      && forall j | 0 <= j < k && subs[j].prefix.Some? ::
           OwnFirst(OwnOf(v.store, t.key), subs[j].prefix.value).None? <==> !Contains(subs[j].prefix.value, a)
  {
    hide Allocate, CanServe, Acceptable, OwnAllocate, OwnFirst;
    FirstFitFrom(env, w, t, subs, 0);
    UndisturbedFailures(env, w, t, subs, k);
    var u, req := WorldAt(env, w, t, subs, k), Req(t, subs[k].prefix.value);
    AllocatedInSubnet(env, u, req);
    UndisturbedAllocate(env, u, t, req.subnet);
    AllocateAsSeen(env, u, req);
    NotSeveral(OwnOf(u.store, t.key), req, AnswerOf(env, u, req));
    forall j | 0 <= j < k && subs[j].prefix.Some?
      ensures OwnFirst(OwnOf(Allocate(env, u, req).world.store, t.key), subs[j].prefix.value).None?
        <==> !Contains(subs[j].prefix.value, a)
    {
      assert Unserved(env, w, t, subs, j);
      UndisturbedFailures(env, w, t, subs, j);
      UndisturbedAllocate(env, WorldAt(env, w, t, subs, j), t, subs[j].prefix.value);
      AllocateElsewhere(OwnOf(u.store, t.key), req, AnswerOf(env, u, req), subs[j].prefix.value);
    }
  }

  lemma {:induction false} NotSeveral(own: Own, req: Request, a: Answer)
    requires !own.Several?
    ensures !OwnAllocate(own, req, a).own.Several?
  {
  }

  /**
    After an undisturbed first attempt the host has no address in an earlier subnet, unless the
    one it got lies there. So a retry is stable exactly when each earlier subnet that parses
    does not contain the address and is, by now, used up.
   */
  lemma {:induction false} RetryStableAfterCleanSuccessIff(
      env: Env, w: World, env': Env, v: World, t: Target, subs: seq<PoolSubnet>, k: nat, a: Address)
    requires Undisturbed(env, w.clock) && !OwnOf(w.store, t.key).Several?
    requires EnsureFrom(env, w, t, subs, 0).result == Got(k, a)
    requires OwnOf(v.store, t.key) == OwnOf(EnsureFrom(env, w, t, subs, 0).world.store, t.key)
    requires Undisturbed(env', v.clock) && Fair(env', v, t, subs)
    ensures k < |subs|
    ensures var again := EnsureFrom(env', v, t, subs, 0);
      again.result == Got(k, a) && again.world.store == v.store <==>
        forall j | 0 <= j < k && subs[j].prefix.Some? ::
          !Contains(subs[j].prefix.value, a)
          && Exhausted(v.store, OwnView(OwnOf(v.store, t.key), t.key), subs[j].prefix.value)
  {
    hide EnsureFrom, Exhausted, Fair, OwnFirst, OwnOf, Contains;
    AfterSuccess(env, w, t, subs, k, a);
    RetryStableIff(env, w, env', v, t, subs, k, a);
    assert forall j | 0 <= j < k && subs[j].prefix.None? :: !Available(v.store, t.key, subs[j]);
    assert forall j | 0 <= j < k && subs[j].prefix.Some? :: !Available(v.store, t.key, subs[j]) <==>
      !Contains(subs[j].prefix.value, a)
      && Exhausted(v.store, OwnView(OwnOf(v.store, t.key), t.key), subs[j].prefix.value);
  }

  /** If every earlier subnet was used up, a second attempt right after is stable. */
  lemma {:induction false} RetryStableWhenExhausted(
      env: Env, w: World, t: Target, subs: seq<PoolSubnet>, k: nat, a: Address)
    requires Undisturbed(env, w.clock) && !OwnOf(w.store, t.key).Several?
    requires EnsureFrom(env, w, t, subs, 0).result == Got(k, a)
    requires forall j | 0 <= j < k && j < |subs| && subs[j].prefix.Some? ::
      Exhausted(w.store, OwnView(OwnOf(w.store, t.key), t.key), subs[j].prefix.value)
    ensures var v := EnsureFrom(env, w, t, subs, 0).world;
      EnsureFrom(env, v, t, subs, 0).result == Got(k, a) && EnsureFrom(env, v, t, subs, 0).world.store == v.store
  {
    hide Allocate, CanServe, EnsureFrom, Exhausted;
    var v := EnsureFrom(env, w, t, subs, 0).world;
    AfterSuccess(env, w, t, subs, k, a);
    FirstFitFrom(env, w, t, subs, 0);
    UndisturbedFailures(env, w, t, subs, k);
    var u := WorldAt(env, w, t, subs, k);
    forall j | 0 <= j < k && subs[j].prefix.Some?
      ensures Exhausted(v.store, OwnView(OwnOf(v.store, t.key), t.key), subs[j].prefix.value)
      ensures !Contains(subs[j].prefix.value, a)
    {
      assert Unserved(env, w, t, subs, j);
      UndisturbedFailures(env, w, t, subs, j);
      UndisturbedAllocate(env, WorldAt(env, w, t, subs, j), t, subs[j].prefix.value);
      StaysExhausted(env, u, t, subs[k].prefix.value, subs[j].prefix.value);
    }
    ExhaustedUnserved(env, v, t, subs, k);
    FindsAgain(env, v, t, subs, k, a);
  }

  lemma {:induction false} ExhaustedUnserved(env: Env, v: World, t: Target, subs: seq<PoolSubnet>, k: nat)
    requires Undisturbed(env, v.clock) && !OwnOf(v.store, t.key).Several? && k <= |subs|
    requires forall j | 0 <= j < k && subs[j].prefix.Some? ::
      OwnFirst(OwnOf(v.store, t.key), subs[j].prefix.value).None?
      && Exhausted(v.store, OwnView(OwnOf(v.store, t.key), t.key), subs[j].prefix.value)
    ensures forall j | 0 <= j < k :: Unserved(env, v, t, subs, j)
  {
    hide Allocate;
    if k > 0 {
      ExhaustedUnserved(env, v, t, subs, k - 1);
      UndisturbedFailures(env, v, t, subs, k - 1);
      if subs[k - 1].prefix.Some? {
        UndisturbedAllocate(env, WorldAt(env, v, t, subs, k - 1), t, subs[k - 1].prefix.value);
      }
    }
  }

  /** An undisturbed success that had to allocate grants an address that was free. */
  lemma {:induction false} UndisturbedEffect(env: Env, w: World, t: Target, s: Subnet)
    requires Undisturbed(env, w.clock) && !OwnOf(w.store, t.key).Several?
    requires OwnFirst(OwnOf(w.store, t.key), s).Some? || Allocate(env, w, Req(t, s)).result.Ok?
    ensures var out, own := Allocate(env, w, Req(t, s)), OwnOf(w.store, t.key);
      var g := env.moves(w.clock + 1).grant;
      && (OwnFirst(own, s).None? ==> Acceptable(w.store, own, Req(t, s), g) && out.result == Ok(g.pick)
                                     && OwnOf(out.world.store, t.key) == Grow(own, Req(t, s), g))
      && Others(out.world.store, t.key) == Others(w.store, t.key)
  {
    var w1 := Pass(env, w, t.key);
    assert env.moves(w.clock).others.None? && w1.store == w.store;
    assert env.moves(w1.clock).others.None? && env.moves(w1.clock).fault == Fine;
    assert env.moves(w1.clock + 1).others.None? && env.moves(w1.clock + 1).fault == Fine;
    AllocateAsSeen(env, w, Req(t, s));
    QuietAllocateKeepsOthers(env, w, Req(t, s));
  }

  /** A successful allocation in `s` frees nothing in `x`, and takes nothing from it. */
  lemma {:induction false} StaysExhausted(env: Env, u: World, t: Target, s: Subnet, x: Subnet)
    requires Undisturbed(env, u.clock) && !OwnOf(u.store, t.key).Several?
    requires Allocate(env, u, Req(t, s)).result.Ok? && OwnFirst(OwnOf(u.store, t.key), x).None?
    requires Exhausted(u.store, OwnView(OwnOf(u.store, t.key), t.key), x)
    ensures var v := Allocate(env, u, Req(t, s)).world.store;
      Exhausted(v, OwnView(OwnOf(v, t.key), t.key), x)
    ensures !Contains(x, Allocate(env, u, Req(t, s)).result.value)
  {
    var key, req := t.key, Req(t, s);
    var own := OwnOf(u.store, key);
    UndisturbedAllocate(env, u, t, s);
    UndisturbedEffect(env, u, t, s);
    AllocateAsSeen(env, u, req);
    var v := Allocate(env, u, req).world.store;
    if OwnFirst(own, s).Some? {
      AllocateElsewhere(own, req, AnswerOf(env, u, req), x);
    } else {
      OwnInStore(u.store, key);
      OwnInStore(v, key);
      var view := OwnView(own, key);
      forall b | Contains(x, b) ensures Held(v, view, b) {
        var r :| r in u.store && u.store[r].networkView == view && b in u.store[r].Addresses();
        assert (own.Single? && r == own.ref) || r in Others(u.store, key);
        assert r in v && v[r].networkView == view && b in v[r].Addresses();
      }
    }
  }

  // ---------- a retry that moves ----------

  const OTHERS_RECORD := Record("other", "lan", "", false, None, [Ip(FIRST_ADDRESS)], [])
  const HOSTS_RECORD := Record("host", "lan", "", false, None, [Ip(SECOND_ADDRESS)], [])

  /** Nothing fails and nobody disturbs; the second address is offered at call 3 and the first otherwise. */
  function MovingEnv(): Env {
    Env(n => Move(None, Fine, Grant(if n == 3 then SECOND_ADDRESS else FIRST_ADDRESS, "ref", "")), {FIRST, SECOND})
  }

  /** While another host holds the first address, the host gets the second. */
  lemma {:induction false} MovingFirst(w: World)
    requires w == World(map["other" := OTHERS_RECORD], 0, [])
    ensures var out := EnsureFrom(MovingEnv(), w, HOST, PAIR, 0);
      && out.result == Got(1, SECOND_ADDRESS) && out.world.clock == 5
      && OwnOf(out.world.store, HOST.key) == Single("ref", HOSTS_RECORD)
      && Others(out.world.store, HOST.key) == w.store
  {
    var env, key, x, y := MovingEnv(), HOST.key, FIRST_ADDRESS, SECOND_ADDRESS;
    EachHoldsOne();
    TheOneSpec(OwnMap(w.store, key));
    assert OwnOf(w.store, key) == Absent && Others(w.store, key) == w.store;
    assert x in OTHERS_RECORD.Addresses() && Held(w.store, "lan", x);
    assert !Held(w.store, "lan", y);
    UndisturbedAllocate(env, w, HOST, FIRST);
    var u := Allocate(env, w, Req(HOST, FIRST)).world;
    UndisturbedAllocate(env, u, HOST, SECOND);
    UndisturbedEffect(env, u, HOST, SECOND);
    hide Allocate;
    var out := Allocate(env, u, Req(HOST, SECOND));
    assert EnsureFrom(env, u, HOST, PAIR, 1) == Attempt(out.world, Got(1, y));
  }

  /** Once the other record is gone, the same host gets the first address. */
  lemma {:induction false} MovingAgain(v: World)
    requires v.clock == 5 && v.store == map["ref" := HOSTS_RECORD]
    ensures EnsureFrom(MovingEnv(), v, HOST, PAIR, 0).result == Got(0, FIRST_ADDRESS)
    ensures Fair(MovingEnv(), v, HOST, PAIR)
  {
    var env, key, x := MovingEnv(), HOST.key, FIRST_ADDRESS;
    EachHoldsOne();
    TheOneSpec(OwnMap(v.store, key));
    assert OwnMap(v.store, key) == map["ref" := HOSTS_RECORD];
    assert !Held(v.store, "lan", x);
    FirstInSpec(HOSTS_RECORD.v4, FIRST);
    UndisturbedAllocate(env, v, HOST, FIRST);
    UndisturbedEffect(env, v, HOST, FIRST);
    assert CanServe(env, v, HOST, FIRST);
    hide Allocate;
    assert WorldAt(env, v, HOST, PAIR, 0) == v;
    assert !Unserved(env, v, HOST, PAIR, 0);
  }

  /**
    A retry that moves: the first attempt takes the second subnet, another host gives its record
    back, and the second attempt, by a fair server and undisturbed, takes the first subnet.
   */
  lemma {:induction false} RetryMoves(w: World, v: World)
    requires w == World(map["other" := OTHERS_RECORD], 0, [])
    requires var w' := EnsureFrom(MovingEnv(), w, HOST, PAIR, 0).world;
      v.store == w'.store - {"other"} && v.clock == w'.clock
    ensures var env, first := MovingEnv(), EnsureFrom(MovingEnv(), w, HOST, PAIR, 0);
      && first.result == Got(1, SECOND_ADDRESS)
      && Rely(first.world.store, v.store, HOST.key, env.pool)
      && OwnOf(v.store, HOST.key) == OwnOf(first.world.store, HOST.key)
      && Undisturbed(env, v.clock) && Fair(env, v, HOST, PAIR)
      && EnsureFrom(env, v, HOST, PAIR, 0).result == Got(0, FIRST_ADDRESS)
  {
    var key, first := HOST.key, EnsureFrom(MovingEnv(), w, HOST, PAIR, 0).world;
    MovingFirst(w);
    hide EnsureFrom, Fair;
    TheOneSpec(OwnMap(first.store, key));
    assert OwnMap(first.store, key) == map["ref" := HOSTS_RECORD];
    assert v.store == map["ref" := HOSTS_RECORD] by {
      forall r | r in v.store ensures r == "ref" {
        assert r in OwnMap(first.store, key) || r in Others(first.store, key);
      }
      assert "ref" in OwnMap(first.store, key);
    }
    assert OwnMap(v.store, key) == OwnMap(first.store, key);
    EachHoldsOne();
    assert FirstAt(HOSTS_RECORD.v4, 0, SECOND);
    assert Sound(v.store, MovingEnv().pool);
    MovingAgain(v);
  }
}
